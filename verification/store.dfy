/**
 * The database behind both revisions of the app: every table as a value
 * (`Tables`), the invariants the models' unique constraints and foreign
 * keys impose on it (`Tables.Valid`), the cascades `on_delete=CASCADE`
 * performs, and the class `Database` whose fields the views and
 * serializers update in place.
 */
module Store {
  import opened Collections
  import opened UsersModels
  import opened RecipesModels

  datatype Tables = Tables(
    users: map<UserId, User>,
    ingredients: map<IngredientId, Ingredient>,
    recipes: map<RecipeId, Recipe>,
    rows: seq<Row>,
    favorites: seq<UserRecipe>,
    carts: seq<UserRecipe>,
    subscriptions: seq<Subscription>,
    nextRecipeId: RecipeId)
  {
    /**
     * The unique constraints of both model files, and every foreign key
     * pointing at an existing row. Self-subscription is NOT excluded:
     * the Subscription model has no such constraint.
     */
    ghost predicate Valid()
    {
      && UniqueUsers(users)
      && UniqueIngredients(ingredients)
      && (forall r :: r in recipes ==> recipes[r].author in users && r < nextRecipeId)
      && UniqueRows(rows)
      && (forall row :: row in rows ==> row.recipe in recipes && row.ingredient in ingredients)
      && NoDup(favorites)
      && (forall l :: l in favorites ==> l.user in users && l.recipe in recipes)
      && NoDup(carts)
      && (forall l :: l in carts ==> l.user in users && l.recipe in recipes)
      && NoDup(subscriptions)
      && (forall s :: s in subscriptions ==> s.user in users && s.author in users)
    }

    /** The table of a UserRecipeRelation model. */
    function Links(relation: Relation): seq<UserRecipe>
    {
      match relation
      case Favorite => favorites
      case ShoppingCart => carts
    }

    function WithLinks(relation: Relation, links: seq<UserRecipe>): (t: Tables)
      ensures t.Links(relation) == links
    {
      match relation
      case Favorite => this.(favorites := links)
      case ShoppingCart => this.(carts := links)
    }

    /** `model.objects.create(user=..., recipe=...)`. */
    function AddLink(relation: Relation, link: UserRecipe): Tables
    {
      WithLinks(relation, Links(relation) + [link])
    }

    /** `model.objects.filter(user=..., recipe=...).delete()`. */
    function RemoveLink(relation: Relation, link: UserRecipe): Tables
    {
      WithLinks(relation, Remove(Links(relation), link))
    }

    /** `Subscription.objects.create(user=..., author=...)`. */
    function AddSubscription(s: Subscription): Tables
    {
      this.(subscriptions := subscriptions + [s])
    }

    /** `Subscription.objects.filter(user=..., author=...).delete()`. */
    function RemoveSubscription(s: Subscription): Tables
    {
      this.(subscriptions := Remove(subscriptions, s))
    }

    /** `Recipe.objects.create(...)`: the new row gets the next id. */
    function InsertRecipe(recipe: Recipe): Tables
    {
      this.(recipes := recipes[nextRecipeId := recipe], nextRecipeId := nextRecipeId + 1)
    }

    /** `bulk_create` of one row per portion. */
    function AppendRows(recipe: RecipeId, portions: seq<Portion>): Tables
    {
      this.(rows := rows + NewRows(recipe, portions))
    }

    /** `instance.ingredients.clear()`: the recipe's rows are deleted. */
    function ClearComposition(recipe: RecipeId): Tables
    {
      this.(rows := RowsSurviving(rows, {recipe}, {}))
    }

    /** `super().update(instance, ...)`: the recipe row is overwritten. */
    function SetRecipe(id: RecipeId, recipe: Recipe): Tables
    {
      this.(recipes := recipes[id := recipe])
    }

    /** Deleting a recipe: its rows and every favorite and cart row naming it go too. */
    function DeleteRecipe(id: RecipeId): (t: Tables)
      ensures t.recipes == recipes - {id}
      ensures forall row :: row in t.rows <==> row in rows && row.recipe != id
      ensures forall l :: l in t.favorites <==> l in favorites && l.recipe != id
      ensures forall l :: l in t.carts <==> l in carts && l.recipe != id
      ensures t.users == users && t.ingredients == ingredients && t.subscriptions == subscriptions
    {
      this.(recipes := recipes - {id},
            rows := RowsSurviving(rows, {id}, {}),
            favorites := LinksSurviving(favorites, {}, {id}),
            carts := LinksSurviving(carts, {}, {id}))
    }

    /** Deleting an ingredient: the composition rows that use it go too. */
    function DeleteIngredient(id: IngredientId): (t: Tables)
      ensures t.ingredients == ingredients - {id}
      ensures forall row :: row in t.rows <==> row in rows && row.ingredient != id
      ensures t.users == users && t.recipes == recipes && t.favorites == favorites
      ensures t.carts == carts && t.subscriptions == subscriptions
    {
      this.(ingredients := ingredients - {id}, rows := RowsSurviving(rows, {}, {id}))
    }

    function AuthoredBy(user: UserId): set<RecipeId>
    {
      set r | r in recipes && recipes[r].author == user
    }

    /**
     * Deleting a user: their recipes (and everything hanging off those),
     * their favorite and cart rows, and every subscription they are
     * either end of.
     */
    function DeleteUser(id: UserId): (t: Tables)
      ensures t.users == users - {id}
      ensures forall r :: r in t.recipes <==> r in recipes && recipes[r].author != id
      ensures forall row :: row in t.rows <==> row in rows && row.recipe !in AuthoredBy(id)
      ensures forall l :: l in t.favorites <==> l in favorites && l.user != id && l.recipe !in AuthoredBy(id)
      ensures forall l :: l in t.carts <==> l in carts && l.user != id && l.recipe !in AuthoredBy(id)
      ensures forall s :: s in t.subscriptions <==> s in subscriptions && s.user != id && s.author != id
    {
      var gone := AuthoredBy(id);
      this.(users := users - {id},
            recipes := recipes - gone,
            rows := RowsSurviving(rows, gone, {}),
            favorites := LinksSurviving(favorites, {id}, gone),
            carts := LinksSurviving(carts, {id}, gone),
            subscriptions := SubscriptionsSurviving(subscriptions, {id}))
    }
  }

  /** The store every model starts from. */
  const Empty := Tables(map[], map[], map[], [], [], [], [], 0)

  lemma EmptyValid()
    ensures Empty.Valid()
  {
  }

  lemma DeleteRecipeValid(t: Tables, id: RecipeId)
    requires t.Valid()
    ensures t.DeleteRecipe(id).Valid()
  {
    RowsSurvivingUnique(t.rows, {id}, {});
    LinksSurvivingUnique(t.favorites, {}, {id});
    LinksSurvivingUnique(t.carts, {}, {id});
  }

  lemma DeleteIngredientValid(t: Tables, id: IngredientId)
    requires t.Valid()
    ensures t.DeleteIngredient(id).Valid()
  {
    RowsSurvivingUnique(t.rows, {}, {id});
  }

  lemma DeleteUserValid(t: Tables, id: UserId)
    requires t.Valid()
    ensures t.DeleteUser(id).Valid()
    ensures forall r :: r in t.DeleteUser(id).recipes ==> t.DeleteUser(id).recipes[r].author != id
  {
    var gone := t.AuthoredBy(id);
    RowsSurvivingUnique(t.rows, gone, {});
    LinksSurvivingUnique(t.favorites, {id}, gone);
    LinksSurvivingUnique(t.carts, {id}, gone);
    SubscriptionsSurvivingUnique(t.subscriptions, {id});
  }

  /**
   * The tables allow a user to follow themselves: only the views refuse
   * it. A valid store holding a self-subscription exists.
   */
  lemma ModelAllowsSelfSubscription()
    ensures exists t: Tables :: t.Valid() && !NoSelfSubscription(t.subscriptions)
  {
    var t := Empty.(users := map[1 := User("a@example.org", "a")], subscriptions := [Subscription(1, 1)]);
    assert t.subscriptions[0].user == t.subscriptions[0].author;
    assert t.Valid();
  }

  /** A fresh recipe by an existing author keeps the store valid and owns no rows. */
  lemma InsertRecipeValid(t: Tables, recipe: Recipe)
    requires t.Valid() && recipe.author in t.users
    ensures t.InsertRecipe(recipe).Valid()
    ensures t.nextRecipeId !in t.recipes
    ensures forall row :: row in t.rows ==> row.recipe != t.nextRecipeId
    ensures Composition(t.InsertRecipe(recipe).rows, t.nextRecipeId) == []
  {
    CompositionWithoutRows(t.rows, t.nextRecipeId);
  }

  /**
   * Clearing a recipe's rows and inserting a duplicate-free list of
   * existing ingredients keeps the store valid; afterwards the recipe's
   * composition is exactly the new list and every other recipe's is as it was.
   */
  lemma ReplaceCompositionValid(t: Tables, recipe: RecipeId, portions: seq<Portion>)
    requires t.Valid() && recipe in t.recipes
    requires NoDup(IngredientIds(portions))
    requires forall p :: p in portions ==> p.ingredient in t.ingredients
    ensures t.ClearComposition(recipe).AppendRows(recipe, portions).Valid()
    ensures Composition(t.ClearComposition(recipe).AppendRows(recipe, portions).rows, recipe) == portions
    ensures forall other :: other != recipe ==>
      Composition(t.ClearComposition(recipe).AppendRows(recipe, portions).rows, other) == Composition(t.rows, other)
  {
    var kept := RowsSurviving(t.rows, {recipe}, {});
    var added := NewRows(recipe, portions);
    RowsSurvivingUnique(t.rows, {recipe}, {});
    NewRowsUnique(recipe, portions);
    forall row | row in added
      ensures KeyAbsent(kept, row.recipe, row.ingredient)
    {
    }
    UniqueRowsAppend(kept, added);
    forall row | row in kept + added
      ensures row.recipe in t.recipes && row.ingredient in t.ingredients
    {
      if row in added {
        var i :| 0 <= i < |added| && added[i] == row;
        assert portions[i] in portions;
      }
    }
    CompositionAppend(kept, added, recipe);
    CompositionAfterClear(t.rows, recipe, recipe);
    CompositionOfNewRows(recipe, portions, recipe);
    forall other | other != recipe
      ensures Composition(kept + added, other) == Composition(t.rows, other)
    {
      CompositionAppend(kept, added, other);
      CompositionAfterClear(t.rows, recipe, other);
      CompositionOfNewRows(recipe, portions, other);
    }
  }

  /**
   * `Recipe.objects.create` followed by `bulk_create` of a duplicate-free
   * list of existing ingredients keeps the store valid; the new recipe's
   * composition is exactly the list, and nothing else changes.
   */
  lemma CreateRecipeValid(t: Tables, recipe: Recipe, portions: seq<Portion>)
    requires t.Valid() && recipe.author in t.users
    requires NoDup(IngredientIds(portions))
    requires forall p :: p in portions ==> p.ingredient in t.ingredients
    ensures t.InsertRecipe(recipe).AppendRows(t.nextRecipeId, portions).Valid()
    ensures Composition(t.InsertRecipe(recipe).AppendRows(t.nextRecipeId, portions).rows, t.nextRecipeId) == portions
    ensures forall other :: other != t.nextRecipeId ==>
      Composition(t.InsertRecipe(recipe).AppendRows(t.nextRecipeId, portions).rows, other) == Composition(t.rows, other)
  {
    var id := t.nextRecipeId;
    var t1 := t.InsertRecipe(recipe);
    InsertRecipeValid(t, recipe);
    RowsSurvivingNone(t1.rows, {id}, {});
    assert t1.ClearComposition(id) == t1;
    ReplaceCompositionValid(t1, id, portions);
  }

  /** Rows written for one recipe are all deleted by clearing that recipe. */
  lemma {:induction false} NewRowsCleared(recipe: RecipeId, portions: seq<Portion>)
    ensures RowsSurviving(NewRows(recipe, portions), {recipe}, {}) == []
  {
    if portions != [] {
      NewRowsCleared(recipe, portions[1..]);
      assert NewRows(recipe, portions)[1..] == NewRows(recipe, portions[1..]);
    }
  }

  /**
   * Whole-list replacement: replacing a recipe's composition with one
   * list and then with another leaves no trace of the first.
   */
  lemma ReplaceOverwrites(t: Tables, recipe: RecipeId, first: seq<Portion>, second: seq<Portion>)
    ensures t.ClearComposition(recipe).AppendRows(recipe, first).ClearComposition(recipe).AppendRows(recipe, second)
         == t.ClearComposition(recipe).AppendRows(recipe, second)
  {
    var kept := RowsSurviving(t.rows, {recipe}, {});
    RowsSurvivingAppend(kept, NewRows(recipe, first), {recipe}, {});
    RowsSurvivingNone(kept, {recipe}, {});
    NewRowsCleared(recipe, first);
    assert kept + [] == kept;
  }

  /**
   * Inserting an absent (user, recipe) pair whose ends exist keeps the
   * store valid; the relation then holds exactly its old pairs and the new
   * one, and the other relation is untouched.
   */
  lemma AddLinkValid(t: Tables, relation: Relation, link: UserRecipe)
    requires t.Valid() && link.user in t.users && link.recipe in t.recipes
    requires link !in t.Links(relation)
    ensures t.AddLink(relation, link).Valid()
    ensures forall l :: l in t.AddLink(relation, link).Links(relation) <==> l in t.Links(relation) || l == link
    ensures forall other :: other != relation ==> t.AddLink(relation, link).Links(other) == t.Links(other)
  {
    NoDupAppend(t.Links(relation), link);
  }

  /** Deleting a pair keeps the store valid and removes exactly that pair. */
  lemma RemoveLinkValid(t: Tables, relation: Relation, link: UserRecipe)
    requires t.Valid()
    ensures t.RemoveLink(relation, link).Valid()
    ensures forall l :: l in t.RemoveLink(relation, link).Links(relation) <==> l in t.Links(relation) && l != link
    ensures forall other :: other != relation ==> t.RemoveLink(relation, link).Links(other) == t.Links(other)
  {
    NoDupRemove(t.Links(relation), link);
  }

  /** Inserting a pair and deleting it again gives back the store. */
  lemma AddRemoveLink(t: Tables, relation: Relation, link: UserRecipe)
    requires link !in t.Links(relation)
    ensures t.AddLink(relation, link).RemoveLink(relation, link) == t
  {
    RemoveAppended(t.Links(relation), link);
  }

  lemma AddSubscriptionValid(t: Tables, s: Subscription)
    requires t.Valid() && s.user in t.users && s.author in t.users
    requires s !in t.subscriptions
    ensures t.AddSubscription(s).Valid()
    ensures forall x :: x in t.AddSubscription(s).subscriptions <==> x in t.subscriptions || x == s
  {
    NoDupAppend(t.subscriptions, s);
  }

  lemma RemoveSubscriptionValid(t: Tables, s: Subscription)
    requires t.Valid()
    ensures t.RemoveSubscription(s).Valid()
    ensures forall x :: x in t.RemoveSubscription(s).subscriptions <==> x in t.subscriptions && x != s
  {
    NoDupRemove(t.subscriptions, s);
  }

  /**
   * The store as the Django models keep it: one field per table, updated
   * in place by the views and serializers.
   */
  class Database {
    var users: map<UserId, User>
    var ingredients: map<IngredientId, Ingredient>
    var recipes: map<RecipeId, Recipe>
    var rows: seq<Row>
    var favorites: seq<UserRecipe>
    var carts: seq<UserRecipe>
    var subscriptions: seq<Subscription>
    var nextRecipeId: RecipeId

    /** All tables, as one value. */
    function State(): Tables
      reads this
    {
      Tables(users, ingredients, recipes, rows, favorites, carts, subscriptions, nextRecipeId)
    }

    ghost predicate Valid()
      reads this
    {
      State().Valid()
    }

    constructor ()
      ensures State() == Empty && Valid()
    {
      users, ingredients, recipes := map[], map[], map[];
      rows, favorites, carts, subscriptions := [], [], [], [];
      nextRecipeId := 0;
    }
  }
}
