/**
 * backend/recipes/serializers.py: the write serializer between the two
 * revisions. Items are checked for a positive amount only; the list
 * check is the in-order scan of `validate_ingredients` with the existence
 * test; an update must carry the `ingredients` key. Update writes the
 * scalars first and replaces the composition only when a non-empty list
 * was supplied.
 */
module RecipesSerializers {
  import opened Collections
  import opened UsersModels
  import opened RecipesModels
  import opened Store
  import opened Requests
  import opened IngredientScan

  /**
   * `validate_ingredients`: refuse the empty list, then walk the items in
   * order, refusing the first id already seen and then the first id with
   * no Ingredient row; a list that passes is handed on as it came.
   */
  method ValidateIngredients(value: seq<Item>, ingredients: map<IngredientId, Ingredient>) returns (r: Option<Rejection>)
    ensures r == IngredientsProblem(value, true, ingredients.Keys)
  {
    if value == [] {
      return Some(EmptyIngredients);
    }
    var seen: seq<int> := [];
    var i := 0;
    while i < |value|
      invariant 0 <= i <= |value|
      invariant seen == ItemIds(value[..i])
      invariant ScanFrom(value, 0, true, ingredients.Keys) == ScanFrom(value, i, true, ingredients.Keys)
    {
      var id := value[i].id;
      if id in seen {
        return Some(RepeatedIngredient(id));
      }
      if id !in ingredients {
        return Some(UnknownIngredient(id));
      }
      seen := seen + [id];
      i := i + 1;
      assert value[..i] == value[..i - 1] + [value[i - 1]];
    }
    return None;
  }

  /**
   * `is_valid()`: the scalars and each item's amount (at least 1), the
   * list check above, and `validate()`'s demand that the list be present;
   * on create a missing list is the field's own "required" error.
   */
  function Validate(input: RecipeInput, updating: bool, ingredients: map<IngredientId, Ingredient>, limits: Limits): (r: Option<Rejection>)
    ensures r.None? <==>
      && FieldsValid(input, !updating, limits)
      && input.ingredients.Some? && input.ingredients.value != []
      && (forall i :: 0 <= i < |input.ingredients.value| ==>
            input.ingredients.value[i].amount >= 1 && input.ingredients.value[i].id in ingredients)
      && NoDup(ItemIds(input.ingredients.value))
  {
    if !FieldsValid(input, !updating, limits) then Some(InvalidFields)
    else if input.ingredients.None? then Some(MissingIngredients)
    else if exists i :: 0 <= i < |input.ingredients.value| && input.ingredients.value[i].amount < 1 then Some(InvalidItems)
    else
      IngredientsProblemIff(input.ingredients.value, true, ingredients.Keys);
      IngredientsProblem(input.ingredients.value, true, ingredients.Keys)
  }

  /** An accepted list names distinct existing ingredients with positive amounts. */
  lemma AcceptedItems(input: RecipeInput, updating: bool, ingredients: map<IngredientId, Ingredient>, limits: Limits)
    requires Validate(input, updating, ingredients, limits).None?
    ensures NoDup(IngredientIds(Portions(input.ingredients.value)))
    ensures forall p :: p in Portions(input.ingredients.value) ==> p.ingredient in ingredients && p.amount >= 1
  {
    IngredientIdsOfPortions(input.ingredients.value);
  }

  /** `create_ingredients`: one `bulk_create` of a row per item, by id. */
  method CreateIngredients(db: Database, recipe: RecipeId, items: seq<Item>)
    modifies db
    ensures db.State() == old(db.State()).AppendRows(recipe, Portions(items))
  {
    db.rows := db.rows + NewRows(recipe, Portions(items));
  }

  /** `create`: the recipe row authored by the requesting user, then its rows. */
  method Create(db: Database, author: UserId, input: RecipeInput, limits: Limits, now: int) returns (id: RecipeId)
    requires Validate(input, false, db.ingredients, limits).None?
    modifies db
    ensures id == old(db.nextRecipeId)
    ensures db.State() == old(db.State()).InsertRecipe(NewRecipe(author, input, now)).AppendRows(id, Portions(input.ingredients.value))
  {
    id := db.nextRecipeId;
    db.recipes := db.recipes[id := NewRecipe(author, input, now)];
    db.nextRecipeId := id + 1;
    CreateIngredients(db, id, input.ingredients.value);
  }

  /** The store after `update`: scalars first, then the composition only for a non-empty list. */
  function Updated(t: Tables, id: RecipeId, input: RecipeInput): Tables
    requires id in t.recipes
  {
    var t1 := t.SetRecipe(id, ApplyFields(t.recipes[id], input));
    if input.ingredients.Some? && input.ingredients.value != [] then
      t1.ClearComposition(id).AppendRows(id, Portions(input.ingredients.value))
    else
      t1
  }

  method Update(db: Database, id: RecipeId, input: RecipeInput)
    requires id in db.recipes
    modifies db
    ensures db.State() == Updated(old(db.State()), id, input)
  {
    db.recipes := db.recipes[id := ApplyFields(db.recipes[id], input)];
    if input.ingredients.Some? && input.ingredients.value != [] {
      db.rows := RowsSurviving(db.rows, {id}, {});
      CreateIngredients(db, id, input.ingredients.value);
    }
  }

  /**
   * After a create the store is still valid; the new recipe is the
   * requester's, and its composition is exactly the submitted list.
   */
  lemma CreateEffect(t: Tables, author: UserId, input: RecipeInput, limits: Limits, now: int)
    requires t.Valid() && author in t.users
    requires Validate(input, false, t.ingredients, limits).None?
    ensures var u := t.InsertRecipe(NewRecipe(author, input, now)).AppendRows(t.nextRecipeId, Portions(input.ingredients.value));
      && u.Valid()
      && t.nextRecipeId !in t.recipes && u.recipes.Keys == t.recipes.Keys + {t.nextRecipeId}
      && u.recipes[t.nextRecipeId].author == author && u.recipes[t.nextRecipeId].pubDate == now
      && Composition(u.rows, t.nextRecipeId) == Portions(input.ingredients.value)
      && (forall other :: other != t.nextRecipeId ==> Composition(u.rows, other) == Composition(t.rows, other))
      && u.favorites == t.favorites && u.carts == t.carts && u.subscriptions == t.subscriptions
      && (AmountsAtLeast(t.rows, 1) ==> AmountsAtLeast(u.rows, 1))
  {
    AcceptedItems(input, false, t.ingredients, limits);
    CreateRecipeValid(t, NewRecipe(author, input, now), Portions(input.ingredients.value));
  }

  /** A validated update always carries a non-empty list, so it always replaces the composition. */
  lemma ValidatedUpdateReplaces(t: Tables, id: RecipeId, input: RecipeInput, limits: Limits)
    requires t.Valid() && id in t.recipes
    requires Validate(input, true, t.ingredients, limits).None?
    ensures Updated(t, id, input).Valid()
    ensures Composition(Updated(t, id, input).rows, id) == Portions(input.ingredients.value)
    ensures forall other :: other != id ==> Composition(Updated(t, id, input).rows, other) == Composition(t.rows, other)
    ensures Updated(t, id, input).recipes[id] == ApplyFields(t.recipes[id], input)
    ensures AmountsAtLeast(t.rows, 1) ==> AmountsAtLeast(Updated(t, id, input).rows, 1)
  {
    AcceptedItems(input, true, t.ingredients, limits);
    var t1 := t.SetRecipe(id, ApplyFields(t.recipes[id], input));
    ReplaceCompositionValid(t1, id, Portions(input.ingredients.value));
  }

  /** Without a non-empty list, an update leaves every composition as it was. */
  lemma UpdateWithoutList(t: Tables, id: RecipeId, input: RecipeInput)
    requires id in t.recipes
    requires input.ingredients.None? || input.ingredients.value == []
    ensures Updated(t, id, input).rows == t.rows
    ensures Updated(t, id, input).recipes == t.recipes[id := ApplyFields(t.recipes[id], input)]
  {
  }

  /** Without the existence test, an unknown id would pass: the check is what keeps rows pointing at ingredients. */
  lemma ExistenceCheckNeeded(ingredients: map<IngredientId, Ingredient>, x: int)
    requires x !in ingredients
    ensures IngredientsProblem([Item(x, 1)], true, ingredients.Keys) == Some(UnknownIngredient(x))
    ensures IngredientsProblem([Item(x, 1)], false, ingredients.Keys).None?
  {
    var items := [Item(x, 1)];
    assert items[..0] == [];
    assert ScanFrom(items, 1, true, ingredients.Keys).None? && ScanFrom(items, 1, false, ingredients.Keys).None?;
  }
}
