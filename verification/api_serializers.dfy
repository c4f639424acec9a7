/**
 * backend/api/serializers.py: the recipe write serializer of the newer
 * revision. Each item is checked on its own (its id must name an
 * Ingredient, its amount must lie in [MIN_INGREDIENT_AMOUNT,
 * MAX_INGREDIENT_AMOUNT]); then the list as a whole must be non-empty and
 * free of repeats. Create writes the recipe and one row per item; update
 * always clears the composition, writes the new list, then the scalars.
 * Also the `recipes_limit` truncation of the subscription listing.
 */
module ApiSerializers {
  import opened Collections
  import opened Text
  import opened UsersModels
  import opened RecipesModels
  import opened Store
  import opened Requests

  /** CreateIngredientInRecipeSerializer: the id resolves, the amount is within both bounds. */
  predicate ItemValid(item: Item, ingredients: map<IngredientId, Ingredient>, limits: Limits)
  {
    item.id in ingredients && limits.minIngredientAmount <= item.amount <= limits.maxIngredientAmount
  }

  /**
   * `is_valid()`: field-level errors first (the scalars and every item),
   * then `validate()`: a missing or empty list, then a repeated id found
   * by comparing the list's length with its set's.
   */
  function Validate(input: RecipeInput, creating: bool, ingredients: map<IngredientId, Ingredient>, limits: Limits): (r: Option<Rejection>)
    ensures r.None? <==>
      && FieldsValid(input, creating, limits)
      && input.ingredients.Some? && input.ingredients.value != []
      && (forall i :: 0 <= i < |input.ingredients.value| ==> ItemValid(input.ingredients.value[i], ingredients, limits))
      && NoDup(ItemIds(input.ingredients.value))
    ensures r == Some(RepeatedIngredients) ==> input.ingredients.Some? && !NoDup(ItemIds(input.ingredients.value))
  {
    if !FieldsValid(input, creating, limits) then Some(InvalidFields)
    else if input.ingredients.Some?
      && exists i :: 0 <= i < |input.ingredients.value| && !ItemValid(input.ingredients.value[i], ingredients, limits)
    then Some(InvalidItems)
    else if input.ingredients.None? then Some(MissingIngredients)
    else if input.ingredients.value == [] then Some(EmptyIngredients)
    else
      var ids := ItemIds(input.ingredients.value);
      ElemsCardinality(ids);
      if |ids| != |Elems(ids)| then Some(RepeatedIngredients) else None
  }

  /** An accepted list names distinct existing ingredients with amounts in range. */
  lemma AcceptedItems(input: RecipeInput, creating: bool, ingredients: map<IngredientId, Ingredient>, limits: Limits)
    requires Validate(input, creating, ingredients, limits).None?
    ensures NoDup(IngredientIds(Portions(input.ingredients.value)))
    ensures forall p :: p in Portions(input.ingredients.value) ==>
      p.ingredient in ingredients && limits.minIngredientAmount <= p.amount <= limits.maxIngredientAmount
  {
    IngredientIdsOfPortions(input.ingredients.value);
  }

  /** `create`: the recipe row authored by the requesting user, then its rows. */
  method Create(db: Database, author: UserId, input: RecipeInput, limits: Limits, now: int) returns (id: RecipeId)
    requires Validate(input, true, db.ingredients, limits).None?
    modifies db
    ensures id == old(db.nextRecipeId)
    ensures db.State() == Created(old(db.State()), author, input, now)
  {
    id := db.nextRecipeId;
    db.recipes := db.recipes[id := NewRecipe(author, input, now)];
    db.nextRecipeId := id + 1;
    CreateIngredients(db, id, input.ingredients.value);
  }

  /** `create_ingredients`: one `bulk_create` of a row per item. */
  method CreateIngredients(db: Database, recipe: RecipeId, items: seq<Item>)
    modifies db
    ensures db.State() == old(db.State()).AppendRows(recipe, Portions(items))
  {
    db.rows := db.rows + NewRows(recipe, Portions(items));
  }

  /** `update`: clear, write the new list, then the supplied scalars. */
  method Update(db: Database, id: RecipeId, input: RecipeInput, limits: Limits)
    requires id in db.recipes
    requires Validate(input, false, db.ingredients, limits).None?
    modifies db
    ensures db.State() == old(db.State()).ClearComposition(id).AppendRows(id, Portions(input.ingredients.value))
                            .SetRecipe(id, ApplyFields(old(db.recipes[id]), input))
  {
    db.rows := RowsSurviving(db.rows, {id}, {});
    CreateIngredients(db, id, input.ingredients.value);
    db.recipes := db.recipes[id := ApplyFields(db.recipes[id], input)];
  }

  /** The store after `create`: the new recipe row under the next id, then its rows. */
  function Created(t: Tables, author: UserId, input: RecipeInput, now: int): Tables
    requires input.name.Some? && input.text.Some? && input.cookingTime.Some? && input.ingredients.Some?
  {
    t.InsertRecipe(NewRecipe(author, input, now)).AppendRows(t.nextRecipeId, Portions(input.ingredients.value))
  }

  /**
   * After a create the store is still valid; the new recipe is authored by
   * the requester, carries the submitted fields (name and text trimmed and
   * not blank) and a fresh publication time, and its composition is
   * exactly the submitted list; users, ingredients, the other recipes,
   * their compositions and the relation rows are unchanged; amounts stay
   * in range.
   */
  lemma CreateEffect(t: Tables, author: UserId, input: RecipeInput, limits: Limits, now: int)
    requires t.Valid() && author in t.users
    requires Validate(input, true, t.ingredients, limits).None?
    ensures Created(t, author, input, now).Valid()
    ensures t.nextRecipeId !in t.recipes && Created(t, author, input, now).recipes.Keys == t.recipes.Keys + {t.nextRecipeId}
    ensures Created(t, author, input, now).recipes[t.nextRecipeId]
         == Recipe(author, Strip(input.name.value), Strip(input.text.value), input.cookingTime.value, now)
    ensures Strip(input.name.value) != "" && Strip(input.text.value) != ""
    ensures input.cookingTime.value >= limits.minCookingTime
    ensures forall other :: other in t.recipes ==> Created(t, author, input, now).recipes[other] == t.recipes[other]
    ensures Composition(Created(t, author, input, now).rows, t.nextRecipeId) == Portions(input.ingredients.value)
    ensures forall other :: other != t.nextRecipeId ==>
      Composition(Created(t, author, input, now).rows, other) == Composition(t.rows, other)
    ensures Created(t, author, input, now).users == t.users && Created(t, author, input, now).ingredients == t.ingredients
    ensures Created(t, author, input, now).favorites == t.favorites && Created(t, author, input, now).carts == t.carts
    ensures Created(t, author, input, now).subscriptions == t.subscriptions
    ensures AmountsWithin(t.rows, limits.minIngredientAmount, limits.maxIngredientAmount) ==>
      AmountsWithin(Created(t, author, input, now).rows, limits.minIngredientAmount, limits.maxIngredientAmount)
  {
    var recipe := NewRecipe(author, input, now);
    var portions := Portions(input.ingredients.value);
    assert FieldsValid(input, true, limits);
    AcceptedItems(input, true, t.ingredients, limits);
    CreateRecipeValid(t, recipe, portions);
    var u := Created(t, author, input, now);
    assert u.recipes == t.recipes[t.nextRecipeId := recipe];
    assert u.rows == t.rows + NewRows(t.nextRecipeId, portions);
    AmountsWithinAppend(t.rows, t.nextRecipeId, portions, limits.minIngredientAmount, limits.maxIngredientAmount);
  }

  /**
   * After an update the store is still valid and the recipe's composition
   * is exactly the new list (no row of the old one is left); author and
   * publication time are kept, the supplied scalars written; a non-blank
   * name and text and a cooking time of at least MIN_COOKING_TIME stay
   * so; other recipes are untouched.
   */
  lemma UpdateEffect(t: Tables, id: RecipeId, input: RecipeInput, limits: Limits)
    requires t.Valid() && id in t.recipes
    requires Validate(input, false, t.ingredients, limits).None?
    ensures var u := t.ClearComposition(id).AppendRows(id, Portions(input.ingredients.value))
                      .SetRecipe(id, ApplyFields(t.recipes[id], input));
      && u.Valid()
      && Composition(u.rows, id) == Portions(input.ingredients.value)
      && (forall other :: other != id ==> Composition(u.rows, other) == Composition(t.rows, other))
      && u.recipes.Keys == t.recipes.Keys
      && u.recipes[id].author == t.recipes[id].author && u.recipes[id].pubDate == t.recipes[id].pubDate
      && u.recipes[id] == ApplyFields(t.recipes[id], input)
      && (input.name.Some? ==> u.recipes[id].name == Strip(input.name.value))
      && (t.recipes[id].name != "" ==> u.recipes[id].name != "")
      && (t.recipes[id].text != "" ==> u.recipes[id].text != "")
      && (t.recipes[id].cookingTime >= limits.minCookingTime ==> u.recipes[id].cookingTime >= limits.minCookingTime)
      && (forall other :: other in t.recipes && other != id ==> u.recipes[other] == t.recipes[other])
      && u.favorites == t.favorites && u.carts == t.carts && u.subscriptions == t.subscriptions
      && (AmountsWithin(t.rows, limits.minIngredientAmount, limits.maxIngredientAmount) ==>
          AmountsWithin(u.rows, limits.minIngredientAmount, limits.maxIngredientAmount))
  {
    AcceptedItems(input, false, t.ingredients, limits);
    ReplaceCompositionValid(t, id, Portions(input.ingredients.value));
  }

  /** Two updates in a row leave the composition the second one wrote. */
  lemma UpdateTwice(t: Tables, id: RecipeId, first: RecipeInput, second: RecipeInput)
    requires id in t.recipes && first.ingredients.Some? && second.ingredients.Some?
    ensures var once := t.ClearComposition(id).AppendRows(id, Portions(first.ingredients.value))
                         .SetRecipe(id, ApplyFields(t.recipes[id], first));
      var twice := once.ClearComposition(id).AppendRows(id, Portions(second.ingredients.value))
                   .SetRecipe(id, ApplyFields(once.recipes[id], second));
      twice.rows == t.ClearComposition(id).AppendRows(id, Portions(second.ingredients.value)).rows
  {
    ReplaceOverwrites(t, id, Portions(first.ingredients.value), Portions(second.ingredients.value));
  }

  /**
   * `get_recipes`: the author's recipes, cut to the first `int(limit)` when
   * there is a request and its `recipes_limit` is a non-empty string that
   * parses; a non-negative limit past the end keeps them all, and a
   * negative one is refused by the slice and ignored.
   */
  function GetRecipes(recipes: seq<RecipeId>, hasRequest: bool, limit: Option<string>): (r: seq<RecipeId>)
    ensures !hasRequest || limit.None? || limit.value == "" ==> r == recipes
    ensures hasRequest && limit.Some? && ParseInt(limit.value).Some? && ParseInt(limit.value).value >= 0 ==>
      r == recipes[..if ParseInt(limit.value).value < |recipes| then ParseInt(limit.value).value else |recipes|]
    ensures limit.Some? && ParseInt(limit.value).None? ==> r == recipes
    ensures limit.Some? && ParseInt(limit.value).Some? && ParseInt(limit.value).value < 0 ==> r == recipes
    ensures r <= recipes
  {
    if hasRequest && limit.Some? && limit.value != [] then
      match ParseInt(limit.value)
      case Some(n) => if n < 0 then recipes else recipes[..if n < |recipes| then n else |recipes|]
      case None => recipes
    else recipes
  }

  /** A limit written as a number `n` keeps exactly the first `n` recipes. */
  lemma GetRecipesOfNumber(recipes: seq<RecipeId>, n: nat)
    requires n <= |recipes|
    ensures |GetRecipes(recipes, true, Some(NatToString(n)))| == n
    ensures GetRecipes(recipes, true, Some(NatToString(n))) == recipes[..n]
  {
    ParseIntOfIntToString(n);
  }
}
