/**
 * backend/foodgram/recipes/serializers.py: the older write serializer.
 * Validation refuses an empty list and a repeated id but never looks the
 * ids up; each id is resolved with `get_object_or_404` only while the rows
 * are being built, after the recipe row was written (create) or the old
 * rows were deleted (update). No transaction is visible around either.
 * An update without a non-empty list writes only the scalars.
 */
module LegacyRecipesSerializers {
  import opened Collections
  import opened UsersModels
  import opened RecipesModels
  import opened Store
  import opened Requests
  import opened IngredientScan

  /** `validate_ingredients`: the empty list, then the first repeated id in order. */
  method ValidateIngredients(value: seq<Item>) returns (r: Option<Rejection>)
    ensures r == IngredientsProblem(value, false, {})
  {
    if value == [] {
      return Some(EmptyIngredients);
    }
    var seen: seq<int> := [];
    var i := 0;
    while i < |value|
      invariant 0 <= i <= |value|
      invariant seen == ItemIds(value[..i])
      invariant ScanFrom(value, 0, false, {}) == ScanFrom(value, i, false, {})
    {
      if value[i].id in seen {
        return Some(RepeatedIngredient(value[i].id));
      }
      seen := seen + [value[i].id];
      i := i + 1;
      assert value[..i] == value[..i - 1] + [value[i - 1]];
    }
    return None;
  }

  /**
   * `is_valid()`: the scalars, each item's amount (at least 1) and the
   * list check. There is no `validate()`: an update may leave the list out.
   */
  function Validate(input: RecipeInput, updating: bool, limits: Limits): (r: Option<Rejection>)
    ensures r.None? <==>
      && FieldsValid(input, !updating, limits)
      && (input.ingredients.None? ==> updating)
      && (input.ingredients.Some? ==>
            && input.ingredients.value != []
            && (forall i :: 0 <= i < |input.ingredients.value| ==> input.ingredients.value[i].amount >= 1)
            && NoDup(ItemIds(input.ingredients.value)))
  {
    if !FieldsValid(input, !updating, limits) then Some(InvalidFields)
    else if input.ingredients.None? then (if updating then None else Some(MissingIngredients))
    else if exists i :: 0 <= i < |input.ingredients.value| && input.ingredients.value[i].amount < 1 then Some(InvalidItems)
    else
      IngredientsProblemIff(input.ingredients.value, false, {});
      IngredientsProblem(input.ingredients.value, false, {})
  }

  /** Every item names an existing Ingredient. */
  predicate AllKnown(items: seq<Item>, ingredients: map<IngredientId, Ingredient>)
  {
    forall k :: 0 <= k < |items| ==> items[k].id in ingredients
  }

  /**
   * `create_ingredients`: the comprehension resolves the ids in order and
   * the first unknown one aborts the request with 404 before `bulk_create`
   * runs; otherwise all rows are written.
   */
  method CreateIngredients(db: Database, recipe: RecipeId, items: seq<Item>) returns (found: bool)
    modifies db
    ensures found == AllKnown(items, old(db.ingredients))
    ensures db.State() == if found then old(db.State()).AppendRows(recipe, Portions(items)) else old(db.State())
  {
    var pending: seq<Row> := [];
    var i := 0;
    while i < |items|
      invariant 0 <= i <= |items|
      invariant |pending| == i
      invariant forall k :: 0 <= k < i ==> pending[k] == Row(recipe, items[k].id, items[k].amount)
      invariant forall k :: 0 <= k < i ==> items[k].id in db.ingredients
      invariant db.State() == old(db.State())
    {
      if items[i].id !in db.ingredients {
        return false;
      }
      pending := pending + [Row(recipe, items[i].id, items[i].amount)];
      i := i + 1;
    }
    assert pending == NewRows(recipe, Portions(items));
    db.rows := db.rows + pending;
    return true;
  }

  /** The store after `create`, as written: the recipe row stays even when a later id is unknown. */
  function Created(t: Tables, author: UserId, input: RecipeInput, now: int): Tables
    requires input.name.Some? && input.text.Some? && input.cookingTime.Some? && input.ingredients.Some?
  {
    var t1 := t.InsertRecipe(NewRecipe(author, input, now));
    if AllKnown(input.ingredients.value, t.ingredients) then t1.AppendRows(t.nextRecipeId, Portions(input.ingredients.value))
    else t1
  }

  method Create(db: Database, author: UserId, input: RecipeInput, limits: Limits, now: int) returns (id: RecipeId, status: Status)
    requires Validate(input, false, limits).None?
    modifies db
    ensures id == old(db.nextRecipeId)
    ensures db.State() == Created(old(db.State()), author, input, now)
    ensures status == if AllKnown(input.ingredients.value, old(db.ingredients)) then Created201 else NotFound404
  {
    id := db.nextRecipeId;
    db.recipes := db.recipes[id := NewRecipe(author, input, now)];
    db.nextRecipeId := id + 1;
    var found := CreateIngredients(db, id, input.ingredients.value);
    status := if found then Created201 else NotFound404;
  }

  /** The store after `update`, as written: with a non-empty list the old rows go before any id is resolved. */
  function Updated(t: Tables, id: RecipeId, input: RecipeInput): Tables
    requires id in t.recipes
  {
    var t1 := t.SetRecipe(id, ApplyFields(t.recipes[id], input));
    if input.ingredients.Some? && input.ingredients.value != [] then
      var t2 := t1.ClearComposition(id);
      if AllKnown(input.ingredients.value, t.ingredients) then t2.AppendRows(id, Portions(input.ingredients.value)) else t2
    else
      t1
  }

  method Update(db: Database, id: RecipeId, input: RecipeInput) returns (status: Status)
    requires id in db.recipes
    modifies db
    ensures db.State() == Updated(old(db.State()), id, input)
    ensures status == if input.ingredients.Some? && input.ingredients.value != [] && !AllKnown(input.ingredients.value, old(db.ingredients))
                      then NotFound404 else Ok200
  {
    db.recipes := db.recipes[id := ApplyFields(db.recipes[id], input)];
    status := Ok200;
    if input.ingredients.Some? && input.ingredients.value != [] {
      db.rows := RowsSurviving(db.rows, {id}, {});
      var found := CreateIngredients(db, id, input.ingredients.value);
      if !found {
        status := NotFound404;
      }
    }
  }

  lemma AcceptedItems(input: RecipeInput, updating: bool, limits: Limits)
    requires Validate(input, updating, limits).None? && input.ingredients.Some?
    ensures NoDup(IngredientIds(Portions(input.ingredients.value)))
    ensures forall p :: p in Portions(input.ingredients.value) ==> p.amount >= 1
  {
    IngredientIdsOfPortions(input.ingredients.value);
  }

  /**
   * A create whose ids all exist keeps the store valid and gives the new
   * recipe exactly the submitted composition.
   */
  lemma CreateEffect(t: Tables, author: UserId, input: RecipeInput, limits: Limits, now: int)
    requires t.Valid() && author in t.users
    requires Validate(input, false, limits).None?
    requires AllKnown(input.ingredients.value, t.ingredients)
    ensures Created(t, author, input, now).Valid()
    ensures Created(t, author, input, now).recipes[t.nextRecipeId].author == author
    ensures Composition(Created(t, author, input, now).rows, t.nextRecipeId) == Portions(input.ingredients.value)
    ensures AmountsAtLeast(t.rows, 1) ==> AmountsAtLeast(Created(t, author, input, now).rows, 1)
  {
    AcceptedItems(input, false, limits);
    CreateRecipeValid(t, NewRecipe(author, input, now), Portions(input.ingredients.value));
  }

  /** Without a non-empty list an update writes the scalars only; every composition is kept. */
  lemma UpdateWithoutList(t: Tables, id: RecipeId, input: RecipeInput)
    requires id in t.recipes
    requires input.ingredients.None? || input.ingredients.value == []
    ensures Updated(t, id, input).rows == t.rows
    ensures Updated(t, id, input).recipes == t.recipes[id := ApplyFields(t.recipes[id], input)]
  {
  }

  /** With a non-empty list of existing ids, the old rows are replaced by exactly the new list. */
  lemma UpdateWithList(t: Tables, id: RecipeId, input: RecipeInput, limits: Limits)
    requires t.Valid() && id in t.recipes
    requires Validate(input, true, limits).None? && input.ingredients.Some?
    requires AllKnown(input.ingredients.value, t.ingredients)
    ensures Updated(t, id, input).Valid()
    ensures Composition(Updated(t, id, input).rows, id) == Portions(input.ingredients.value)
    ensures forall other :: other != id ==> Composition(Updated(t, id, input).rows, other) == Composition(t.rows, other)
  {
    AcceptedItems(input, true, limits);
    var t1 := t.SetRecipe(id, ApplyFields(t.recipes[id], input));
    ReplaceCompositionValid(t1, id, Portions(input.ingredients.value));
  }

  // ---- as written: a 404 that still changed the store ----

  /**
   * A validated create naming an unknown ingredient answers 404 yet
   * leaves a new recipe with no ingredients in the store.
   */
  lemma CreateUnknownIngredientLeavesRecipe(t: Tables, author: UserId, input: RecipeInput, limits: Limits, now: int)
    requires t.Valid() && author in t.users
    requires Validate(input, false, limits).None?
    requires !AllKnown(input.ingredients.value, t.ingredients)
    ensures Created(t, author, input, now).Valid()
    ensures t.nextRecipeId !in t.recipes && t.nextRecipeId in Created(t, author, input, now).recipes
    ensures Composition(Created(t, author, input, now).rows, t.nextRecipeId) == []
  {
    InsertRecipeValid(t, NewRecipe(author, input, now));
  }

  /** The smallest instance: one user, a create naming ingredient 7 of an empty ingredient table. */
  lemma CreateUnknownIngredientExample()
    ensures var t := Empty.(users := map[1 := User("a@example.org", "a")]);
      var input := RecipeInput(Some("Soup"), Some("Boil."), Some(10), Some([Item(7, 1)]));
      && Validate(input, false, Limits(1, 1, 32000)).None?
      && !AllKnown(input.ingredients.value, t.ingredients)
      && Created(t, 1, input, 0).recipes.Keys == {0}
      && Created(t, 1, input, 0) != t
  {
    var input := RecipeInput(Some("Soup"), Some("Boil."), Some(10), Some([Item(7, 1)]));
    assert ItemIds(input.ingredients.value) == [7];
    assert !AllKnown(input.ingredients.value, map[]);
  }

  /**
   * A validated update naming an unknown ingredient answers 404 yet has
   * already deleted the recipe's composition.
   */
  lemma UpdateUnknownIngredientEmptiesRecipe(t: Tables, id: RecipeId, input: RecipeInput)
    requires id in t.recipes && input.ingredients.Some? && input.ingredients.value != []
    requires !AllKnown(input.ingredients.value, t.ingredients)
    ensures Composition(Updated(t, id, input).rows, id) == []
    ensures forall other :: other != id ==> Composition(Updated(t, id, input).rows, other) == Composition(t.rows, other)
  {
    forall other
      ensures Composition(Updated(t, id, input).rows, other) == if other == id then [] else Composition(t.rows, other)
    {
      CompositionAfterClear(t.rows, id, other);
    }
  }

  // ---- corrected: resolve every id before writing anything ----

  /** `create` with the ids resolved first: an unknown id answers 404 and writes nothing. */
  function CreatedChecked(t: Tables, author: UserId, input: RecipeInput, now: int): (Tables, Status)
    requires input.name.Some? && input.text.Some? && input.cookingTime.Some? && input.ingredients.Some?
  {
    if AllKnown(input.ingredients.value, t.ingredients) then (Created(t, author, input, now), Created201)
    else (t, NotFound404)
  }

  /** `update` with the ids resolved first: an unknown id answers 404 and writes nothing. */
  function UpdatedChecked(t: Tables, id: RecipeId, input: RecipeInput): (Tables, Status)
    requires id in t.recipes
  {
    if input.ingredients.Some? && input.ingredients.value != [] && !AllKnown(input.ingredients.value, t.ingredients)
    then (t, NotFound404)
    else (Updated(t, id, input), Ok200)
  }

  /**
   * The corrected operations fail before they mutate: a 404 leaves the
   * store as it was, and a success keeps it valid with the submitted
   * composition in place.
   */
  lemma CheckedCreateAtomic(t: Tables, author: UserId, input: RecipeInput, limits: Limits, now: int)
    requires t.Valid() && author in t.users
    requires Validate(input, false, limits).None?
    ensures CreatedChecked(t, author, input, now).1 == NotFound404 ==> CreatedChecked(t, author, input, now).0 == t
    ensures CreatedChecked(t, author, input, now).1 == Created201 ==>
      && CreatedChecked(t, author, input, now).0.Valid()
      && Composition(CreatedChecked(t, author, input, now).0.rows, t.nextRecipeId) == Portions(input.ingredients.value)
  {
    if AllKnown(input.ingredients.value, t.ingredients) {
      CreateEffect(t, author, input, limits, now);
    }
  }

  lemma CheckedUpdateAtomic(t: Tables, id: RecipeId, input: RecipeInput, limits: Limits)
    requires t.Valid() && id in t.recipes
    requires Validate(input, true, limits).None?
    ensures UpdatedChecked(t, id, input).1 == NotFound404 ==> UpdatedChecked(t, id, input).0 == t
    ensures UpdatedChecked(t, id, input).1 == Ok200 ==>
      && UpdatedChecked(t, id, input).0.Valid()
      && (input.ingredients.Some? && input.ingredients.value != [] ==>
            Composition(UpdatedChecked(t, id, input).0.rows, id) == Portions(input.ingredients.value))
      && (input.ingredients.None? ==> UpdatedChecked(t, id, input).0.rows == t.rows)
  {
    if input.ingredients.Some? && input.ingredients.value != [] {
      if AllKnown(input.ingredients.value, t.ingredients) {
        UpdateWithList(t, id, input, limits);
      }
    }
  }
}
