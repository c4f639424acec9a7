/**
 * The recipe tables of backend/recipes/models.py: ingredients (unique by
 * name and unit), recipes, the rows of a recipe's composition
 * (IngredientInRecipe, unique per recipe and ingredient) and the two
 * user-to-recipe relations Favorite and ShoppingCart (unique per pair),
 * with the rows each cascade removes and the default orderings.
 */
module RecipesModels {
  import opened Collections
  import opened Text
  import opened Sorting
  import opened UsersModels

  type IngredientId = int
  type RecipeId = int

  datatype Ingredient = Ingredient(name: string, unit: string)

  /** A Recipe row; `pubDate` is set once, when the row is created (`auto_now_add`). */
  datatype Recipe = Recipe(author: UserId, name: string, text: string, cookingTime: int, pubDate: int)

  /** An IngredientInRecipe row. */
  datatype Row = Row(recipe: RecipeId, ingredient: IngredientId, amount: int)

  /** One (ingredient, amount) entry of a composition. */
  datatype Portion = Portion(ingredient: IngredientId, amount: int)

  /** A Favorite or ShoppingCart row (the abstract UserRecipeRelation). */
  datatype UserRecipe = UserRecipe(user: UserId, recipe: RecipeId)

  /** The two concrete UserRecipeRelation models. */
  datatype Relation = Favorite | ShoppingCart

  /** `unique_ingredient_unit`: no two ingredients share both name and unit. */
  ghost predicate UniqueIngredients(ingredients: map<IngredientId, Ingredient>)
  {
    forall a, b :: a in ingredients && b in ingredients && a != b ==> ingredients[a] != ingredients[b]
  }

  /** No row of `rows` is for this (recipe, ingredient) pair. */
  predicate KeyAbsent(rows: seq<Row>, recipe: RecipeId, ingredient: IngredientId)
  {
    forall row :: row in rows ==> row.recipe != recipe || row.ingredient != ingredient
  }

  /** `unique_ingredient_in_recipe`: an ingredient occurs at most once per recipe. */
  predicate UniqueRows(rows: seq<Row>)
  {
    rows == [] || (KeyAbsent(rows[1..], rows[0].recipe, rows[0].ingredient) && UniqueRows(rows[1..]))
  }

  /** The rows left once the recipes and ingredients in the two sets are deleted (`on_delete=CASCADE`). */
  function RowsSurviving(rows: seq<Row>, goneRecipes: set<RecipeId>, goneIngredients: set<IngredientId>): (r: seq<Row>)
    ensures forall row :: row in r <==> row in rows && row.recipe !in goneRecipes && row.ingredient !in goneIngredients
  {
    if rows == [] then []
    else if rows[0].recipe !in goneRecipes && rows[0].ingredient !in goneIngredients then
      [rows[0]] + RowsSurviving(rows[1..], goneRecipes, goneIngredients)
    else
      RowsSurviving(rows[1..], goneRecipes, goneIngredients)
  }

  /** The rows `bulk_create` writes for a composition: one per portion, in order. */
  function NewRows(recipe: RecipeId, portions: seq<Portion>): (r: seq<Row>)
    ensures |r| == |portions|
    ensures forall i :: 0 <= i < |r| ==> r[i] == Row(recipe, portions[i].ingredient, portions[i].amount)
  {
    if portions == [] then []
    else [Row(recipe, portions[0].ingredient, portions[0].amount)] + NewRows(recipe, portions[1..])
  }

  /** The composition of `recipe`: its rows' (ingredient, amount) pairs, in table order. */
  function Composition(rows: seq<Row>, recipe: RecipeId): seq<Portion>
  {
    if rows == [] then []
    else if rows[0].recipe == recipe then
      [Portion(rows[0].ingredient, rows[0].amount)] + Composition(rows[1..], recipe)
    else
      Composition(rows[1..], recipe)
  }

  function IngredientIds(portions: seq<Portion>): (ids: seq<IngredientId>)
    ensures |ids| == |portions|
    ensures forall i :: 0 <= i < |ids| ==> ids[i] == portions[i].ingredient
  {
    if portions == [] then [] else [portions[0].ingredient] + IngredientIds(portions[1..])
  }

  /** Both relations hold at most one row per (user, recipe); the cascade keeps that. */
  function LinksSurviving(links: seq<UserRecipe>, goneUsers: set<UserId>, goneRecipes: set<RecipeId>): (r: seq<UserRecipe>)
    ensures forall l :: l in r <==> l in links && l.user !in goneUsers && l.recipe !in goneRecipes
  {
    if links == [] then []
    else if links[0].user !in goneUsers && links[0].recipe !in goneRecipes then
      [links[0]] + LinksSurviving(links[1..], goneUsers, goneRecipes)
    else
      LinksSurviving(links[1..], goneUsers, goneRecipes)
  }

  lemma {:induction false} LinksSurvivingUnique(links: seq<UserRecipe>, goneUsers: set<UserId>, goneRecipes: set<RecipeId>)
    requires NoDup(links)
    ensures NoDup(LinksSurviving(links, goneUsers, goneRecipes))
  {
    if links != [] {
      var rest := LinksSurviving(links[1..], goneUsers, goneRecipes);
      LinksSurvivingUnique(links[1..], goneUsers, goneRecipes);
      if links[0].user !in goneUsers && links[0].recipe !in goneRecipes {
        var r := [links[0]] + rest;
        assert r[0] == links[0] && r[1..] == rest;
        assert links[0] !in rest;
      }
    }
  }

  /** Deleting recipes or ingredients keeps "one row per (recipe, ingredient)". */
  lemma {:induction false} RowsSurvivingUnique(rows: seq<Row>, goneRecipes: set<RecipeId>, goneIngredients: set<IngredientId>)
    requires UniqueRows(rows)
    ensures UniqueRows(RowsSurviving(rows, goneRecipes, goneIngredients))
  {
    if rows != [] {
      var rest := RowsSurviving(rows[1..], goneRecipes, goneIngredients);
      RowsSurvivingUnique(rows[1..], goneRecipes, goneIngredients);
      if rows[0].recipe !in goneRecipes && rows[0].ingredient !in goneIngredients {
        var r := [rows[0]] + rest;
        assert r[0] == rows[0] && r[1..] == rest;
        assert KeyAbsent(rest, rows[0].recipe, rows[0].ingredient);
      }
    }
  }

  /** A fresh composition has a row for `x` exactly when `x` is among its ingredient ids. */
  lemma NewRowsKey(recipe: RecipeId, portions: seq<Portion>, x: IngredientId)
    ensures KeyAbsent(NewRows(recipe, portions), recipe, x) <==> x !in IngredientIds(portions)
  {
    var r := NewRows(recipe, portions);
    var ids := IngredientIds(portions);
    if x in ids {
      var k :| 0 <= k < |ids| && ids[k] == x;
      assert r[k] in r;
    }
    if !KeyAbsent(r, recipe, x) {
      var row :| row in r && row.recipe == recipe && row.ingredient == x;
      var k :| 0 <= k < |r| && r[k] == row;
      assert ids[k] == x;
    }
  }

  /** Rows of a fresh composition are unique exactly when its ingredient ids do not repeat. */
  lemma {:induction false} NewRowsUnique(recipe: RecipeId, portions: seq<Portion>)
    ensures UniqueRows(NewRows(recipe, portions)) <==> NoDup(IngredientIds(portions))
  {
    if portions != [] {
      var r := NewRows(recipe, portions);
      var ids := IngredientIds(portions);
      NewRowsUnique(recipe, portions[1..]);
      assert r[1..] == NewRows(recipe, portions[1..]);
      assert ids[1..] == IngredientIds(portions[1..]);
      NewRowsKey(recipe, portions[1..], ids[0]);
      assert r[0].recipe == recipe && r[0].ingredient == ids[0];
    }
  }

  /** Appending rows keeps uniqueness when no appended key is already present. */
  lemma {:induction false} UniqueRowsAppend(a: seq<Row>, b: seq<Row>)
    requires UniqueRows(a) && UniqueRows(b)
    requires forall row :: row in b ==> KeyAbsent(a, row.recipe, row.ingredient)
    ensures UniqueRows(a + b)
  {
    if a != [] {
      UniqueRowsAppend(a[1..], b);
      assert (a + b)[0] == a[0] && (a + b)[1..] == a[1..] + b;
      forall row | row in a[1..] + b
        ensures row.recipe != a[0].recipe || row.ingredient != a[0].ingredient
      {
        if row in b {
          assert a[0] in a;
        }
      }
    } else {
      assert a + b == b;
    }
  }

  lemma {:induction false} CompositionAppend(a: seq<Row>, b: seq<Row>, recipe: RecipeId)
    ensures Composition(a + b, recipe) == Composition(a, recipe) + Composition(b, recipe)
  {
    if a == [] {
      assert a + b == b;
    } else {
      assert (a + b)[0] == a[0] && (a + b)[1..] == a[1..] + b;
      CompositionAppend(a[1..], b, recipe);
    }
  }

  /** The rows written for a composition make up exactly that composition, and no other recipe's. */
  lemma {:induction false} CompositionOfNewRows(recipe: RecipeId, portions: seq<Portion>, other: RecipeId)
    ensures Composition(NewRows(recipe, portions), recipe) == portions
    ensures other != recipe ==> Composition(NewRows(recipe, portions), other) == []
  {
    if portions != [] {
      CompositionOfNewRows(recipe, portions[1..], other);
      assert NewRows(recipe, portions)[1..] == NewRows(recipe, portions[1..]);
    }
  }

  /** Deleting a recipe's rows empties its composition and leaves every other recipe's alone. */
  lemma {:induction false} CompositionAfterClear(rows: seq<Row>, recipe: RecipeId, other: RecipeId)
    ensures Composition(RowsSurviving(rows, {recipe}, {}), recipe) == []
    ensures other != recipe ==> Composition(RowsSurviving(rows, {recipe}, {}), other) == Composition(rows, other)
  {
    if rows != [] {
      CompositionAfterClear(rows[1..], recipe, other);
    }
  }

  /** A recipe none of whose rows is in the table has an empty composition. */
  lemma {:induction false} CompositionWithoutRows(rows: seq<Row>, recipe: RecipeId)
    requires forall row :: row in rows ==> row.recipe != recipe
    ensures Composition(rows, recipe) == []
  {
    if rows != [] {
      assert rows[0] in rows;
      CompositionWithoutRows(rows[1..], recipe);
    }
  }

  /** Deleting rows distributes over concatenation. */
  lemma {:induction false} RowsSurvivingAppend(a: seq<Row>, b: seq<Row>, goneRecipes: set<RecipeId>, goneIngredients: set<IngredientId>)
    ensures RowsSurviving(a + b, goneRecipes, goneIngredients)
         == RowsSurviving(a, goneRecipes, goneIngredients) + RowsSurviving(b, goneRecipes, goneIngredients)
  {
    if a == [] {
      assert a + b == b;
    } else {
      assert (a + b)[0] == a[0] && (a + b)[1..] == a[1..] + b;
      RowsSurvivingAppend(a[1..], b, goneRecipes, goneIngredients);
    }
  }

  /** Rows none of which is deleted all survive, in order. */
  lemma {:induction false} RowsSurvivingNone(rows: seq<Row>, goneRecipes: set<RecipeId>, goneIngredients: set<IngredientId>)
    requires forall row :: row in rows ==> row.recipe !in goneRecipes && row.ingredient !in goneIngredients
    ensures RowsSurviving(rows, goneRecipes, goneIngredients) == rows
  {
    if rows != [] {
      assert rows[0] in rows;
      RowsSurvivingNone(rows[1..], goneRecipes, goneIngredients);
    }
  }

  /** Every amount of the table lies in [lo, hi]. */
  predicate AmountsWithin(rows: seq<Row>, lo: int, hi: int)
  {
    forall row :: row in rows ==> lo <= row.amount <= hi
  }

  /** Every amount of the table is at least `lo`. */
  predicate AmountsAtLeast(rows: seq<Row>, lo: int)
  {
    forall row :: row in rows ==> lo <= row.amount
  }

  /** Rows written from portions within [lo, hi] keep a table's amounts within [lo, hi]. */
  lemma AmountsWithinAppend(rows: seq<Row>, recipe: RecipeId, portions: seq<Portion>, lo: int, hi: int)
    requires forall p :: p in portions ==> lo <= p.amount <= hi
    ensures AmountsWithin(rows, lo, hi) ==> AmountsWithin(rows + NewRows(recipe, portions), lo, hi)
  {
    var added := NewRows(recipe, portions);
    forall row | row in added
      ensures lo <= row.amount <= hi
    {
      var k :| 0 <= k < |added| && added[k] == row;
      assert portions[k] in portions;
    }
  }

  // ---- default orderings ----

  predicate NewestFirst(a: (RecipeId, Recipe), b: (RecipeId, Recipe))
  {
    a.1.pubDate >= b.1.pubDate
  }

  predicate IngredientNameLe(a: (IngredientId, Ingredient), b: (IngredientId, Ingredient))
  {
    StrLe(a.1.name, b.1.name)
  }

  lemma IngredientNameLeIsPreorder()
    ensures TotalPreorder(IngredientNameLe)
  {
    forall a: (IngredientId, Ingredient), b: (IngredientId, Ingredient)
      ensures IngredientNameLe(a, b) || IngredientNameLe(b, a)
    {
      StrLeTotal(a.1.name, b.1.name);
    }
    forall a: (IngredientId, Ingredient), b: (IngredientId, Ingredient), c: (IngredientId, Ingredient)
      | IngredientNameLe(a, b) && IngredientNameLe(b, c)
      ensures IngredientNameLe(a, c)
    {
      StrLeTransitive(a.1.name, b.1.name, c.1.name);
    }
  }

  /** Recipe `ordering = ['-pub_date']`: the listing is the table, newest first. */
  function OrderNewestFirst(recipes: seq<(RecipeId, Recipe)>): (r: seq<(RecipeId, Recipe)>)
    ensures multiset(r) == multiset(recipes)
    ensures forall i, j :: 0 <= i < j < |r| ==> r[i].1.pubDate >= r[j].1.pubDate
  {
    SortSorted(recipes, NewestFirst);
    Sort(recipes, NewestFirst)
  }

  /** Ingredient `ordering = ['name']`: the ingredient listing comes out sorted by name. */
  function OrderByIngredientName(entries: seq<(IngredientId, Ingredient)>): (r: seq<(IngredientId, Ingredient)>)
    ensures multiset(r) == multiset(entries)
    ensures forall i, j :: 0 <= i < j < |r| ==> StrLe(r[i].1.name, r[j].1.name)
  {
    IngredientNameLeIsPreorder();
    SortSorted(entries, IngredientNameLe);
    Sort(entries, IngredientNameLe)
  }

  /** The name of a row's ingredient (a row of a valid store always has one). */
  function IngredientName(ingredients: map<IngredientId, Ingredient>, id: IngredientId): string
  {
    if id in ingredients then ingredients[id].name else ""
  }

  predicate RowNameLe(ingredients: map<IngredientId, Ingredient>, a: Row, b: Row)
  {
    StrLe(IngredientName(ingredients, a.ingredient), IngredientName(ingredients, b.ingredient))
  }

  lemma RowNameLeIsPreorder(ingredients: map<IngredientId, Ingredient>)
    ensures TotalPreorder((a: Row, b: Row) => RowNameLe(ingredients, a, b))
  {
    var le := (a: Row, b: Row) => RowNameLe(ingredients, a, b);
    forall a: Row, b: Row ensures le(a, b) || le(b, a) {
      StrLeTotal(IngredientName(ingredients, a.ingredient), IngredientName(ingredients, b.ingredient));
    }
    forall a: Row, b: Row, c: Row | le(a, b) && le(b, c)
      ensures le(a, c)
    {
      StrLeTransitive(IngredientName(ingredients, a.ingredient), IngredientName(ingredients, b.ingredient),
                      IngredientName(ingredients, c.ingredient));
    }
  }

  /**
   * IngredientInRecipe `ordering = ['ingredient__name']`: a recipe's rows,
   * amounts included, listed by the name of their ingredient.
   */
  function OrderRowsByIngredientName(rows: seq<Row>, ingredients: map<IngredientId, Ingredient>): (r: seq<Row>)
    ensures multiset(r) == multiset(rows)
    ensures forall i, j :: 0 <= i < j < |r| ==>
      StrLe(IngredientName(ingredients, r[i].ingredient), IngredientName(ingredients, r[j].ingredient))
  {
    var le := (a: Row, b: Row) => RowNameLe(ingredients, a, b);
    RowNameLeIsPreorder(ingredients);
    SortSorted(rows, le);
    Sort(rows, le)
  }
}
