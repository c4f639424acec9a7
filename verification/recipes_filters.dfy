/**
 * backend/recipes/filters.py: the ingredient search by name prefix and the
 * recipe list's `author`, `is_favorited` and `is_in_shopping_cart`
 * filters. A queryset is the sequence of ids it yields. An empty or absent
 * filter value leaves the queryset as it is.
 */
module RecipesFilters {
  import opened Collections
  import opened Text
  import opened UsersModels
  import opened RecipesModels
  import opened Store
  import opened Requests
  import opened ReadFlags

  /** `name__istartswith`: the ingredients whose name starts with `prefix`, letter case ignored. */
  function NameStartsWith(ingredients: seq<(IngredientId, Ingredient)>, prefix: string): (r: seq<(IngredientId, Ingredient)>)
    ensures |r| <= |ingredients|
    ensures forall x :: x in r <==> x in ingredients && IStartsWith(x.1.name, prefix)
  {
    if ingredients == [] then []
    else
      (if IStartsWith(ingredients[0].1.name, prefix) then [ingredients[0]] else [])
      + NameStartsWith(ingredients[1..], prefix)
  }

  /**
   * `IngredientFilter`: the form field trims the value; no value, or one
   * that is blank once trimmed, keeps every ingredient.
   */
  function IngredientFilter(ingredients: seq<(IngredientId, Ingredient)>, name: Option<string>): (r: seq<(IngredientId, Ingredient)>)
    ensures name.None? || Strip(name.value) == "" ==> r == ingredients
    ensures name.Some? && Strip(name.value) != "" ==>
      forall x :: x in r <==> x in ingredients && IStartsWith(x.1.name, Strip(name.value))
  {
    if name.None? || Strip(name.value) == "" then ingredients else NameStartsWith(ingredients, Strip(name.value))
  }

  /** Typing the prefix in capitals finds the same ingredients. */
  lemma {:induction false} IngredientFilterIgnoresCase(ingredients: seq<(IngredientId, Ingredient)>, prefix: string)
    ensures IngredientFilter(ingredients, Some(Upper(prefix))) == IngredientFilter(ingredients, Some(prefix))
  {
    var p := Strip(prefix);
    StripUpper(prefix);
    LowerOfUpper(p);
    if p != "" {
      NameStartsWithSameFold(ingredients, Upper(p), p);
    }
  }

  lemma {:induction false} NameStartsWithSameFold(ingredients: seq<(IngredientId, Ingredient)>, p: string, q: string)
    requires |p| == |q| && Lower(p) == Lower(q)
    ensures NameStartsWith(ingredients, p) == NameStartsWith(ingredients, q)
  {
    if ingredients != [] {
      NameStartsWithSameFold(ingredients[1..], p, q);
    }
  }

  /**
   * `queryset.filter(<relation>__user=user)`: a join, so each recipe
   * appears once per matching row of the relation.
   */
  function JoinRelated(queryset: seq<RecipeId>, links: seq<UserRecipe>, user: UserId): (r: seq<RecipeId>)
    ensures forall x :: x in r <==> x in queryset && UserRecipe(user, x) in links
  {
    if queryset == [] then []
    else
      var x := queryset[0];
      var n := Count(links, UserRecipe(user, x));
      Repeat(x, n) + JoinRelated(queryset[1..], links, user)
  }

  /** Reference selection: the recipes of the queryset related to `user`, each once, in order. */
  function KeepRelated(queryset: seq<RecipeId>, links: seq<UserRecipe>, user: UserId): seq<RecipeId>
  {
    if queryset == [] then []
    else
      (if UserRecipe(user, queryset[0]) in links then [queryset[0]] else [])
      + KeepRelated(queryset[1..], links, user)
  }

  /** With at most one row per (user, recipe), the join duplicates nothing. */
  lemma {:induction false} JoinKeepsEachOnce(queryset: seq<RecipeId>, links: seq<UserRecipe>, user: UserId)
    requires NoDup(links)
    ensures JoinRelated(queryset, links, user) == KeepRelated(queryset, links, user)
  {
    if queryset != [] {
      var x := queryset[0];
      NoDupCount(links, UserRecipe(user, x));
      JoinKeepsEachOnce(queryset[1..], links, user);
    }
  }

  /**
   * The body shared by `filter_is_favorited` and `filter_is_in_shopping_cart`:
   * a true value from a signed-in user keeps the recipes related to that
   * user; anything else returns the queryset unchanged.
   */
  function FilterByRelation(t: Tables, queryset: seq<RecipeId>, value: bool, requester: Requester, relation: Relation): (r: seq<RecipeId>)
    ensures forall x :: x in r ==> x in queryset
    ensures !(value && requester.Authenticated?) ==> r == queryset
    ensures value && requester.Authenticated? ==>
      forall x :: x in r <==> x in queryset && IsRelated(t, requester, relation, x)
  {
    if value && requester.Authenticated? then JoinRelated(queryset, t.Links(relation), requester.id) else queryset
  }

  function FilterIsFavorited(t: Tables, queryset: seq<RecipeId>, value: bool, requester: Requester): seq<RecipeId>
  {
    FilterByRelation(t, queryset, value, requester, Favorite)
  }

  function FilterIsInShoppingCart(t: Tables, queryset: seq<RecipeId>, value: bool, requester: Requester): seq<RecipeId>
  {
    FilterByRelation(t, queryset, value, requester, ShoppingCart)
  }

  /**
   * django-filter's dispatch of a `method=` filter as the source meets it.
   * A `BooleanFilter` value is None when the parameter is absent or is not
   * a boolean, and the queryset is then returned untouched. Any boolean,
   * true or false, is passed on as `method(queryset, field_name, value)`.
   * That is one argument more than `filter_is_favorited(self, queryset,
   * value)` and `filter_is_in_shopping_cart` accept, so the call raises
   * TypeError, a 500 answer, here None.
   */
  function DispatchAsWritten(queryset: seq<RecipeId>, value: Option<bool>): Option<seq<RecipeId>>
  {
    if value.None? then Some(queryset) else None
  }

  /** As written, every boolean value makes the relation filters fail, `?is_favorited=0` included. */
  lemma AsWrittenFailsOnAnyValue(queryset: seq<RecipeId>, value: Option<bool>)
    ensures DispatchAsWritten(queryset, value).None? <==> value.Some?
    ensures value.None? ==> DispatchAsWritten(queryset, value) == Some(queryset)
  {
  }

  /**
   * The dispatch once the methods take the field name,
   * `(self, queryset, name, value)`: no value keeps the queryset, and a
   * value runs the method body.
   */
  function DispatchCorrected(t: Tables, queryset: seq<RecipeId>, value: Option<bool>, requester: Requester, relation: Relation): (r: seq<RecipeId>)
    ensures forall x :: x in r ==> x in queryset
    ensures value != Some(true) || requester.Anonymous? ==> r == queryset
    ensures value == Some(true) && requester.Authenticated? ==>
      forall x :: x in r <==> x in queryset && IsRelated(t, requester, relation, x)
  {
    if value.None? then queryset else FilterByRelation(t, queryset, value.value, requester, relation)
  }

  /**
   * `?is_favorited=1` from a signed-in user: the written filter fails, the
   * corrected one answers with exactly the related recipes.
   */
  lemma CorrectedFilterAnswers(t: Tables, queryset: seq<RecipeId>, user: UserId, relation: Relation)
    requires t.Valid()
    ensures DispatchAsWritten(queryset, Some(true)).None?
    ensures DispatchCorrected(t, queryset, Some(true), Authenticated(user), relation) == KeepRelated(queryset, t.Links(relation), user)
  {
    FilterByRelationInValidStore(t, queryset, user, relation);
  }

  /**
   * In a valid store the filters keep each selected recipe once, in the
   * queryset's order: exactly the related recipes.
   */
  lemma FilterByRelationInValidStore(t: Tables, queryset: seq<RecipeId>, user: UserId, relation: Relation)
    requires t.Valid()
    ensures FilterByRelation(t, queryset, true, Authenticated(user), relation) == KeepRelated(queryset, t.Links(relation), user)
  {
    JoinKeepsEachOnce(queryset, t.Links(relation), user);
  }

  /** Applying a relation filter twice gives the same list as applying it once. */
  lemma {:induction false} KeepRelatedIdempotent(queryset: seq<RecipeId>, links: seq<UserRecipe>, user: UserId)
    ensures KeepRelated(KeepRelated(queryset, links, user), links, user) == KeepRelated(queryset, links, user)
  {
    if queryset != [] {
      KeepRelatedIdempotent(queryset[1..], links, user);
      var rest := KeepRelated(queryset[1..], links, user);
      if UserRecipe(user, queryset[0]) in links {
        assert ([queryset[0]] + rest)[1..] == rest;
      } else {
        assert [] + rest == rest;
      }
    }
  }

  /** The recipes of the queryset written by `author`, in queryset order. */
  function KeepAuthored(t: Tables, queryset: seq<RecipeId>, author: UserId): (r: seq<RecipeId>)
    ensures forall x :: x in r <==> x in queryset && x in t.AuthoredBy(author)
  {
    if queryset == [] then []
    else
      (if queryset[0] in t.AuthoredBy(author) then [queryset[0]] else [])
      + KeepAuthored(t, queryset[1..], author)
  }

  /**
   * The `author` filter (a ModelChoiceFilter over users): no value keeps
   * all; an id naming no user makes the filter set invalid, a 400 answer
   * (None); otherwise the recipes of that user.
   */
  function FilterAuthor(t: Tables, queryset: seq<RecipeId>, author: Option<UserId>): (r: Option<seq<RecipeId>>)
    ensures author.None? ==> r == Some(queryset)
    ensures r.None? <==> author.Some? && author.value !in t.users
    ensures r.Some? && author.Some? ==>
      forall x :: x in r.value <==> x in queryset && x in t.AuthoredBy(author.value)
  {
    if author.None? then Some(queryset)
    else if author.value !in t.users then None
    else Some(KeepAuthored(t, queryset, author.value))
  }
}
