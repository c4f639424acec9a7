/**
 * The older revision's recipe views (backend/foodgram/recipes/views.py):
 * the same `add_to`, a `delete_from` that looks the pair up with
 * `get_object_or_404` (so an absent pair answers 404), the `favorite` and
 * `shopping_cart` dispatchers, and `download_shopping_cart` whose line
 * separator is the mis-encoded three-character literal.
 */
module LegacyRecipesViews {
  import opened Collections
  import opened UsersModels
  import opened RecipesModels
  import opened Store
  import opened Requests
  import opened ReadFlags
  import opened RelationEndpoints
  import opened ShoppingList

  /** `delete_from`: 404 for a missing recipe or a missing pair, else the pair is deleted (204). */
  method DeleteFrom(db: Database, relation: Relation, user: UserId, recipe: RecipeId) returns (reply: Reply)
    modifies db
    ensures (db.State(), reply) == DeleteFromResult(old(db.State()), relation, user, recipe, NotFound)
  {
    if recipe !in db.recipes {
      return NotFound;
    }
    var link := UserRecipe(user, recipe);
    match relation {
      case Favorite =>
        if link !in db.favorites {
          return NotFound;
        }
        db.favorites := Remove(db.favorites, link);
      case ShoppingCart =>
        if link !in db.carts {
          return NotFound;
        }
        db.carts := Remove(db.carts, link);
    }
    reply := Deleted;
  }

  /**
   * Removal in this revision answers only 404 or 204: 404 exactly when
   * the recipe or the pair is missing, and then nothing changes; 204
   * deletes exactly that pair and clears the flag.
   */
  lemma RemovalOutcome(t: Tables, relation: Relation, user: UserId, recipe: RecipeId)
    requires t.Valid()
    ensures var r := DeleteFromResult(t, relation, user, recipe, NotFound);
      && r.0.Valid()
      && (r.1 == NotFound || r.1 == Deleted)
      && (r.1 == NotFound <==> recipe !in t.recipes || !IsRelated(t, Authenticated(user), relation, recipe))
      && (r.1 == NotFound ==> r.0 == t)
      && (r.1 == Deleted ==>
            && !IsRelated(r.0, Authenticated(user), relation, recipe)
            && (forall l :: l in r.0.Links(relation) <==> l in t.Links(relation) && l != UserRecipe(user, recipe)))
      && (forall other :: other != relation ==> r.0.Links(other) == t.Links(other))
  {
    RemoveLinkValid(t, relation, UserRecipe(user, recipe));
  }

  /** The `favorite` action: POST adds, any other method removes. */
  method Favorite(db: Database, verb: Method, user: UserId, recipe: RecipeId) returns (reply: Reply)
    modifies db
    ensures verb == Post ==> (db.State(), reply) == AddToResult(old(db.State()), Relation.Favorite, user, recipe)
    ensures verb != Post ==> (db.State(), reply) == DeleteFromResult(old(db.State()), Relation.Favorite, user, recipe, NotFound)
  {
    if verb == Post {
      reply := AddTo(db, Relation.Favorite, user, recipe);
    } else {
      reply := DeleteFrom(db, Relation.Favorite, user, recipe);
    }
  }

  /** The `shopping_cart` action: POST adds, any other method removes. */
  method ShoppingCart(db: Database, verb: Method, user: UserId, recipe: RecipeId) returns (reply: Reply)
    modifies db
    ensures verb == Post ==> (db.State(), reply) == AddToResult(old(db.State()), Relation.ShoppingCart, user, recipe)
    ensures verb != Post ==> (db.State(), reply) == DeleteFromResult(old(db.State()), Relation.ShoppingCart, user, recipe, NotFound)
  {
    if verb == Post {
      reply := AddTo(db, Relation.ShoppingCart, user, recipe);
    } else {
      reply := DeleteFrom(db, Relation.ShoppingCart, user, recipe);
    }
  }

  /** `download_shopping_cart`: the same groups, rendered with the mis-encoded dash. */
  method DownloadShoppingCart(db: Database, user: UserId) returns (text: string)
    ensures text == Header + LinesText(ShoppingGroups(db.State(), user), MisencodedDash)
  {
    var groups := Group(CartEntries(db.rows, db.ingredients, db.carts, user));
    text := RenderShoppingList(groups, MisencodedDash);
  }

  /** The older list is two characters longer per line: its separator has three characters, the newer one one. */
  lemma {:induction false} RevisionsDifferInDashOnly(groups: seq<Entry>)
    ensures |LinesText(groups, MisencodedDash)| == |LinesText(groups, EmDash)| + 2 * |groups|
  {
    if groups != [] {
      RevisionsDifferInDashOnly(groups[..|groups| - 1]);
    }
  }
}
