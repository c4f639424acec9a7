/**
 * The state-changing views of backend/api/views.py: `add_to` and
 * `delete_from` behind the `favorite` and `shopping_cart` actions,
 * `UserViewSet.subscribe`, and `download_shopping_cart`. In this revision
 * removing a pair that is not there answers 400.
 */
module ApiViews {
  import opened Collections
  import opened UsersModels
  import opened RecipesModels
  import opened Store
  import opened Requests
  import opened RelationEndpoints
  import opened ShoppingList

  /** What removing an absent pair or subscription answers here. */
  const AbsentReply: Reply := BadRequest(NotInList)

  /** `delete_from`: look the recipe up (404), answer 400 for an absent pair, else delete it (204). */
  method DeleteFrom(db: Database, relation: Relation, user: UserId, recipe: RecipeId) returns (reply: Reply)
    modifies db
    ensures (db.State(), reply) == DeleteFromResult(old(db.State()), relation, user, recipe, AbsentReply)
  {
    if recipe !in db.recipes {
      return NotFound;
    }
    var link := UserRecipe(user, recipe);
    match relation {
      case Favorite =>
        if link !in db.favorites {
          return AbsentReply;
        }
        db.favorites := Remove(db.favorites, link);
      case ShoppingCart =>
        if link !in db.carts {
          return AbsentReply;
        }
        db.carts := Remove(db.carts, link);
    }
    reply := Deleted;
  }

  /** The `favorite` action: POST adds, DELETE removes. */
  method Favorite(db: Database, verb: Method, user: UserId, recipe: RecipeId) returns (reply: Reply)
    modifies db
    ensures verb == Post ==> (db.State(), reply) == AddToResult(old(db.State()), Relation.Favorite, user, recipe)
    ensures verb == Delete ==> (db.State(), reply) == DeleteFromResult(old(db.State()), Relation.Favorite, user, recipe, AbsentReply)
  {
    if verb == Post {
      reply := AddTo(db, Relation.Favorite, user, recipe);
    } else {
      reply := DeleteFrom(db, Relation.Favorite, user, recipe);
    }
  }

  /** The `shopping_cart` action: POST adds, DELETE removes. */
  method ShoppingCart(db: Database, verb: Method, user: UserId, recipe: RecipeId) returns (reply: Reply)
    modifies db
    ensures verb == Post ==> (db.State(), reply) == AddToResult(old(db.State()), Relation.ShoppingCart, user, recipe)
    ensures verb == Delete ==> (db.State(), reply) == DeleteFromResult(old(db.State()), Relation.ShoppingCart, user, recipe, AbsentReply)
  {
    if verb == Post {
      reply := AddTo(db, Relation.ShoppingCart, user, recipe);
    } else {
      reply := DeleteFrom(db, Relation.ShoppingCart, user, recipe);
    }
  }

  /**
   * `UserViewSet.subscribe`: the author must exist (404); POST refuses
   * oneself, then an existing row, then inserts; DELETE answers 400 for a
   * missing row, else deletes it.
   */
  method Subscribe(db: Database, verb: Method, user: UserId, author: UserId) returns (reply: Reply)
    modifies db
    ensures (db.State(), reply) == SubscribeResult(old(db.State()), verb, user, author, AbsentReply)
  {
    if author !in db.users {
      return NotFound;
    }
    var s := Subscription(user, author);
    match verb
    case Post =>
      if user == author {
        return BadRequest(CannotSubscribeToSelf);
      }
      if s in db.subscriptions {
        return BadRequest(AlreadySubscribed);
      }
      db.subscriptions := db.subscriptions + [s];
      reply := Created;
    case Delete =>
      if s !in db.subscriptions {
        return AbsentReply;
      }
      db.subscriptions := Remove(db.subscriptions, s);
      reply := Deleted;
  }

  /** `download_shopping_cart`: the grouped rows of the user's cart, rendered with an em dash. */
  method DownloadShoppingCart(db: Database, user: UserId) returns (text: string)
    ensures text == Header + LinesText(ShoppingGroups(db.State(), user), EmDash)
  {
    var groups := Group(CartEntries(db.rows, db.ingredients, db.carts, user));
    text := RenderShoppingList(groups, EmDash);
  }
}
