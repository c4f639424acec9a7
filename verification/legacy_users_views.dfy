/**
 * The older revision's `UserViewSet.subscribe`
 * (backend/foodgram/users/views.py): the same checks as the newer one on
 * POST, but DELETE looks the row up with `get_object_or_404`, so
 * unsubscribing from someone not followed answers 404.
 */
module LegacyUsersViews {
  import opened Collections
  import opened UsersModels
  import opened Store
  import opened Requests
  import opened RelationEndpoints

  method Subscribe(db: Database, verb: Method, user: UserId, author: UserId) returns (reply: Reply)
    modifies db
    ensures (db.State(), reply) == SubscribeResult(old(db.State()), verb, user, author, NotFound)
  {
    if author !in db.users {
      return NotFound;
    }
    var s := Subscription(user, author);
    match verb {
      case Post =>
        if user == author {
          return BadRequest(CannotSubscribeToSelf);
        }
        if s in db.subscriptions {
          return BadRequest(AlreadySubscribed);
        }
        db.subscriptions := db.subscriptions + [s];
        reply := Created;
      case Delete =>
        if s !in db.subscriptions {
          return NotFound;
        }
        db.subscriptions := Remove(db.subscriptions, s);
        reply := Deleted;
    }
  }
}
