/**
 * The relation endpoints both revisions share, as functions from the store
 * to the new store and the answer: `add_to` and `delete_from` for Favorite
 * and ShoppingCart, and `subscribe` for Subscription. The revisions differ
 * only in what removing an absent pair answers (400 in the newer one, 404
 * from `get_object_or_404` in the older one), so that answer is a parameter.
 */
module RelationEndpoints {
  import opened Collections
  import opened UsersModels
  import opened RecipesModels
  import opened Store
  import opened Requests
  import opened ReadFlags

  /** `add_to`: the recipe must exist (404); a present pair is refused (400); else it is inserted (201). */
  function AddToResult(t: Tables, relation: Relation, user: UserId, recipe: RecipeId): (Tables, Reply)
  {
    var link := UserRecipe(user, recipe);
    if recipe !in t.recipes then (t, NotFound)
    else if link in t.Links(relation) then (t, BadRequest(AlreadyAdded))
    else (t.AddLink(relation, link), Created)
  }

  /** `delete_from`: the recipe must exist (404); an absent pair gets `absent`; else it is deleted (204). */
  function DeleteFromResult(t: Tables, relation: Relation, user: UserId, recipe: RecipeId, absent: Reply): (Tables, Reply)
  {
    var link := UserRecipe(user, recipe);
    if recipe !in t.recipes then (t, NotFound)
    else if link !in t.Links(relation) then (t, absent)
    else (t.RemoveLink(relation, link), Deleted)
  }

  /**
   * `subscribe`: the author must exist (404). POST refuses the requester
   * themself before it looks for an existing row, refuses an existing row,
   * else inserts it (201). DELETE answers `absent` for a missing row,
   * else deletes it (204).
   */
  function SubscribeResult(t: Tables, verb: Method, user: UserId, author: UserId, absent: Reply): (Tables, Reply)
  {
    var s := Subscription(user, author);
    if author !in t.users then (t, NotFound)
    else match verb
      case Post =>
        if user == author then (t, BadRequest(CannotSubscribeToSelf))
        else if s in t.subscriptions then (t, BadRequest(AlreadySubscribed))
        else (t.AddSubscription(s), Created)
      case Delete =>
        if s !in t.subscriptions then (t, absent)
        else (t.RemoveSubscription(s), Deleted)
  }

  /**
   * Adding: 404 exactly for a missing recipe, 400 exactly when the flag
   * was already set, 201 otherwise; only a 201 changes the store, and
   * then it inserts exactly the one pair and sets the flag.
   */
  lemma AddToOutcome(t: Tables, relation: Relation, user: UserId, recipe: RecipeId)
    requires t.Valid() && user in t.users
    ensures var r := AddToResult(t, relation, user, recipe);
      && r.0.Valid()
      && (r.1 == NotFound <==> recipe !in t.recipes)
      && (r.1 == BadRequest(AlreadyAdded) <==> recipe in t.recipes && IsRelated(t, Authenticated(user), relation, recipe))
      && (r.1 == Created <==> recipe in t.recipes && !IsRelated(t, Authenticated(user), relation, recipe))
      && (r.1 != Created ==> r.0 == t)
      && (r.1 == Created ==>
            && IsRelated(r.0, Authenticated(user), relation, recipe)
            && (forall l :: l in r.0.Links(relation) <==> l in t.Links(relation) || l == UserRecipe(user, recipe)))
      && (forall other :: other != relation ==> r.0.Links(other) == t.Links(other))
  {
    var link := UserRecipe(user, recipe);
    if recipe in t.recipes && link !in t.Links(relation) {
      AddLinkValid(t, relation, link);
    }
  }

  /** Adding the same pair twice: the second call answers 400 and changes nothing. */
  lemma AddToTwice(t: Tables, relation: Relation, user: UserId, recipe: RecipeId)
    requires recipe in t.recipes
    ensures var once := AddToResult(t, relation, user, recipe).0;
      AddToResult(once, relation, user, recipe) == (once, BadRequest(AlreadyAdded))
  {
    var link := UserRecipe(user, recipe);
    if link !in t.Links(relation) {
      assert t.AddLink(relation, link).Links(relation) == t.Links(relation) + [link];
    }
  }

  /**
   * Removing: 404 for a missing recipe, `absent` exactly when the flag
   * was not set, 204 otherwise; a 204 deletes exactly that pair and
   * clears the flag, anything else changes nothing.
   */
  lemma DeleteFromOutcome(t: Tables, relation: Relation, user: UserId, recipe: RecipeId, absent: Reply)
    requires t.Valid() && absent != Deleted && absent != NotFound
    ensures var r := DeleteFromResult(t, relation, user, recipe, absent);
      && r.0.Valid()
      && (r.1 == NotFound <==> recipe !in t.recipes)
      && (r.1 == absent <==> recipe in t.recipes && !IsRelated(t, Authenticated(user), relation, recipe))
      && (r.1 == Deleted <==> recipe in t.recipes && IsRelated(t, Authenticated(user), relation, recipe))
      && (r.1 != Deleted ==> r.0 == t)
      && (r.1 == Deleted ==>
            && !IsRelated(r.0, Authenticated(user), relation, recipe)
            && (forall l :: l in r.0.Links(relation) <==> l in t.Links(relation) && l != UserRecipe(user, recipe)))
      && (forall other :: other != relation ==> r.0.Links(other) == t.Links(other))
  {
    RemoveLinkValid(t, relation, UserRecipe(user, recipe));
  }

  /** Adding a new pair and removing it again restores the store, with answers 201 then 204. */
  lemma AddThenDelete(t: Tables, relation: Relation, user: UserId, recipe: RecipeId, absent: Reply)
    requires recipe in t.recipes && UserRecipe(user, recipe) !in t.Links(relation)
    ensures AddToResult(t, relation, user, recipe).1 == Created
    ensures DeleteFromResult(AddToResult(t, relation, user, recipe).0, relation, user, recipe, absent) == (t, Deleted)
  {
    var link := UserRecipe(user, recipe);
    AddRemoveLink(t, relation, link);
    assert link in t.AddLink(relation, link).Links(relation);
  }

  /**
   * Subscribing keeps the store valid and nobody subscribed to
   * themself; the self-check wins over the duplicate check; a duplicate
   * POST is refused as AlreadySubscribed and a DELETE of a missing row
   * gets the `absent` answer, both without change; only 201 and 204
   * change the store, inserting or deleting exactly the one row.
   */
  lemma SubscribeOutcome(t: Tables, verb: Method, user: UserId, author: UserId, absent: Reply)
    requires t.Valid() && user in t.users && absent != Deleted && absent != Created
    ensures var r := SubscribeResult(t, verb, user, author, absent);
      && r.0.Valid()
      && (NoSelfSubscription(t.subscriptions) ==> NoSelfSubscription(r.0.subscriptions))
      && (r.1 == NotFound <==> author !in t.users || (verb == Delete && absent == NotFound && Subscription(user, author) !in t.subscriptions))
      && (verb == Post && author in t.users && user == author ==> r == (t, BadRequest(CannotSubscribeToSelf)))
      && (verb == Post && author in t.users && user != author ==>
            (r.1 == Created <==> !IsSubscribed(t, Authenticated(user), author)))
      && (verb == Post && author in t.users && user != author && IsSubscribed(t, Authenticated(user), author) ==>
            r == (t, BadRequest(AlreadySubscribed)))
      && (verb == Delete && author in t.users && !IsSubscribed(t, Authenticated(user), author) ==> r == (t, absent))
      && (r.1 != Created && r.1 != Deleted ==> r.0 == t)
      && (r.1 == Created ==>
            && IsSubscribed(r.0, Authenticated(user), author)
            && (forall x :: x in r.0.subscriptions <==> x in t.subscriptions || x == Subscription(user, author)))
      && (verb == Delete && author in t.users ==> (r.1 == Deleted <==> IsSubscribed(t, Authenticated(user), author)))
      && (r.1 == Deleted ==>
            && !IsSubscribed(r.0, Authenticated(user), author)
            && (forall x :: x in r.0.subscriptions <==> x in t.subscriptions && x != Subscription(user, author)))
      && r.0.favorites == t.favorites && r.0.carts == t.carts && r.0.recipes == t.recipes
  {
    var s := Subscription(user, author);
    if author in t.users {
      match verb
      case Post =>
        if user != author && s !in t.subscriptions {
          AddSubscriptionValid(t, s);
          var u := t.AddSubscription(s);
          forall i | 0 <= i < |u.subscriptions|
            ensures NoSelfSubscription(t.subscriptions) ==> u.subscriptions[i].user != u.subscriptions[i].author
          {
            if i < |t.subscriptions| {
              assert u.subscriptions[i] == t.subscriptions[i];
            }
          }
        }
      case Delete =>
        RemoveSubscriptionValid(t, s);
        var u := t.RemoveSubscription(s);
        forall i | 0 <= i < |u.subscriptions|
          ensures NoSelfSubscription(t.subscriptions) ==> u.subscriptions[i].user != u.subscriptions[i].author
        {
          assert u.subscriptions[i] in t.subscriptions;
        }
    }
  }

  /** Subscribing and then unsubscribing restores the store, with answers 201 then 204. */
  lemma SubscribeThenUnsubscribe(t: Tables, user: UserId, author: UserId, absent: Reply)
    requires author in t.users && user != author && Subscription(user, author) !in t.subscriptions
    ensures SubscribeResult(t, Post, user, author, absent).1 == Created
    ensures SubscribeResult(SubscribeResult(t, Post, user, author, absent).0, Delete, user, author, absent) == (t, Deleted)
  {
    var s := Subscription(user, author);
    RemoveAppended(t.subscriptions, s);
    assert s in t.AddSubscription(s).subscriptions;
  }

  /** `add_to`, identical in both revisions: look the recipe up, refuse a present pair, else insert it. */
  method AddTo(db: Database, relation: Relation, user: UserId, recipe: RecipeId) returns (reply: Reply)
    modifies db
    ensures (db.State(), reply) == AddToResult(old(db.State()), relation, user, recipe)
  {
    if recipe !in db.recipes {
      return NotFound;
    }
    var link := UserRecipe(user, recipe);
    match relation {
      case Favorite =>
        if link in db.favorites {
          return BadRequest(AlreadyAdded);
        }
        db.favorites := db.favorites + [link];
      case ShoppingCart =>
        if link in db.carts {
          return BadRequest(AlreadyAdded);
        }
        db.carts := db.carts + [link];
    }
    reply := Created;
  }
}
