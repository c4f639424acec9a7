/**
 * The user tables of backend/users/models.py: users with a unique email
 * and a unique username, and subscriptions (user follows author) with at
 * most one row per pair, deleted together with either user.
 */
module UsersModels {
  import opened Collections
  import opened Text
  import opened Sorting

  type UserId = int

  datatype User = User(email: string, username: string)

  /** A Subscription row: `user` follows `author`. */
  datatype Subscription = Subscription(user: UserId, author: UserId)

  /** `unique=True` on email and on username. */
  ghost predicate UniqueUsers(users: map<UserId, User>)
  {
    forall a, b :: a in users && b in users && a != b ==>
      users[a].email != users[b].email && users[a].username != users[b].username
  }

  /** Nobody follows themselves (kept by the views; the table does not demand it). */
  predicate NoSelfSubscription(subs: seq<Subscription>)
  {
    forall i :: 0 <= i < |subs| ==> subs[i].user != subs[i].author
  }

  /** The subscriptions left once the users in `gone` are deleted (`on_delete=CASCADE` on both keys). */
  function SubscriptionsSurviving(subs: seq<Subscription>, gone: set<UserId>): (r: seq<Subscription>)
    ensures forall s :: s in r <==> s in subs && s.user !in gone && s.author !in gone
  {
    if subs == [] then []
    else
      (if subs[0].user !in gone && subs[0].author !in gone then [subs[0]] else [])
      + SubscriptionsSurviving(subs[1..], gone)
  }

  /** The cascade keeps "at most one subscription per (user, author)". */
  lemma {:induction false} SubscriptionsSurvivingUnique(subs: seq<Subscription>, gone: set<UserId>)
    requires NoDup(subs)
    ensures NoDup(SubscriptionsSurviving(subs, gone))
  {
    if subs != [] {
      var rest := SubscriptionsSurviving(subs[1..], gone);
      SubscriptionsSurvivingUnique(subs[1..], gone);
      if subs[0].user !in gone && subs[0].author !in gone {
        var r := [subs[0]] + rest;
        assert r[0] == subs[0] && r[1..] == rest;
        assert subs[0] !in rest;
        assert SubscriptionsSurviving(subs, gone) == r;
      } else {
        assert [] + rest == rest;
        assert SubscriptionsSurviving(subs, gone) == rest;
      }
    }
  }

  predicate UsernameLe(a: (UserId, User), b: (UserId, User))
  {
    StrLe(a.1.username, b.1.username)
  }

  lemma UsernameLeIsPreorder()
    ensures TotalPreorder(UsernameLe)
  {
    forall a: (UserId, User), b: (UserId, User) ensures UsernameLe(a, b) || UsernameLe(b, a) {
      StrLeTotal(a.1.username, b.1.username);
    }
    forall a: (UserId, User), b: (UserId, User), c: (UserId, User) | UsernameLe(a, b) && UsernameLe(b, c)
      ensures UsernameLe(a, c)
    {
      StrLeTransitive(a.1.username, b.1.username, c.1.username);
    }
  }

  /** `ordering = ['username']`: the user listing is the table sorted by username. */
  function OrderByUsername(users: seq<(UserId, User)>): (r: seq<(UserId, User)>)
    ensures multiset(r) == multiset(users)
    ensures forall i, j :: 0 <= i < j < |r| ==> StrLe(r[i].1.username, r[j].1.username)
  {
    UsernameLeIsPreorder();
    SortSorted(users, UsernameLe);
    Sort(users, UsernameLe)
  }
}
