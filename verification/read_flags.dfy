/**
 * The read-side flags every recipe and user representation carries:
 * `is_favorited`, `is_in_shopping_cart` and `is_subscribed`. In both
 * revisions each is False for an anonymous user and otherwise tells
 * whether the (user, target) row exists.
 */
module ReadFlags {
  import opened Collections
  import opened UsersModels
  import opened RecipesModels
  import opened Store
  import opened Requests

  /** `is_favorited` (relation Favorite) and `is_in_shopping_cart` (relation ShoppingCart). */
  predicate IsRelated(t: Tables, requester: Requester, relation: Relation, recipe: RecipeId)
  {
    requester.Authenticated? && UserRecipe(requester.id, recipe) in t.Links(relation)
  }

  /** `is_subscribed`: the requester follows `author`. */
  predicate IsSubscribed(t: Tables, requester: Requester, author: UserId)
  {
    requester.Authenticated? && Subscription(requester.id, author) in t.subscriptions
  }

  /**
   * `exists()` on a table with a unique (user, recipe) constraint: in a
   * valid store the flag is set exactly when one row holds the pair, and
   * an anonymous requester never sees it set.
   */
  lemma RelatedFlag(t: Tables, requester: Requester, relation: Relation, recipe: RecipeId)
    requires t.Valid()
    ensures requester.Anonymous? ==> !IsRelated(t, requester, relation, recipe)
    ensures requester.Authenticated? ==>
      (IsRelated(t, requester, relation, recipe) <==> Count(t.Links(relation), UserRecipe(requester.id, recipe)) == 1)
  {
    if requester.Authenticated? {
      NoDupCount(t.Links(relation), UserRecipe(requester.id, recipe));
    }
  }

  /** The same for `is_subscribed` over the subscription table. */
  lemma SubscribedFlag(t: Tables, requester: Requester, author: UserId)
    requires t.Valid()
    ensures requester.Anonymous? ==> !IsSubscribed(t, requester, author)
    ensures requester.Authenticated? ==>
      (IsSubscribed(t, requester, author) <==> Count(t.subscriptions, Subscription(requester.id, author)) == 1)
  {
    if requester.Authenticated? {
      NoDupCount(t.subscriptions, Subscription(requester.id, author));
    }
  }
}
