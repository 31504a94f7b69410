/** The subscription manager: following and unfollowing an author, the list
    of followed authors, and the subscription view of an author with a
    bounded preview of their recipes. */
module Subscriptions {
  import opened Wrappers
  import opened Seqs
  import opened Models
  import opened Projection

  /** An author as shown by the subscription endpoints. */
  datatype SubscriptionView = SubscriptionView(
    email: string,
    id: UserId,
    username: string,
    firstName: string,
    lastName: string,
    isSubscribed: bool,
    recipes: seq<ShortRecipe>,
    recipesCount: nat)

  /** Why a subscription request was answered with 400 Bad Request. */
  datatype SubscriptionRefusal =
    | SelfSubscription    // a user may not follow themself
    | AlreadySubscribed   // the (subscriber, author) row exists already
    | NotSubscribed       // there is no (subscriber, author) row to delete

  datatype SubscriptionError = UserNotFound | BadRequest(refusal: SubscriptionRefusal)

  /** The short views of a sequence of recipes, in the same order. */
  function ShortRecipes(rs: seq<Recipe>): (r: seq<ShortRecipe>)
    ensures |r| == |rs|
    ensures forall i :: 0 <= i < |rs| ==> r[i] == ProjectShort(rs[i])
  {
    seq(|rs|, i requires 0 <= i < |rs| => ProjectShort(rs[i]))
  }

  /** The `recipes_limit` query parameter: absent (or empty) shows every
      recipe, a number `n` shows the first `n`, as a slice `[:n]` does. */
  function Limit<T>(xs: seq<T>, limit: Option<nat>): (r: seq<T>)
    ensures limit.None? ==> r == xs
    ensures limit.Some? && limit.value <= |xs| ==> |r| == limit.value
    ensures limit.Some? && limit.value > |xs| ==> r == xs
    ensures |r| <= |xs| && r == xs[..|r|]
  {
    match limit
    case None => xs
    case Some(n) => if n <= |xs| then xs[..n] else xs
  }

  /** `SubscriptionSerializer` for `author` as seen by `subscriber`. */
  function SubscriptionViewOf(s: Store, subscriber: UserId, author: User, limit: Option<nat>): (v: SubscriptionView)
    ensures v.id == author.id && v.email == author.email && v.username == author.username
    ensures v.firstName == author.firstName && v.lastName == author.lastName
    ensures v.isSubscribed <==> (subscriber, author.id) in s.subscriptions
    ensures v.recipesCount == |RecipesOf(s, author.id)|
    ensures |v.recipes| <= v.recipesCount
    ensures limit.None? ==> |v.recipes| == v.recipesCount
    ensures limit.Some? ==> |v.recipes| == if limit.value <= v.recipesCount then limit.value else v.recipesCount
    ensures forall i :: 0 <= i < |v.recipes| ==> v.recipes[i] == ProjectShort(RecipesOf(s, author.id)[i])
    ensures forall x :: x in v.recipes ==>
              exists rec :: rec in s.recipes && rec.author == author.id && x == ProjectShort(rec)
  {
    var own := RecipesOf(s, author.id);
    var shown := Limit(own, limit);
    forall x | x in ShortRecipes(shown)
      ensures exists rec :: rec in s.recipes && rec.author == author.id && x == ProjectShort(rec)
    {
      var i :| 0 <= i < |shown| && ShortRecipes(shown)[i] == x;
      assert shown[i] == own[i] && own[i] in own;
    }
    SubscriptionView(
      author.email, author.id, author.username, author.firstName, author.lastName,
      (subscriber, author.id) in s.subscriptions,
      ShortRecipes(shown),
      |own|)
  }

  /** POST `users/{id}/subscribe/`: 404 for an unknown author, then the
      self-subscription check, then the duplicate check, then the new row. */
  function Subscribe(s: Store, subscriber: UserId, author: UserId, limit: Option<nat>): (r: Result<(Store, SubscriptionView), SubscriptionError>)
    requires Valid(s) && subscriber in UserIds(s)
    ensures author !in UserIds(s) ==> r == Failure(UserNotFound)
    ensures author in UserIds(s) && subscriber == author ==> r == Failure(BadRequest(SelfSubscription))
    ensures author in UserIds(s) && subscriber != author && (subscriber, author) in s.subscriptions ==>
              r == Failure(BadRequest(AlreadySubscribed))
    ensures r.Success? <==> author in UserIds(s) && subscriber != author && (subscriber, author) !in s.subscriptions
    ensures r.Success? ==>
              var s' := r.value.0;
              && s'.subscriptions == s.subscriptions + {(subscriber, author)}
              && |s'.subscriptions| == |s.subscriptions| + 1
              && s'.(subscriptions := s.subscriptions) == s
              && Valid(s')
              && r.value.1.id == author
              && r.value.1.isSubscribed
              && (exists u :: u in s.users && u.id == author && r.value.1 == SubscriptionViewOf(s', subscriber, u, limit))
              && r.value.1.recipesCount == |RecipesOf(s, author)|
              && r.value.1.recipes == ShortRecipes(Limit(RecipesOf(s, author), limit))
  {
    match FindUser(s.users, author)
    case None => Failure(UserNotFound)
    case Some(u) =>
      if subscriber == author then Failure(BadRequest(SelfSubscription))
      else if (subscriber, author) in s.subscriptions then Failure(BadRequest(AlreadySubscribed))
      else
        var s' := s.(subscriptions := s.subscriptions + {(subscriber, author)});
        SubscriptionsValid(s, s'.subscriptions);
        Success((s', SubscriptionViewOf(s', subscriber, u, limit)))
  }

  /** DELETE `users/{id}/subscribe/`: 404 for an unknown author, otherwise
      delete the row or report that there was none. */
  function Unsubscribe(s: Store, subscriber: UserId, author: UserId): (r: Result<Store, SubscriptionError>)
    requires Valid(s) && subscriber in UserIds(s)
    ensures author !in UserIds(s) ==> r == Failure(UserNotFound)
    ensures author in UserIds(s) && (subscriber, author) !in s.subscriptions ==> r == Failure(BadRequest(NotSubscribed))
    ensures r.Success? <==> (subscriber, author) in s.subscriptions
    ensures r.Success? ==>
              && r.value.subscriptions == s.subscriptions - {(subscriber, author)}
              && |r.value.subscriptions| == |s.subscriptions| - 1
              && r.value.(subscriptions := s.subscriptions) == s
              && Valid(r.value)
  {
    if author !in UserIds(s) then Failure(UserNotFound)
    else if (subscriber, author) in s.subscriptions then
      var s' := s.(subscriptions := s.subscriptions - {(subscriber, author)});
      SubscriptionsValid(s, s'.subscriptions);
      Success(s')
    else Failure(BadRequest(NotSubscribed))
  }

  /** Replacing the subscription table keeps the invariant when every row
      references existing users. */
  lemma SubscriptionsValid(s: Store, rows: set<(UserId, UserId)>)
    requires Valid(s)
    requires forall p :: p in rows ==> p.0 in UserIds(s) && p.1 in UserIds(s)
    ensures Valid(s.(subscriptions := rows))
  {
    var s' := s.(subscriptions := rows);
    assert UserIds(s') == UserIds(s) && RecipeIds(s') == RecipeIds(s);
    assert TagIds(s') == TagIds(s) && IngredientIds(s') == IngredientIds(s);
  }

  /** `WriteSubscriptionSerializer.validate`: the same two refusals as the
      view, in the same order. */
  function ValidateSubscription(s: Store, subscriber: UserId, author: UserId): (r: Outcome<SubscriptionRefusal>)
    ensures subscriber == author ==> r == Fail(SelfSubscription)
    ensures subscriber != author && (subscriber, author) in s.subscriptions ==> r == Fail(AlreadySubscribed)
    ensures r.Pass? <==> subscriber != author && (subscriber, author) !in s.subscriptions
  {
    if subscriber == author then Fail(SelfSubscription)
    else if (subscriber, author) in s.subscriptions then Fail(AlreadySubscribed)
    else Pass
  }

  function FollowedBy(s: Store, subscriber: UserId): User -> bool {
    (u: User) => (subscriber, u.id) in s.subscriptions
  }

  /** The authors `subscriber` follows, in the user table's order. */
  function FollowedAuthors(s: Store, subscriber: UserId): (r: seq<User>)
    requires Valid(s)
    ensures forall u :: u in r ==> u in s.users && (subscriber, u.id) in s.subscriptions
    ensures forall u :: u in s.users && (subscriber, u.id) in s.subscriptions ==> u in r
    ensures DistinctBy(r, UserKey)
  {
    FilterDistinct(s.users, FollowedBy(s, subscriber), UserKey);
    Filter(s.users, FollowedBy(s, subscriber))
  }

  /** GET `users/subscriptions/`: one view per followed author. */
  function SubscriptionList(s: Store, subscriber: UserId, limit: Option<nat>): (r: seq<SubscriptionView>)
    requires Valid(s)
    ensures |r| == |FollowedAuthors(s, subscriber)|
    ensures forall i :: 0 <= i < |r| ==> r[i] == SubscriptionViewOf(s, subscriber, FollowedAuthors(s, subscriber)[i], limit)
    ensures forall i :: 0 <= i < |r| ==> r[i].id == FollowedAuthors(s, subscriber)[i].id && r[i].isSubscribed
  {
    var authors := FollowedAuthors(s, subscriber);
    assert forall i :: 0 <= i < |authors| ==> authors[i] in authors;
    seq(|authors|, i requires 0 <= i < |authors| => SubscriptionViewOf(s, subscriber, authors[i], limit))
  }

  /** The list holds exactly the followed authors, once each, and shows every
      one of them as subscribed to. */
  lemma SubscriptionListExact(s: Store, subscriber: UserId, limit: Option<nat>, author: UserId)
    requires Valid(s)
    ensures var r := SubscriptionList(s, subscriber, limit);
            && (forall i :: 0 <= i < |r| ==> r[i].isSubscribed)
            && (forall i, j :: 0 <= i < j < |r| ==> r[i].id != r[j].id)
            && ((exists i :: 0 <= i < |r| && r[i].id == author) <==>
                  author in UserIds(s) && (subscriber, author) in s.subscriptions)
  {
    ListedIdsDistinct(s, subscriber, limit);
    ListedIffFollowed(s, subscriber, limit, author);
  }

  lemma ListedIdsDistinct(s: Store, subscriber: UserId, limit: Option<nat>)
    requires Valid(s)
    ensures var r := SubscriptionList(s, subscriber, limit);
            forall i, j :: 0 <= i < j < |r| ==> r[i].id != r[j].id
  {
    var r := SubscriptionList(s, subscriber, limit);
    var authors := FollowedAuthors(s, subscriber);
    forall i, j | 0 <= i < j < |r|
      ensures r[i].id != r[j].id
    {
      assert UserKey(authors[i]) != UserKey(authors[j]);
    }
  }

  lemma ListedIffFollowed(s: Store, subscriber: UserId, limit: Option<nat>, author: UserId)
    requires Valid(s)
    ensures var r := SubscriptionList(s, subscriber, limit);
            (exists i :: 0 <= i < |r| && r[i].id == author) <==>
              author in UserIds(s) && (subscriber, author) in s.subscriptions
  {
    var r := SubscriptionList(s, subscriber, limit);
    var authors := FollowedAuthors(s, subscriber);
    if author in UserIds(s) && (subscriber, author) in s.subscriptions {
      var u :| u in s.users && UserKey(u) == author;
      assert u in authors;
      var i :| 0 <= i < |authors| && authors[i] == u;
      assert r[i].id == author;
    }
    if i :| 0 <= i < |r| && r[i].id == author {
      assert authors[i] in authors;
      assert UserKey(authors[i]) in UserIds(s);
    }
  }


  /** The serializer's validation refuses exactly what the view refuses, for
      an existing author. */
  lemma ValidateAgreesWithSubscribe(s: Store, subscriber: UserId, author: UserId, limit: Option<nat>)
    requires Valid(s) && subscriber in UserIds(s) && author in UserIds(s)
    ensures ValidateSubscription(s, subscriber, author).Pass? <==> Subscribe(s, subscriber, author, limit).Success?
    ensures ValidateSubscription(s, subscriber, author).Fail? ==>
              Subscribe(s, subscriber, author, limit) == Failure(BadRequest(ValidateSubscription(s, subscriber, author).error))
  {
  }

  /** No user follows themself. The schema does not enforce it; the
      endpoint does. */
  predicate NoSelfSubscriptions(s: Store) {
    forall p :: p in s.subscriptions ==> p.0 != p.1
  }

  lemma SubscribeKeepsNoSelf(s: Store, subscriber: UserId, author: UserId, limit: Option<nat>)
    requires Valid(s) && subscriber in UserIds(s) && NoSelfSubscriptions(s)
    requires author in UserIds(s) && subscriber != author && (subscriber, author) !in s.subscriptions
    ensures NoSelfSubscriptions(Subscribe(s, subscriber, author, limit).value.0)
  {
  }

  /** Following an author puts them on the subscriber's list; unfollowing
      takes them off it again and restores the store. */
  lemma {:induction false} SubscribeThenUnsubscribe(s: Store, subscriber: UserId, author: UserId, limit: Option<nat>)
    requires Valid(s) && subscriber in UserIds(s)
    requires author in UserIds(s) && subscriber != author && (subscriber, author) !in s.subscriptions
    ensures var s' := Subscribe(s, subscriber, author, limit).value.0;
            && (exists i :: 0 <= i < |SubscriptionList(s', subscriber, limit)| && SubscriptionList(s', subscriber, limit)[i].id == author)
            && Unsubscribe(s', subscriber, author) == Success(s)
  {
    var s' := s.(subscriptions := s.subscriptions + {(subscriber, author)});
    SubscribedStore(s, subscriber, author, limit);
    SubscriptionListExact(s', subscriber, limit, author);
    assert s'.subscriptions - {(subscriber, author)} == s.subscriptions;
  }

  /** The store a successful subscription leaves. */
  lemma SubscribedStore(s: Store, subscriber: UserId, author: UserId, limit: Option<nat>)
    requires Valid(s) && subscriber in UserIds(s)
    requires author in UserIds(s) && subscriber != author && (subscriber, author) !in s.subscriptions
    ensures Subscribe(s, subscriber, author, limit).Success?
    ensures Subscribe(s, subscriber, author, limit).value.0 == s.(subscriptions := s.subscriptions + {(subscriber, author)})
    ensures Valid(s.(subscriptions := s.subscriptions + {(subscriber, author)}))
  {
  }
}
