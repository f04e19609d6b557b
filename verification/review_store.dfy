/** The review routes (routes/reviews.js) over a sequence of stored reviews
    (models/review-model.js). All three routes sit behind the token gate;
    none of them looks at who the caller is. */
module ReviewStore {
  import opened Common
  import opened Http

  /** A stored review. `stars` counts half-stars: the rating widget moves in
      steps of 0.5, so 7 stands for 3.5 stars. */
  datatype Review = Review(id: nat, description: string, stars: int, date: string,
                           productId: string, username: string)

  type Store = seq<Review>

  /** The five fields `/add` reads from the request body. */
  datatype Draft = Draft(description: string, stars: int, date: string,
                         productId: string, username: string)

  /** No two stored reviews share an id. */
  predicate UniqueIds(store: Store)
  {
    forall i, j :: 0 <= i < j < |store| ==> store[i].id != store[j].id
  }

  function ForProduct(productId: string): Review -> bool
  {
    (review: Review) => review.productId == productId
  }

  function WithId(id: nat): Review -> bool
  {
    (review: Review) => review.id == id
  }

  /** The review `/add` stores for `draft`. */
  function NewReview(store: Store, draft: Draft): (r: Review)
    ensures forall k :: 0 <= k < |store| ==> store[k].id != r.id
    ensures r.description == draft.description && r.stars == draft.stars && r.date == draft.date
    ensures r.productId == draft.productId && r.username == draft.username
  {
    Review(FreshId(IdsOf(store, (x: Review) => x.id)), draft.description, draft.stars, draft.date,
           draft.productId, draft.username)
  }

  /** POST /reviews/add: stores a review with exactly the five supplied
      fields under a fresh id and answers with it. */
  function AddRoute(store: Store, draft: Draft, fault: Option<string>): (o: Outcome<Store, Review>)
    ensures fault.Some? ==> o.store == store && o.reply == ServerError(fault.value)
    ensures fault.None? ==> o.reply.status == StatusOk && o.reply.body.Succeeded?
    ensures fault.None? ==> o.store == store + [o.reply.body.data]
    ensures fault.None? ==> var r := o.reply.body.data;
      r.description == draft.description && r.stars == draft.stars && r.date == draft.date
      && r.productId == draft.productId && r.username == draft.username
      && forall k :: 0 <= k < |store| ==> store[k].id != r.id
  {
    var review := NewReview(store, draft);
    Guard(store, fault, Outcome(store + [review], Ok(review)))
  }

  /** GET /reviews/:id: the reviews of one product, in store order. */
  function ListRoute(store: Store, productId: string, fault: Option<string>): (o: Outcome<Store, seq<Review>>)
    ensures o.store == store
    ensures fault.Some? ==> o.reply == ServerError(fault.value)
    ensures fault.None? ==> o.reply == Ok(Filter(store, ForProduct(productId)))
  {
    Guard(store, fault, Outcome(store, Ok(Filter(store, ForProduct(productId)))))
  }

  /** The listing holds exactly the product's reviews, each as often as it
      is stored. */
  lemma ListIsProductReviews(store: Store, productId: string)
    ensures forall r: Review ::
              multiset(Filter(store, ForProduct(productId)))[r]
              == if r.productId == productId then multiset(store)[r] else 0
  {
    FilterMultiset(store, ForProduct(productId));
  }

  /** DELETE /reviews/:id: removes the review with that id, if there is one,
      and answers with it (or with nothing). The gate has set `req.user`
      by now, but the route never reads it: `requester` stands for it here
      only so that `DeleteIgnoresRequester` can say it is not consulted. */
  function DeleteRoute(store: Store, id: nat, requester: Option<nat>, fault: Option<string>)
    : (o: Outcome<Store, Option<Review>>)
    ensures fault.Some? ==> o.store == store && o.reply == ServerError(fault.value)
    ensures fault.None? ==> o.reply.status == StatusOk && o.reply.body.Succeeded?
    ensures fault.None? && (forall k :: 0 <= k < |store| ==> store[k].id != id) ==>
      o.store == store && o.reply == Ok(None)
    ensures fault.None? && (exists k :: 0 <= k < |store| && store[k].id == id) ==>
      |o.store| == |store| - 1 && o.reply.body.data.Some? && o.reply.body.data.value.id == id
      && multiset(o.store) == multiset(store) - multiset{o.reply.body.data.value}
  {
    match FirstIndex(store, WithId(id))
    case None => Guard(store, fault, Outcome(store, Ok(None)))
    case Some(i) => Guard(store, fault, Outcome(RemoveAt(store, i), Ok(Some(store[i]))))
  }

  // ---------------------------------------------------------------------
  // Properties

  /** Anyone holding a valid token can delete any review: the outcome does
      not depend on the requester. */
  lemma DeleteIgnoresRequester(store: Store, id: nat, a: Option<nat>, b: Option<nat>, fault: Option<string>)
    ensures DeleteRoute(store, id, a, fault) == DeleteRoute(store, id, b, fault)
  {
  }

  lemma AddKeepsUniqueIds(store: Store, draft: Draft, fault: Option<string>)
    requires UniqueIds(store)
    ensures UniqueIds(AddRoute(store, draft, fault).store)
  {
  }

  lemma DeleteKeepsUniqueIds(store: Store, id: nat, requester: Option<nat>, fault: Option<string>)
    requires UniqueIds(store)
    ensures UniqueIds(DeleteRoute(store, id, requester, fault).store)
  {
    if fault.None? {
      match FirstIndex(store, WithId(id)) {
        case None =>
        case Some(i) =>
          var r := RemoveAt(store, i);
          forall a, b | 0 <= a < b < |r|
            ensures r[a].id != r[b].id
          {
            var a' := if a < i then a else a + 1;
            var b' := if b < i then b else b + 1;
            assert r[a] == store[a'] && r[b] == store[b'] && a' < b';
          }
      }
    }
  }

  /** With unique ids, a delete leaves no review with that id behind and
      keeps every other review. */
  lemma DeleteRemovesOnlyThatReview(store: Store, id: nat, requester: Option<nat>)
    requires UniqueIds(store)
    ensures var after := DeleteRoute(store, id, requester, None).store;
      (forall k :: 0 <= k < |after| ==> after[k].id != id)
      && forall r: Review :: r.id != id ==> multiset(after)[r] == multiset(store)[r]
  {
    match FirstIndex(store, WithId(id)) {
      case None =>
      case Some(i) =>
        var after := RemoveAt(store, i);
        forall k | 0 <= k < |after|
          ensures after[k].id != id
        {
          if k < i {
            assert after[k] == store[k];
          } else {
            assert after[k] == store[k + 1];
          }
        }
    }
  }

  /** Deleting the review just added gives back the store as it was. */
  lemma AddThenDelete(store: Store, draft: Draft, requester: Option<nat>)
    ensures var added := AddRoute(store, draft, None);
      DeleteRoute(added.store, added.reply.body.data.id, requester, None).store == store
  {
    var review := NewReview(store, draft);
    var added := store + [review];
    assert WithId(review.id)(added[|store|]);
    var found := FirstIndex(added, WithId(review.id));
    assert found == Some(|store|);
    assert RemoveAt(added, |store|) == store;
  }

  /** A new review shows up at the end of its product's listing and leaves
      every other product's listing alone. */
  lemma ListAfterAdd(store: Store, draft: Draft, productId: string)
    ensures var after := AddRoute(store, draft, None).store;
      Filter(after, ForProduct(productId)) ==
        if productId == draft.productId
        then Filter(store, ForProduct(productId)) + [NewReview(store, draft)]
        else Filter(store, ForProduct(productId))
  {
    var review := NewReview(store, draft);
    FilterAppend(store, [review], ForProduct(productId));
    assert [review][1..] == [];
  }
}
