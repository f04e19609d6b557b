/** The cart collection and the `/cart` routes (routes/cart.js). The
    collection is a sequence of rows in insertion order; a `find` is a
    filter, `findOneAndUpdate` and `deleteOne` act on the first matching row.
    The username every route works on comes from the request body, not from
    the token. */
module CartStore {
  import opened Common
  import opened Money
  import opened Http

  /** A cart row (models/cart-model.js): who, which product, how many, and a
      snapshot of the product's image, name and price taken when the row was
      added. The quantity is whatever the client sent: nothing bounds it. */
  datatype CartRow = CartRow(
    username: string,
    productId: string,
    quantity: int,
    image: string,
    name: string,
    price: real)

  type Store = seq<CartRow>

  function OwnedBy(username: string): CartRow -> bool
  {
    (row: CartRow) => row.username == username
  }

  function NotOwnedBy(username: string): CartRow -> bool
  {
    (row: CartRow) => row.username != username
  }

  function ForPair(username: string, productId: string): CartRow -> bool
  {
    (row: CartRow) => row.username == username && row.productId == productId
  }

  /** `Cart.find({username})`: the user's rows, every one of them, in store
      order. */
  function Display(store: Store, username: string): seq<CartRow>
  {
    Filter(store, OwnedBy(username))
  }

  /** `Cart.find({username, productId})`. */
  function Check(store: Store, username: string, productId: string): seq<CartRow>
  {
    Filter(store, ForPair(username, productId))
  }

  /** `display` answers with every row of the user and nothing else. */
  lemma DisplayIsUsersRows(store: Store, username: string)
    ensures forall x :: multiset(Display(store, username))[x] ==
                        if x.username == username then multiset(store)[x] else 0
  {
    FilterMultiset(store, OwnedBy(username));
  }

  /** `check` answers with every row of the pair and nothing else. */
  lemma CheckIsPairRows(store: Store, username: string, productId: string)
    ensures forall x :: multiset(Check(store, username, productId))[x] ==
                        if x.username == username && x.productId == productId then multiset(store)[x] else 0
  {
    FilterMultiset(store, ForPair(username, productId));
  }

  /** Where `findOneAndUpdate` / `deleteOne` act: the first row of the pair. */
  function FirstMatch(store: Store, username: string, productId: string): Option<nat>
  {
    FirstIndex(store, ForPair(username, productId))
  }

  // ---------------------------------------------------------------------
  // Effects of the mutating routes on the collection
  // ---------------------------------------------------------------------

  /** `{$inc: {quantity: 1}}` on the first row of the pair. */
  function Increment(store: Store, username: string, productId: string): (r: Store)
    ensures |r| == |store|
    ensures FirstMatch(store, username, productId).None? ==> r == store
    ensures FirstMatch(store, username, productId).Some? ==>
      var i := FirstMatch(store, username, productId).value;
      r[i] == store[i].(quantity := store[i].quantity + 1) &&
      forall j :: 0 <= j < |store| && j != i ==> r[j] == store[j]
  {
    match FirstMatch(store, username, productId)
    case None => store
    case Some(i) => store[i := store[i].(quantity := store[i].quantity + 1)]
  }

  /** `{quantity}` on the first row of the pair: any value is stored. */
  function SetQuantity(store: Store, username: string, productId: string, quantity: int): (r: Store)
    ensures |r| == |store|
    ensures FirstMatch(store, username, productId).None? ==> r == store
    ensures FirstMatch(store, username, productId).Some? ==>
      var i := FirstMatch(store, username, productId).value;
      r[i] == store[i].(quantity := quantity) &&
      forall j :: 0 <= j < |store| && j != i ==> r[j] == store[j]
  {
    match FirstMatch(store, username, productId)
    case None => store
    case Some(i) => store[i := store[i].(quantity := quantity)]
  }

  /** `deleteOne({username, productId})`: at most one row goes. */
  function DeleteOne(store: Store, username: string, productId: string): (r: Store)
    ensures FirstMatch(store, username, productId).None? ==> r == store
    ensures FirstMatch(store, username, productId).Some? ==>
      multiset(r) == multiset(store) - multiset{store[FirstMatch(store, username, productId).value]}
  {
    match FirstMatch(store, username, productId)
    case None => store
    case Some(i) => RemoveAt(store, i)
  }

  /** `deleteMany({username})`. */
  function DeleteAll(store: Store, username: string): (r: Store)
    ensures Display(r, username) == []
    ensures forall x: CartRow :: x.username != username ==> multiset(r)[x] == multiset(store)[x]
  {
    var r := Filter(store, NotOwnedBy(username));
    FilterNone(r, OwnedBy(username));
    FilterMultiset(store, NotOwnedBy(username));
    r
  }

  // ---------------------------------------------------------------------
  // Routes: effect plus reply, under the shared catch block
  // ---------------------------------------------------------------------

  /** POST /cart/add: stores the row exactly as sent, without looking for an
      existing row of the same pair. */
  function AddRoute(store: Store, row: CartRow, fault: Option<string>): (o: Outcome<Store, CartRow>)
    ensures fault.None? ==> |o.store| == |store| + 1 && o.store[..|store|] == store && o.store[|store|] == row
    ensures fault.None? ==> o.reply == Ok(row)
    ensures fault.Some? ==> o.store == store && o.reply == ServerError(fault.value)
  {
    Guard(store, fault, Outcome(store + [row], Ok(row)))
  }

  /** POST /cart/check: the rows of the pair; none is still a success. */
  function CheckRoute(store: Store, username: string, productId: string, fault: Option<string>)
    : (o: Outcome<Store, seq<CartRow>>)
    ensures o.store == store
    ensures fault.None? ==> o.reply == Ok(Check(store, username, productId))
    ensures fault.Some? ==> o.reply == ServerError(fault.value)
  {
    Guard(store, fault, Outcome(store, Ok(Check(store, username, productId))))
  }

  /** POST /cart/display: the user's rows; none is still a success. */
  function DisplayRoute(store: Store, username: string, fault: Option<string>)
    : (o: Outcome<Store, seq<CartRow>>)
    ensures o.store == store
    ensures fault.None? ==> o.reply == Ok(Display(store, username))
    ensures fault.Some? ==> o.reply == ServerError(fault.value)
  {
    Guard(store, fault, Outcome(store, Ok(Display(store, username))))
  }

  /** The document `findOneAndUpdate` answers with: the matched row as it was
      before the update, or `null`. */
  function Matched(store: Store, username: string, productId: string): Option<CartRow>
  {
    match FirstMatch(store, username, productId)
    case None => None
    case Some(i) => Some(store[i])
  }

  /** POST /cart/increment: success even when nothing matched. */
  function IncrementRoute(store: Store, username: string, productId: string, fault: Option<string>)
    : (o: Outcome<Store, Option<CartRow>>)
    ensures fault.None? ==> o.reply.status == StatusOk && o.store == Increment(store, username, productId)
    ensures fault.None? && Check(store, username, productId) == [] ==>
      o.store == store && o.reply == Ok(None)
    ensures fault.Some? ==> o.store == store && o.reply == ServerError(fault.value)
  {
    CheckStartsAtFirstMatch(store, username, productId);
    Guard(store, fault,
      Outcome(Increment(store, username, productId), Ok(Matched(store, username, productId))))
  }

  /** POST /cart/update-quantity: no bound on the quantity. */
  function UpdateQuantityRoute(store: Store, username: string, productId: string, quantity: int,
                               fault: Option<string>): (o: Outcome<Store, Option<CartRow>>)
    ensures fault.None? ==> o.reply.status == StatusOk && o.store == SetQuantity(store, username, productId, quantity)
    ensures fault.Some? ==> o.store == store && o.reply == ServerError(fault.value)
  {
    Guard(store, fault,
      Outcome(SetQuantity(store, username, productId, quantity), Ok(Matched(store, username, productId))))
  }

  /** DELETE /cart/delete: answers with the deleted count, 0 or 1 (the
      `deletedCount` of the driver's result object). */
  function DeleteRoute(store: Store, username: string, productId: string, fault: Option<string>)
    : (o: Outcome<Store, nat>)
    ensures fault.None? ==> o.store == DeleteOne(store, username, productId)
    ensures fault.None? ==> o.reply.status == StatusOk && o.reply.body.Succeeded?
    ensures fault.None? ==> |o.store| + o.reply.body.data == |store|
    ensures fault.Some? ==> o.store == store && o.reply == ServerError(fault.value)
  {
    var count: nat := if FirstMatch(store, username, productId).Some? then 1 else 0;
    Guard(store, fault, Outcome(DeleteOne(store, username, productId), Ok(count)))
  }

  /** DELETE /cart/deleteAll: answers with the deleted count (the
      `deletedCount` of the driver's result object). */
  function DeleteAllRoute(store: Store, username: string, fault: Option<string>): (o: Outcome<Store, nat>)
    ensures fault.None? ==> o.store == DeleteAll(store, username)
    ensures fault.None? ==> o.reply == Ok(|Display(store, username)|)
    ensures fault.Some? ==> o.store == store && o.reply == ServerError(fault.value)
  {
    Guard(store, fault, Outcome(DeleteAll(store, username), Ok(|Display(store, username)|)))
  }

  // ---------------------------------------------------------------------
  // The charge
  // ---------------------------------------------------------------------

  /** `price * quantity` of one row. */
  function LineAmount(row: CartRow): real
  {
    row.price * row.quantity as real
  }

  /** `rows.reduce((total, p) => total + p.price * p.quantity, 0)`: a left
      fold from 0 in row order. */
  function Subtotal(rows: seq<CartRow>): real
    decreases |rows|
  {
    if |rows| == 0 then 0.0
    else Subtotal(rows[..|rows| - 1]) + LineAmount(rows[|rows| - 1])
  }

  /** The authoritative total of POST /cart/pay: the user's stored rows only,
      summed, then rounded to cents. */
  function PayTotal(store: Store, username: string): real
  {
    Round2(Subtotal(Display(store, username)))
  }

  /** What is sent to the payment processor. */
  datatype Charge = Charge(amount: real, currency: string)

  /** The processor's answer to a charge request. */
  datatype Intent = Created(clientSecret: string) | Rejected(message: string)

  /** `{clientSecret}` on success, `{success: false, error}` otherwise. */
  datatype PayBody = ClientSecret(secret: string) | PayFailed(error: string)

  /** The reply of POST /cart/pay, with the charge it requested, if any. */
  datatype PayReply = PayReply(status: int, body: PayBody, charge: Option<Charge>)

  const Currency: string := "cad"

  /** POST /cart/pay. The request body's username is the only input; no
      price sent by the client is read, and the cart is not touched. */
  function PayRoute(store: Store, username: string, fault: Option<string>, processor: Charge -> Intent)
    : (r: PayReply)
    ensures fault.Some? ==> r.charge.None? && r.status == StatusServerError && r.body == PayFailed(fault.value)
    ensures fault.None? ==> r.charge.Some? && r.charge.value.currency == Currency
    ensures fault.None? ==> r.charge.value.amount == Cents(Subtotal(Display(store, username))) as real
    ensures fault.None? ==> (r.status == StatusOk <==> processor(r.charge.value).Created?)
    ensures fault.None? && processor(r.charge.value).Created? ==>
      r.body == ClientSecret(processor(r.charge.value).clientSecret)
  {
    match fault
    case Some(message) => PayReply(StatusServerError, PayFailed(message), None)
    case None =>
      var charge := Charge(PayTotal(store, username) * 100.0, Currency);
      match processor(charge)
      case Created(secret) => PayReply(StatusOk, ClientSecret(secret), Some(charge))
      case Rejected(message) => PayReply(StatusServerError, PayFailed(message), Some(charge))
  }

  // ---------------------------------------------------------------------
  // Properties
  // ---------------------------------------------------------------------

  /** `check` sees exactly the rows `findOneAndUpdate` would act on: the
      first of them is the first matching row of the collection. */
  lemma {:induction false} CheckStartsAtFirstMatch(store: Store, username: string, productId: string)
    ensures FirstMatch(store, username, productId).None? <==> Check(store, username, productId) == []
    ensures FirstMatch(store, username, productId).Some? ==>
      var i := FirstMatch(store, username, productId).value;
      Check(store, username, productId) == [store[i]] + Filter(store[i + 1..], ForPair(username, productId))
  {
    var keep := ForPair(username, productId);
    match FirstMatch(store, username, productId)
    case None =>
      FilterNone(store, keep);
    case Some(i) =>
      FilterNone(store[..i], keep);
      assert store == store[..i] + [store[i]] + store[i + 1..];
      FilterAround(store[..i], store[i], store[i + 1..], keep);
  }

  /** Adding a row of the pair puts one more row behind what `check`
      already found: `add` never merges, so a second add makes a duplicate. */
  lemma CheckAfterAdd(store: Store, row: CartRow)
    ensures Check(AddRoute(store, row, None).store, row.username, row.productId)
      == Check(store, row.username, row.productId) + [row]
  {
    var keep := ForPair(row.username, row.productId);
    FilterAppend(store, [row], keep);
    assert [row][1..] == [];
  }

  /** After `increment`, `check` returns the same rows with the first one's
      quantity one higher. */
  lemma CheckAfterIncrement(store: Store, username: string, productId: string)
    requires Check(store, username, productId) != []
    ensures var c := Check(store, username, productId);
      Check(Increment(store, username, productId), username, productId)
        == [c[0].(quantity := c[0].quantity + 1)] + c[1..]
  {
    CheckStartsAtFirstMatch(store, username, productId);
    var i := FirstMatch(store, username, productId).value;
    var v := store[i].(quantity := store[i].quantity + 1);
    FilterUpdateFirst(store, i, v, ForPair(username, productId));
  }

  /** `increment` of one pair leaves every other pair's rows alone. */
  lemma IncrementKeepsOtherPairs(store: Store, username: string, productId: string,
                                 otherUser: string, otherProduct: string)
    requires otherUser != username || otherProduct != productId
    ensures Check(Increment(store, username, productId), otherUser, otherProduct)
      == Check(store, otherUser, otherProduct)
  {
    match FirstMatch(store, username, productId) {
      case None =>
      case Some(i) =>
        var v := store[i].(quantity := store[i].quantity + 1);
        assert Increment(store, username, productId) == store[i := v];
        FilterUpdateDropped(store, i, v, ForPair(otherUser, otherProduct));
    }
  }

  /** `add` of a row of one pair leaves every other pair's rows alone. */
  lemma AddKeepsOtherPairs(store: Store, row: CartRow, otherUser: string, otherProduct: string)
    requires otherUser != row.username || otherProduct != row.productId
    ensures Check(AddRoute(store, row, None).store, otherUser, otherProduct)
      == Check(store, otherUser, otherProduct)
  {
    FilterAppend(store, [row], ForPair(otherUser, otherProduct));
    assert [row][1..] == [];
  }

  /** After `update-quantity`, `check` returns the same rows with the first
      one's quantity replaced, whatever the value. */
  lemma CheckAfterSetQuantity(store: Store, username: string, productId: string, quantity: int)
    requires Check(store, username, productId) != []
    ensures var c := Check(store, username, productId);
      Check(SetQuantity(store, username, productId, quantity), username, productId)
        == [c[0].(quantity := quantity)] + c[1..]
  {
    CheckStartsAtFirstMatch(store, username, productId);
    var i := FirstMatch(store, username, productId).value;
    var v := store[i].(quantity := quantity);
    FilterUpdateFirst(store, i, v, ForPair(username, productId));
  }

  /** After `delete`, `check` returns what it did before minus its first
      row: other duplicates of the pair stay. */
  lemma CheckAfterDeleteOne(store: Store, username: string, productId: string)
    requires Check(store, username, productId) != []
    ensures Check(DeleteOne(store, username, productId), username, productId)
      == Check(store, username, productId)[1..]
  {
    CheckStartsAtFirstMatch(store, username, productId);
    var i := FirstMatch(store, username, productId).value;
    assert DeleteOne(store, username, productId) == store[..i] + store[i + 1..];
    FilterRemoveFirst(store, i, ForPair(username, productId));
  }

  /** Every cart route acting for one user leaves every other user's cart
      exactly as it was, rows and order. */
  lemma OtherCartsUntouched(store: Store, username: string, productId: string, quantity: int,
                            row: CartRow, other: string)
    requires other != username && row.username == username
    ensures Display(AddRoute(store, row, None).store, other) == Display(store, other)
    ensures Display(Increment(store, username, productId), other) == Display(store, other)
    ensures Display(SetQuantity(store, username, productId, quantity), other) == Display(store, other)
    ensures Display(DeleteOne(store, username, productId), other) == Display(store, other)
    ensures Display(DeleteAll(store, username), other) == Display(store, other)
  {
    var keep := OwnedBy(other);
    assert Display(AddRoute(store, row, None).store, other) == Display(store, other) by {
      FilterAppend(store, [row], keep);
      assert [row][1..] == [];
    }
    match FirstMatch(store, username, productId) {
      case None =>
      case Some(i) =>
        assert Display(Increment(store, username, productId), other) == Display(store, other) by {
          FilterUpdateDropped(store, i, store[i].(quantity := store[i].quantity + 1), keep);
        }
        assert Display(SetQuantity(store, username, productId, quantity), other) == Display(store, other) by {
          FilterUpdateDropped(store, i, store[i].(quantity := quantity), keep);
        }
        assert Display(DeleteOne(store, username, productId), other) == Display(store, other) by {
          FilterRemoveDropped(store, i, keep);
        }
    }
    DeleteAllKeepsOthers(store, username, other);
  }

  /** `deleteMany` for one user keeps the other users' rows in order. */
  lemma {:induction false} DeleteAllKeepsOthers(store: Store, username: string, other: string)
    requires other != username
    ensures Display(DeleteAll(store, username), other) == Display(store, other)
    decreases |store|
  {
    if |store| > 0 {
      var dropMine := NotOwnedBy(username);
      var theirs := OwnedBy(other);
      var head := if dropMine(store[0]) then [store[0]] else [];
      assert Filter(store, dropMine) == head + Filter(store[1..], dropMine);
      FilterAppend(head, Filter(store[1..], dropMine), theirs);
      DeleteAllKeepsOthers(store[1..], username, other);
      assert Filter(head, theirs) == if theirs(store[0]) then [store[0]] else [] by {
        if dropMine(store[0]) {
          assert [store[0]][1..] == [];
        }
      }
    }
  }

  /** One row per (username, productId): what the client's check-first
      add-to-cart protocol aims for. Neither the schema nor the routes
      enforce it. */
  ghost predicate UniquePairs(store: Store)
  {
    forall i, j :: 0 <= i < j < |store| ==>
      store[i].username != store[j].username || store[i].productId != store[j].productId
  }

  /** Under pair-uniqueness `check` finds at most one row. */
  lemma {:induction false} UniquePairsCheckAtMostOne(store: Store, username: string, productId: string)
    requires UniquePairs(store)
    ensures |Check(store, username, productId)| <= 1
    decreases |store|
  {
    if |store| > 0 {
      assert UniquePairs(store[1..]);
      UniquePairsCheckAtMostOne(store[1..], username, productId);
      if ForPair(username, productId)(store[0]) {
        FilterNone(store[1..], ForPair(username, productId));
      }
    }
  }

  /** `add` of a pair already in the cart breaks pair-uniqueness. */
  lemma AddBreaksUniquePairs(store: Store, row: CartRow)
    requires Check(store, row.username, row.productId) != []
    ensures !UniquePairs(AddRoute(store, row, None).store)
  {
    CheckAfterAdd(store, row);
    UniquePairsCheckAtMostOneContra(AddRoute(store, row, None).store, row.username, row.productId);
  }

  lemma UniquePairsCheckAtMostOneContra(store: Store, username: string, productId: string)
    requires |Check(store, username, productId)| > 1
    ensures !UniquePairs(store)
  {
    if UniquePairs(store) {
      UniquePairsCheckAtMostOne(store, username, productId);
    }
  }

  /** `add` of a pair not yet in the cart keeps pair-uniqueness. */
  lemma AddNewPairKeepsUniquePairs(store: Store, row: CartRow)
    requires UniquePairs(store)
    requires Check(store, row.username, row.productId) == []
    ensures UniquePairs(AddRoute(store, row, None).store)
  {
    CheckStartsAtFirstMatch(store, row.username, row.productId);
    assert forall i :: 0 <= i < |store| ==> !ForPair(row.username, row.productId)(store[i]);
  }

  /** Routes other than `add` keep pair-uniqueness. */
  lemma RoutesKeepUniquePairs(store: Store, username: string, productId: string, quantity: int)
    requires UniquePairs(store)
    ensures UniquePairs(Increment(store, username, productId))
    ensures UniquePairs(SetQuantity(store, username, productId, quantity))
    ensures UniquePairs(DeleteOne(store, username, productId))
    ensures UniquePairs(DeleteAll(store, username))
  {
    match FirstMatch(store, username, productId) {
      case None =>
      case Some(i) =>
        UniquePairsUpdate(store, i, store[i].(quantity := store[i].quantity + 1));
        UniquePairsUpdate(store, i, store[i].(quantity := quantity));
        UniquePairsRemove(store, i);
    }
    DeleteAllKeepsUniquePairs(store, username);
  }

  /** Changing a row without changing its pair keeps pair-uniqueness. */
  lemma UniquePairsUpdate(store: Store, i: nat, v: CartRow)
    requires UniquePairs(store) && i < |store|
    requires v.username == store[i].username && v.productId == store[i].productId
    ensures UniquePairs(store[i := v])
  {
    var r := store[i := v];
    forall a, b | 0 <= a < b < |r|
      ensures r[a].username != r[b].username || r[a].productId != r[b].productId
    {
      assert r[a].username == store[a].username && r[a].productId == store[a].productId;
      assert r[b].username == store[b].username && r[b].productId == store[b].productId;
    }
  }

  /** Removing a row keeps pair-uniqueness. */
  lemma UniquePairsRemove(store: Store, i: nat)
    requires UniquePairs(store) && i < |store|
    ensures UniquePairs(RemoveAt(store, i))
  {
    var r := RemoveAt(store, i);
    forall a, b | 0 <= a < b < |r|
      ensures r[a].username != r[b].username || r[a].productId != r[b].productId
    {
      var a' := if a < i then a else a + 1;
      var b' := if b < i then b else b + 1;
      assert r[a] == store[a'] && r[b] == store[b'] && a' < b';
    }
  }

  lemma {:induction false} DeleteAllKeepsUniquePairs(store: Store, username: string)
    requires UniquePairs(store)
    ensures UniquePairs(Filter(store, NotOwnedBy(username)))
    decreases |store|
  {
    if |store| > 0 {
      var keep := NotOwnedBy(username);
      assert UniquePairs(store[1..]);
      DeleteAllKeepsUniquePairs(store[1..], username);
      var rest := Filter(store[1..], keep);
      if keep(store[0]) {
        FilterMultiset(store[1..], keep);
        forall x | x in rest
          ensures x.username != store[0].username || x.productId != store[0].productId
        {
          assert multiset(rest)[x] > 0;
          assert x in store[1..];
        }
        UniquePairsCons(store[0], rest);
        assert Filter(store, keep) == [store[0]] + rest;
      } else {
        assert Filter(store, keep) == rest;
      }
    }
  }

  /** A row of a pair no other row has can go in front. */
  lemma UniquePairsCons(row: CartRow, rest: seq<CartRow>)
    requires UniquePairs(rest)
    requires forall x :: x in rest ==> x.username != row.username || x.productId != row.productId
    ensures UniquePairs([row] + rest)
  {
    var r := [row] + rest;
    forall i, j | 0 <= i < j < |r|
      ensures r[i].username != r[j].username || r[i].productId != r[j].productId
    {
      assert r[j] == rest[j - 1];
      if i > 0 {
        assert r[i] == rest[i - 1];
      }
    }
  }

  lemma {:induction false} SubtotalAppend(a: seq<CartRow>, b: seq<CartRow>)
    ensures Subtotal(a + b) == Subtotal(a) + Subtotal(b)
    decreases |b|
  {
    if |b| == 0 {
      assert a + b == a;
    } else {
      assert (a + b)[..|a + b| - 1] == a + b[..|b| - 1];
      SubtotalAppend(a, b[..|b| - 1]);
    }
  }

  /** An empty cart is charged nothing. */
  lemma EmptyCartPaysZero(store: Store, username: string)
    requires Display(store, username) == []
    ensures PayTotal(store, username) == 0.0
  {
    Round2Zero();
  }

  /** After `deleteAll` the user's charge would be zero. */
  lemma PayTotalAfterDeleteAll(store: Store, username: string)
    ensures PayTotal(DeleteAll(store, username), username) == 0.0
  {
    EmptyCartPaysZero(DeleteAll(store, username), username);
  }

  lemma LineAmountOfIncrement(row: CartRow)
    ensures LineAmount(row.(quantity := row.quantity + 1)) == LineAmount(row) + row.price
  {
    assert row.price * (row.quantity + 1) as real == row.price * row.quantity as real + row.price;
  }

  /** `increment` raises the unrounded charge by exactly the price of the
      row it touched. */
  lemma SubtotalAfterIncrement(store: Store, username: string, productId: string)
    requires FirstMatch(store, username, productId).Some?
    ensures Subtotal(Display(Increment(store, username, productId), username))
      == Subtotal(Display(store, username)) + store[FirstMatch(store, username, productId).value].price
  {
    var i := FirstMatch(store, username, productId).value;
    var v := store[i].(quantity := store[i].quantity + 1);
    var keep := OwnedBy(username);
    assert Increment(store, username, productId) == store[i := v];
    FilterUpdate(store, i, v, keep);
    var pre := Filter(store[..i], keep);
    var post := Filter(store[i + 1..], keep);
    SubtotalSplit(pre, store[i], post);
    SubtotalSplit(pre, v, post);
    LineAmountOfIncrement(store[i]);
    assert Display(Increment(store, username, productId), username) == pre + [v] + post;
  }

  lemma SubtotalSplit(pre: seq<CartRow>, row: CartRow, post: seq<CartRow>)
    ensures Subtotal(pre + [row] + post) == Subtotal(pre) + LineAmount(row) + Subtotal(post)
  {
    SubtotalAppend(pre + [row], post);
    assert (pre + [row])[..|pre + [row]| - 1] == pre;
  }

  /** In exact arithmetic the amount charged is a whole number of cents,
      within half a cent of 100 times the unrounded sum. With doubles,
      `totalPrice * 100` need not be whole (19.99 gives 1998.9999999999998). */
  lemma PayChargeIsWholeCents(store: Store, username: string, processor: Charge -> Intent)
    ensures var amount := PayRoute(store, username, None, processor).charge.value.amount;
      amount == amount.Floor as real &&
      Subtotal(Display(store, username)) * 100.0 - 0.5 < amount <= Subtotal(Display(store, username)) * 100.0 + 0.5
  {
    var c := Cents(Subtotal(Display(store, username)));
    assert (c as real).Floor == c;
  }
}
