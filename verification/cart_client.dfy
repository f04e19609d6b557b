/** The storefront client's side of the cart: the add-to-cart button of the
    product page (client/src/components/ProductDetail.js) and the cart page
    (client/src/components/Cart.js). Each client action is modelled as the
    requests it sends, in order, and their effect on the cart collection,
    assuming every request reaches the routes of `CartStore` and the store
    does not fail. */
module CartClient {
  import opened Common
  import opened Money
  import opened Http
  import opened CartStore

  /** A catalog product, as GET /products/:id returns it. */
  datatype Product = Product(id: string, name: string, price: real, image: string, description: string)

  /** `Product.findById(id)`: the product, or `null`. */
  function FindProduct(catalog: seq<Product>, id: string): (r: Option<Product>)
    ensures r.Some? ==> r.value in catalog && r.value.id == id
    ensures r.None? ==> forall q :: q in catalog ==> q.id != id
  {
    match FirstIndex(catalog, (q: Product) => q.id == id)
    case None => None
    case Some(i) => Some(catalog[i])
  }

  /** A request the client sends, or a call it makes to the payment
      processor's card confirmation. */
  datatype Request =
    | CheckRequest(username: string, productId: string)
    | ProductRequest(productId: string)
    | AddRequest(row: CartRow)
    | IncrementRequest(username: string, productId: string)
    | UpdateQuantityRequest(username: string, productId: string, quantity: int)
    | PayRequest(username: string)
    | ConfirmCard(clientSecret: string)
    | DeleteAllRequest(username: string)

  /** What one client action did: the requests it sent and the cart
      collection afterwards. */
  datatype Action = Action(requests: seq<Request>, store: Store)

  predicate SendsAdd(requests: seq<Request>)
  {
    exists i :: 0 <= i < |requests| && requests[i].AddRequest?
  }

  predicate SendsIncrement(requests: seq<Request>)
  {
    exists i :: 0 <= i < |requests| && requests[i].IncrementRequest?
  }

  /** The row a first add-to-cart creates: quantity 1 and the product's
      image, name and price as they are at that moment. */
  function NewRow(username: string, product: Product): CartRow
  {
    CartRow(username, product.id, 1, product.image, product.name, product.price)
  }

  /** `addToCart`: ask `check` first; with no row for the pair, fetch the
      product and `add` a new row, otherwise `increment`. A product that is
      not found makes reading its fields throw, which is caught: nothing is
      added. */
  function AddToCart(store: Store, catalog: seq<Product>, username: string, productId: string): (a: Action)
    ensures |a.requests| > 0 && a.requests[0] == CheckRequest(username, productId)
    ensures SendsAdd(a.requests) <==>
      Check(store, username, productId) == [] && FindProduct(catalog, productId).Some?
    ensures SendsIncrement(a.requests) <==> Check(store, username, productId) != []
    ensures SendsAdd(a.requests) ==>
      a.requests[|a.requests| - 1] == AddRequest(NewRow(username, FindProduct(catalog, productId).value))
  {
    var found := CheckRoute(store, username, productId, None).reply.body.data;
    if |found| == 0 then
      match FindProduct(catalog, productId)
      case None =>
        var requests := [CheckRequest(username, productId), ProductRequest(productId)];
        assert !SendsAdd(requests) && !SendsIncrement(requests);
        Action(requests, store)
      case Some(product) =>
        var row := NewRow(username, product);
        var requests := [CheckRequest(username, productId), ProductRequest(productId), AddRequest(row)];
        assert requests[2].AddRequest?;
        assert !SendsIncrement(requests);
        Action(requests, AddRoute(store, row, None).store)
    else
      var requests := [CheckRequest(username, productId), IncrementRequest(username, productId)];
      assert requests[1].IncrementRequest?;
      assert !SendsAdd(requests);
      Action(requests, IncrementRoute(store, username, productId, None).store)
  }

  /** `n` add-to-cart clicks in sequence, each finishing before the next. */
  function AddToCartTimes(store: Store, catalog: seq<Product>, username: string, productId: string, n: nat)
    : Store
    decreases n
  {
    if n == 0 then store
    else AddToCart(AddToCartTimes(store, catalog, username, productId, n - 1), catalog, username, productId).store
  }

  lemma TimesStep(store: Store, catalog: seq<Product>, username: string, productId: string, prev: nat, n: nat)
    requires prev + 1 == n
    ensures AddToCartTimes(store, catalog, username, productId, n)
      == AddToCart(AddToCartTimes(store, catalog, username, productId, prev), catalog, username, productId).store
  {
  }

  /** A click on a product not yet in the cart creates its one row. */
  lemma FirstClickAddsRow(store: Store, catalog: seq<Product>, username: string, product: Product)
    requires Check(store, username, product.id) == []
    requires FindProduct(catalog, product.id) == Some(product)
    ensures Check(AddToCart(store, catalog, username, product.id).store, username, product.id)
      == [NewRow(username, product)]
  {
    var row := NewRow(username, product);
    assert AddToCart(store, catalog, username, product.id).store == AddRoute(store, row, None).store;
    CheckAfterAdd(store, row);
    assert Check(store, username, product.id) + [row] == [row];
  }

  /** A click on a product whose one row is in the cart bumps that row. */
  lemma NextClickIncrements(store: Store, catalog: seq<Product>, username: string, productId: string,
                            row: CartRow)
    requires Check(store, username, productId) == [row]
    ensures Check(AddToCart(store, catalog, username, productId).store, username, productId)
      == [row.(quantity := row.quantity + 1)]
  {
    assert AddToCart(store, catalog, username, productId).store == Increment(store, username, productId);
    CheckAfterIncrement(store, username, productId);
    assert [row][1..] == [];
  }

  /** The first click on a pair not yet in the cart creates its row. */
  lemma OneClick(store: Store, catalog: seq<Product>, username: string, product: Product)
    requires Check(store, username, product.id) == []
    requires FindProduct(catalog, product.id) == Some(product)
    ensures Check(AddToCartTimes(store, catalog, username, product.id, 1), username, product.id)
      == [NewRow(username, product).(quantity := 1)]
  {
    var after := AddToCartTimes(store, catalog, username, product.id, 1);
    assert after == AddToCart(store, catalog, username, product.id).store;
    FirstClickAddsRow(store, catalog, username, product);
    assert NewRow(username, product).(quantity := 1) == NewRow(username, product);
  }

  /** Click `n` on a pair whose one row holds quantity `prev = n - 1`
      raises it to `n`. */
  lemma ClickAgain(store: Store, catalog: seq<Product>, username: string, product: Product, prev: nat, n: nat)
    requires prev + 1 == n
    requires Check(AddToCartTimes(store, catalog, username, product.id, prev), username, product.id)
      == [NewRow(username, product).(quantity := prev)]
    ensures Check(AddToCartTimes(store, catalog, username, product.id, n), username, product.id)
      == [NewRow(username, product).(quantity := n)]
  {
    var before := AddToCartTimes(store, catalog, username, product.id, prev);
    var after := AddToCartTimes(store, catalog, username, product.id, n);
    TimesStep(store, catalog, username, product.id, prev, n);
    var row := NewRow(username, product).(quantity := prev);
    assert row.(quantity := row.quantity + 1) == NewRow(username, product).(quantity := n);
    NextClickIncrements(before, catalog, username, product.id, row);
    assert Check(after, username, product.id) == [row.(quantity := row.quantity + 1)];
  }

  /** The add-or-increment protocol works: starting with no row for the
      pair, `n` clicks leave exactly one row for it, holding quantity `n` and
      the snapshot taken at the first click. */
  lemma {:induction false} RepeatedAddToCart(store: Store, catalog: seq<Product>, username: string,
                                             product: Product, n: nat)
    requires Check(store, username, product.id) == []
    requires FindProduct(catalog, product.id) == Some(product)
    requires n >= 1
    ensures Check(AddToCartTimes(store, catalog, username, product.id, n), username, product.id)
      == [NewRow(username, product).(quantity := n)]
    decreases n
  {
    if n == 1 {
      OneClick(store, catalog, username, product);
    } else {
      var prev: nat := n - 1;
      RepeatedAddToCart(store, catalog, username, product, prev);
      ClickAgain(store, catalog, username, product, prev, n);
    }
  }

  /** One click for a pair leaves every other pair's rows as they were. */
  lemma AddToCartFrame(store: Store, catalog: seq<Product>, username: string, productId: string,
                       otherUser: string, otherProduct: string)
    requires otherUser != username || otherProduct != productId
    ensures Check(AddToCart(store, catalog, username, productId).store, otherUser, otherProduct)
      == Check(store, otherUser, otherProduct)
  {
    if Check(store, username, productId) == [] {
      match FindProduct(catalog, productId) {
        case None =>
          assert AddToCart(store, catalog, username, productId).store == store;
        case Some(product) =>
          var row := NewRow(username, product);
          assert AddToCart(store, catalog, username, productId).store == AddRoute(store, row, None).store;
          AddKeepsOtherPairs(store, row, otherUser, otherProduct);
      }
    } else {
      assert AddToCart(store, catalog, username, productId).store == Increment(store, username, productId);
      IncrementKeepsOtherPairs(store, username, productId, otherUser, otherProduct);
    }
  }

  /** Unlike a bare `add`, the client protocol keeps one row per pair. */
  lemma AddToCartKeepsUniquePairs(store: Store, catalog: seq<Product>, username: string, productId: string)
    requires UniquePairs(store)
    ensures UniquePairs(AddToCart(store, catalog, username, productId).store)
  {
    if Check(store, username, productId) == [] {
      match FindProduct(catalog, productId) {
        case None =>
        case Some(product) =>
          AddNewPairKeepsUniquePairs(store, NewRow(username, product));
      }
    } else {
      RoutesKeepUniquePairs(store, username, productId, 0);
    }
  }

  // ---------------------------------------------------------------------
  // The cart page
  // ---------------------------------------------------------------------

  const EmptyCartMessage: string := "There are no items in the cart."

  /** The cart page's state: the empty-cart message, the rows shown and the
      total shown. */
  datatype CartView = CartView(empty: string, cart: seq<CartRow>, totalPrice: real)

  /** Table, total and pay button are rendered only while `empty` is "". */
  predicate ShowsCart(view: CartView)
  {
    view.empty == ""
  }

  /** `displayCart` with the rows POST /cart/display answered. With no rows
      only the message is set: the rows and total from before stay. */
  function DisplayCart(view: CartView, fetched: seq<CartRow>): (v: CartView)
    ensures v.empty == EmptyCartMessage <==> |fetched| == 0
    ensures ShowsCart(v) <==> |fetched| != 0
    ensures |fetched| == 0 ==> v.cart == view.cart && v.totalPrice == view.totalPrice
    ensures |fetched| != 0 ==> v.cart == fetched
  {
    if |fetched| == 0 then view.(empty := EmptyCartMessage)
    else CartView("", fetched, Round2(Subtotal(fetched)))
  }

  /** Whenever the cart page shows a total, it is the amount the server will
      charge for the same rows. */
  lemma ShownTotalIsCharged(view: CartView, store: Store, username: string)
    ensures var v := DisplayCart(view, Display(store, username));
      ShowsCart(v) ==> v.totalPrice == PayTotal(store, username)
  {
  }

  /** The price shown on a line: that row's amount, rounded to cents. */
  function LinePrice(row: CartRow): (r: real)
    ensures IsCentAmount(r)
    ensures LineAmount(row) - 0.005 < r <= LineAmount(row) + 0.005
  {
    Round2IsCentAmount(LineAmount(row));
    Round2(LineAmount(row))
  }

  /** What a reader adding up the shown line prices gets. */
  function SumOfLinePrices(rows: seq<CartRow>): real
    decreases |rows|
  {
    if |rows| == 0 then 0.0
    else SumOfLinePrices(rows[..|rows| - 1]) + LinePrice(rows[|rows| - 1])
  }

  /** The line prices are rounded one by one, the total once: each line
      contributes at most half a cent of drift. */
  lemma {:induction false} LinePricesDrift(rows: seq<CartRow>)
    ensures Subtotal(rows) - 0.005 * |rows| as real <= SumOfLinePrices(rows)
                                                    <= Subtotal(rows) + 0.005 * |rows| as real
    decreases |rows|
  {
    if |rows| > 0 {
      LinePricesDrift(rows[..|rows| - 1]);
    }
  }

  /** So the shown total and the sum of the shown line prices are within half
      a cent per line, plus half a cent. */
  lemma TotalNearLinePrices(rows: seq<CartRow>)
    ensures Round2(Subtotal(rows)) - 0.005 * (|rows| + 1) as real <= SumOfLinePrices(rows)
                                                                  <= Round2(Subtotal(rows)) + 0.005 * (|rows| + 1) as real
  {
    LinePricesDrift(rows);
  }

  /** ...but they need not be equal: two lines of half a cent each show
      0.01 apiece while the total shows 0.01. */
  lemma TotalDiffersFromLinePrices()
    ensures var row := CartRow("u", "p", 1, "i", "n", 0.005);
      Round2(Subtotal([row, row])) == 0.01 && SumOfLinePrices([row, row]) == 0.02
  {
    var row := CartRow("u", "p", 1, "i", "n", 0.005);
    assert LineAmount(row) == 0.005;
    assert [row, row][..1] == [row];
    assert [row][..0] == [];
    assert Subtotal([row]) == 0.005;
    assert Subtotal([row, row]) == 0.01;
    JsRoundUnique(0.5, 1);
    assert LinePrice(row) == 0.01;
    assert SumOfLinePrices([row]) == 0.01;
    JsRoundUnique(1.0, 1);
  }

  /** The quantity menu offers 1 to 10. */
  const QuantityChoices: seq<int> := [1, 2, 3, 4, 5, 6, 7, 8, 9, 10]

  /** `quantityChange`: the chosen value goes to update-quantity as is. */
  function QuantityChange(store: Store, username: string, productId: string, choice: int): (a: Action)
    ensures a.requests == [UpdateQuantityRequest(username, productId, choice)]
    ensures Check(store, username, productId) != [] ==>
      |Check(a.store, username, productId)| == |Check(store, username, productId)| &&
      Check(a.store, username, productId)[0].quantity == choice
  {
    var after := UpdateQuantityRoute(store, username, productId, choice, None).store;
    assert Check(store, username, productId) != [] ==>
      |Check(after, username, productId)| == |Check(store, username, productId)| &&
      Check(after, username, productId)[0].quantity == choice by {
      if Check(store, username, productId) != [] {
        CheckAfterSetQuantity(store, username, productId, choice);
      }
    }
    Action([UpdateQuantityRequest(username, productId, choice)], after)
  }

  /** Through the menu a quantity can only become one of 1..10, though the
      route itself would store any value. */
  lemma MenuKeepsQuantityInRange(store: Store, username: string, productId: string, choice: int)
    requires choice in QuantityChoices
    requires Check(store, username, productId) != []
    ensures 1 <= Check(QuantityChange(store, username, productId, choice).store, username, productId)[0].quantity <= 10
  {
  }

  // ---------------------------------------------------------------------
  // Checkout
  // ---------------------------------------------------------------------

  /** What the processor's card confirmation reports, or that it threw. */
  datatype Confirmation = Confirmed | Declined(message: string) | ConfirmThrew

  /** The payment dialog's state. `error` is `null` when cleared. */
  datatype PaymentView = PaymentView(error: Option<string>, processing: bool, succeeded: bool)

  datatype Checkout = Checkout(requests: seq<Request>, view: PaymentView, store: Store)

  /** `submitPayment`: pay, confirm the card, then clear the cart. A pay
      request that fails rejects and ends the handler with the spinner still
      on; a confirmation that throws ends it before the clear; a declined
      card still reaches the clear. */
  function SubmitPayment(view: PaymentView, store: Store, username: string,
                         processor: Charge -> Intent, confirm: string -> Confirmation): (c: Checkout)
    ensures |c.requests| > 0 && c.requests[0] == PayRequest(username)
    ensures var pay := PayRoute(store, username, None, processor);
      pay.status != StatusOk ==> c.requests == [PayRequest(username)] && c.store == store && c.view.processing
    ensures var pay := PayRoute(store, username, None, processor);
      pay.status == StatusOk ==> |c.requests| >= 2 && c.requests[1] == ConfirmCard(pay.body.secret)
    ensures DeleteAllRequest(username) in c.requests <==>
      var pay := PayRoute(store, username, None, processor);
      pay.status == StatusOk && !confirm(pay.body.secret).ConfirmThrew?
    ensures DeleteAllRequest(username) in c.requests ==> c.store == DeleteAll(store, username)
    ensures DeleteAllRequest(username) !in c.requests ==> c.store == store
    ensures c.view.succeeded && !view.succeeded ==> DeleteAllRequest(username) in c.requests
  {
    var started := view.(processing := true);
    var pay := PayRoute(store, username, None, processor);
    if pay.status != StatusOk then
      Checkout([PayRequest(username)], started, store)
    else
      var secret := pay.body.secret;
      match confirm(secret)
      case ConfirmThrew =>
        Checkout([PayRequest(username), ConfirmCard(secret)], started, store)
      case Declined(message) =>
        Checkout([PayRequest(username), ConfirmCard(secret), DeleteAllRequest(username)],
                 started.(error := Some("Payment failed " + message), processing := false),
                 DeleteAllRoute(store, username, None).store)
      case Confirmed =>
        Checkout([PayRequest(username), ConfirmCard(secret), DeleteAllRequest(username)],
                 PaymentView(None, false, true),
                 DeleteAllRoute(store, username, None).store)
  }

  /** A declined card still empties the cart. */
  lemma DeclinedPaymentClearsCart(view: PaymentView, store: Store, username: string,
                                  processor: Charge -> Intent, confirm: string -> Confirmation)
    requires PayRoute(store, username, None, processor).status == StatusOk
    requires confirm(PayRoute(store, username, None, processor).body.secret).Declined?
    ensures var c := SubmitPayment(view, store, username, processor, confirm);
      Display(c.store, username) == [] && c.view.succeeded == view.succeeded && c.view.error.Some?
  {
  }
}
