/** The navigation bar (client/src/components/Navbar.js): the cart badge's
    unit count, logout, and what is shown for a signed-in or signed-out
    user. */
module Navbar {
  import opened Common
  import opened CartStore
  import opened CartClient

  /** `setCounter`: the sum of the quantities of the fetched rows, counted
      from 0 in row order. */
  function UnitCount(rows: seq<CartRow>): (count: int)
    ensures (forall k :: 0 <= k < |rows| ==> rows[k].quantity >= 0) ==>
      0 <= count && forall k :: 0 <= k < |rows| ==> rows[k].quantity <= count
    ensures (forall k :: 0 <= k < |rows| ==> rows[k].quantity == 1) ==> count == |rows|
    decreases |rows|
  {
    if |rows| == 0 then 0
    else UnitCount(rows[..|rows| - 1]) + rows[|rows| - 1].quantity
  }

  lemma {:induction false} UnitCountAppend(a: seq<CartRow>, b: seq<CartRow>)
    ensures UnitCount(a + b) == UnitCount(a) + UnitCount(b)
    decreases |b|
  {
    if |b| == 0 {
      assert a + b == a;
    } else {
      assert (a + b)[..|a + b| - 1] == a + b[..|b| - 1];
      UnitCountAppend(a, b[..|b| - 1]);
    }
  }

  lemma UnitCountSplit(pre: seq<CartRow>, row: CartRow, post: seq<CartRow>)
    ensures UnitCount(pre + [row] + post) == UnitCount(pre) + row.quantity + UnitCount(post)
  {
    UnitCountAppend(pre + [row], post);
    assert (pre + [row])[..|pre + [row]| - 1] == pre;
  }

  /** An `increment` that found its row raises the badge by exactly one. */
  lemma BadgeAfterIncrement(store: Store, username: string, productId: string)
    requires Check(store, username, productId) != []
    ensures UnitCount(Display(Increment(store, username, productId), username))
      == UnitCount(Display(store, username)) + 1
  {
    CheckStartsAtFirstMatch(store, username, productId);
    var i := FirstMatch(store, username, productId).value;
    var v := store[i].(quantity := store[i].quantity + 1);
    var keep := OwnedBy(username);
    assert Increment(store, username, productId) == store[i := v];
    FilterUpdate(store, i, v, keep);
    var pre := Filter(store[..i], keep);
    var post := Filter(store[i + 1..], keep);
    UnitCountSplit(pre, store[i], post);
    UnitCountSplit(pre, v, post);
    assert Display(Increment(store, username, productId), username) == pre + [v] + post;
  }

  /** After `deleteAll` the badge shows 0. */
  lemma BadgeAfterDeleteAll(store: Store, username: string)
    ensures UnitCount(Display(DeleteAll(store, username), username)) == 0
  {
  }

  /** Every add-to-cart click that gets through raises the badge by one,
      whether it added a row or incremented one. */
  lemma BadgeAfterAddToCart(store: Store, catalog: seq<Product>, username: string, productId: string)
    requires Check(store, username, productId) != [] || FindProduct(catalog, productId).Some?
    ensures UnitCount(Display(AddToCart(store, catalog, username, productId).store, username))
      == UnitCount(Display(store, username)) + 1
  {
    if Check(store, username, productId) == [] {
      var row := NewRow(username, FindProduct(catalog, productId).value);
      assert AddToCart(store, catalog, username, productId).store == store + [row];
      FilterAppend(store, [row], OwnedBy(username));
      assert Filter([row], OwnedBy(username)) == [row] by {
        assert [row][1..] == [];
      }
      UnitCountAppend(Display(store, username), [row]);
      assert [row][..0] == [];
    } else {
      assert AddToCart(store, catalog, username, productId).store == Increment(store, username, productId);
      BadgeAfterIncrement(store, username, productId);
    }
  }

  /** The signed-in user as the client keeps it. */
  datatype UserInfo = UserInfo(username: string, id: string)

  /** The client's session: user, whether it is authenticated, the token
      kept in local storage, and the badge count. */
  datatype Session = Session(userInfo: UserInfo, isAuthenticated: bool, token: Option<string>, cartItems: int)

  /** `setCounter` once POST /cart/display has answered. */
  function SetCounter(session: Session, fetched: seq<CartRow>): (s: Session)
    ensures s.userInfo == session.userInfo && s.isAuthenticated == session.isAuthenticated
    ensures s.token == session.token
    ensures s.cartItems == UnitCount(fetched)
    ensures fetched == [] ==> s.cartItems == 0
  {
    session.(cartItems := UnitCount(fetched))
  }

  /** The badge shown after `setCounter` counts the units in the user's
      stored rows: one more after each add-to-cart click that gets through. */
  lemma BadgeCountsStoredUnits(session: Session, store: Store, username: string)
    ensures var fetched := DisplayRoute(store, username, None).reply.body.data;
      SetCounter(session, fetched).cartItems == UnitCount(Display(store, username))
  {
  }

  /** `handleLogout`: user cleared, not authenticated, token removed; the
      badge count is left as it was. */
  function Logout(session: Session): (s: Session)
    ensures s.userInfo == UserInfo("", "") && !s.isAuthenticated && s.token.None?
    ensures s.cartItems == session.cartItems
  {
    Session(UserInfo("", ""), false, None, session.cartItems)
  }

  /** What the bar shows: where the title links, and whether the cart badge
      and the logout button appear. */
  datatype Bar = Bar(titleLink: string, showsCart: bool, showsLogout: bool)

  function Render(session: Session): (b: Bar)
    ensures b.showsCart <==> session.userInfo.username != ""
    ensures b.showsLogout <==> session.userInfo.username != ""
    ensures b.titleLink == (if session.userInfo.username == "" then "/" else "/landing")
  {
    var signedIn := session.userInfo.username != "";
    Bar(if signedIn then "/landing" else "/", signedIn, signedIn)
  }

  /** After logout the bar hides the cart and the logout button and its
      title leads to the login page. */
  lemma LogoutHidesCart(session: Session)
    ensures var b := Render(Logout(session));
      !b.showsCart && !b.showsLogout && b.titleLink == "/"
  {
  }
}
