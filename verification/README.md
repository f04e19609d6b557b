# Bargain Bucket storefront, modelled in Dafny

A model of the core of the Bargain Bucket storefront: an Express/MongoDB
API with a React client. It has four parts.

- **The cart.** The `/cart` routes work over the cart collection: add, check,
  display, increment, update-quantity, delete, deleteAll and pay. The client
  builds on them: the product page's add-or-increment button, the cart
  page's totals, quantity menu and checkout, and the navigation bar's badge.
- **Registration.** The client-side checks run before an account is
  created. Both regular expressions are modelled as ECMAScript evaluates
  them.
- **Reviews.** The review routes, and the product page's count, average
  rating, list and posting form.
- **Accounts and the token gate.** The token gate (`authentication.js`) and
  the account routes (`routes/users.js`). Both write a response without
  returning, so each is modelled as the log of its response writes plus
  whether `next()` was reached.

Every collection is a sequence in insertion order:

- a `find` is a filter;
- a `findOne…` acts on the first match;
- a store call that throws is a `fault: Option<string>` parameter, answered
  by the shared catch block with a 500.

Prices and averages are exact `real`s. `Math.round(x * 100) / 100` is
modelled exactly, with halves rounding up as ECMAScript's `Math.round`
does.

Modules and files:

| file | module | models |
|---|---|---|
| common.dfy | `Common` | `Option`, `Filter`, `FirstIndex`, `RemoveAt`, fresh ids |
| http.dfy | `Http` | status codes, `{success, data/error}` replies, the catch block |
| money.dfy | `Money` | `Math.round` and two-decimal rounding |
| cart_store.dfy | `CartStore` | routes/cart.js over models/cart-model.js |
| cart_client.dfy | `CartClient` | ProductDetail.js add-to-cart, Cart.js |
| navbar.dfy | `Navbar` | Navbar.js |
| register.dfy | `Register` | Register.js: both regexes and `handleSubmit` |
| review_store.dfy | `ReviewStore` | routes/reviews.js over models/review-model.js |
| review_client.dfy | `ReviewClient` | Reviews.js, the review label of ProductDetail.js |
| auth.dfy | `Auth` | authentication.js |
| users.dfy | `Users` | routes/users.js over models/user-model.js |

Three behaviours of the code shape the model:

- **The gate does not stop after a rejection.** It writes its 401 and does
  not return (authentication.js:10-16), so it still calls the verifier. If
  the verifier accepts a missing token, the route runs with the 401 already
  written (`Auth.NoTokenCanStillReachRoute`). A falsy payload other than
  `null` or `undefined` is let through with no user
  (`Auth.FalsyPayloadLetThrough`).
- **A duplicate username is answered with the store's own message.** The
  register route passes the duplicate-key error's message through with a
  500 (routes/users.js:28-33). Only the client replaces it with "Username
  already exists." (`Users.RegisterRoute`, `Register.HandleSubmit`).
- **The password rule does not demand an uppercase letter.** The password
  regex is case-insensitive, so it accepts passwords without the uppercase
  letter its own message asks for (`Register.PasswordWithoutUppercase`).

## Model

| member | source | states |
|---|---|---|
| Http.Guard | routes/cart.js:31-36 | a thrown store error leaves the collection unchanged and answers 500 with the error's message; otherwise the route's own outcome stands |
| Money.JsRound | client/src/components/Cart.js:87 | `Math.round` gives the integer within half a unit, halves going up |
| Money.JsRoundUnique | client/src/components/Cart.js:87 | only one integer lies in that half-open window, so the rounding is determined |
| Money.Round2 | routes/cart.js:189-194 | the two-decimal total is a whole number of cents, off by at most half a cent (below exclusive, above inclusive) |
| Money.Round2OfCentAmount | routes/cart.js:189-194 | an amount already in whole cents is left unchanged |
| Money.Round2Idempotent | client/src/components/Cart.js:87 | rounding an already rounded total changes nothing |
| Money.Round2Monotonic | client/src/components/Reviews.js:54-55 | the rounding never reverses the order of two amounts |
| CartStore.DisplayIsUsersRows | routes/cart.js:64-81 | `display` returns every row of the user, as often as stored, and nothing else |
| CartStore.CheckIsPairRows | routes/cart.js:42-61 | `check` returns every row of the (username, productId) pair and nothing else |
| CartStore.Increment | routes/cart.js:91-94 | `$inc` raises the quantity of the first row of the pair by one and changes no other row; with no match nothing changes |
| CartStore.SetQuantity | routes/cart.js:117-120 | the first row of the pair gets the sent quantity, whatever it is; no other row changes |
| CartStore.DeleteOne | routes/cart.js:142 | `deleteOne` removes exactly the first row of the pair, as a multiset |
| CartStore.DeleteAll | routes/cart.js:161 | `deleteMany` leaves the user no rows and keeps every other user's rows |
| CartStore.AddRoute | routes/cart.js:7-37 | `add` appends the row exactly as sent and answers with it; a fault changes nothing |
| CartStore.CheckRoute | routes/cart.js:42-61 | `check` leaves the collection alone; finding no row is still a 200 success |
| CartStore.DisplayRoute | routes/cart.js:64-81 | `display` leaves the collection alone; finding no row is still a 200 success |
| CartStore.IncrementRoute | routes/cart.js:84-106 | `increment` answers 200 even when no row matched, and then changes nothing |
| CartStore.UpdateQuantityRoute | routes/cart.js:109-132 | `update-quantity` answers 200 and stores any quantity, with no bound |
| CartStore.DeleteRoute | routes/cart.js:135-154 | `delete` answers 200 with the deleted count (`deletedCount` of the driver's result), which makes up exactly the drop in size |
| CartStore.DeleteAllRoute | routes/cart.js:157-173 | `deleteAll` answers with the deleted count (`deletedCount` of the driver's result): the number of the user's rows it removed |
| CartStore.PayRoute | routes/cart.js:176-212 | `pay` charges the cents of the user's stored rows in "cad"; the status is 200 exactly when the processor creates the intent, and then the client secret is returned |
| CartStore.PayChargeIsWholeCents | routes/cart.js:189-198 | in exact arithmetic, the amount charged is a whole number within half a cent of 100 times the stored subtotal |
| CartStore.CheckStartsAtFirstMatch | routes/cart.js:91-94 | `findOneAndUpdate` acts on exactly the first row `check` returns, and there is none exactly when `check` is empty |
| CartStore.CheckAfterAdd | routes/cart.js:18-25 | `add` never merges: the new row goes behind the pair's existing rows |
| CartStore.CheckAfterIncrement | routes/cart.js:91-94 | after `increment`, `check` returns the same rows with only the first one's quantity one higher |
| CartStore.CheckAfterSetQuantity | routes/cart.js:117-120 | after `update-quantity`, `check` returns the same rows with only the first one's quantity replaced |
| CartStore.CheckAfterDeleteOne | routes/cart.js:142 | after `delete`, `check` loses exactly its first row; other duplicates of the pair stay |
| CartStore.IncrementKeepsOtherPairs | routes/cart.js:91-94 | `increment` of one pair leaves every other pair's rows as they were |
| CartStore.AddKeepsOtherPairs | routes/cart.js:18-25 | `add` of one pair leaves every other pair's rows as they were |
| CartStore.OtherCartsUntouched | routes/cart.js:7-173 | every cart route acting for one user leaves each other user's rows unchanged, in order |
| CartStore.DeleteAllKeepsOthers | routes/cart.js:161 | `deleteMany` for one user keeps each other user's rows in order |
| CartStore.UniquePairsCheckAtMostOne | routes/cart.js:42-61 | with one row per pair, `check` finds at most one row |
| CartStore.AddBreaksUniquePairs | routes/cart.js:18-25 | `add` for a pair already in the cart creates a duplicate row |
| CartStore.AddNewPairKeepsUniquePairs | routes/cart.js:18-25 | `add` for a new pair keeps one row per pair |
| CartStore.RoutesKeepUniquePairs | routes/cart.js:84-173 | increment, update-quantity, delete and deleteAll keep one row per pair |
| CartStore.DeleteAllKeepsUniquePairs | routes/cart.js:161 | deleteAll keeps one row per pair |
| CartStore.SubtotalAppend | routes/cart.js:191-193 | the running sum over two parts is the sum of their sums |
| CartStore.EmptyCartPaysZero | routes/cart.js:189-194 | a user with no rows is charged 0 |
| CartStore.PayTotalAfterDeleteAll | routes/cart.js:157-194 | after deleteAll, the next pay charges 0 |
| CartStore.SubtotalAfterIncrement | routes/cart.js:91-94 | an increment raises the user's unrounded subtotal by exactly that row's price |
| CartClient.FindProduct | routes/products.js:1-45 | the catalog lookup returns a product with that id, or none exists |
| CartClient.AddToCart | client/src/components/ProductDetail.js:56-126 | a click checks the pair first; it sends `add` exactly when the pair has no row and the product is found, and then the new row; it sends `increment` exactly when a row exists |
| CartClient.FirstClickAddsRow | client/src/components/ProductDetail.js:80-108 | the first click creates the pair's one row, with quantity 1 and the product's snapshot |
| CartClient.NextClickIncrements | client/src/components/ProductDetail.js:110-120 | a click on a pair with one row raises its quantity by one |
| CartClient.RepeatedAddToCart | client/src/components/ProductDetail.js:56-126 | n clicks on a new pair leave exactly one row, holding quantity n and the first click's snapshot |
| CartClient.AddToCartFrame | client/src/components/ProductDetail.js:56-126 | a click for one pair leaves every other pair's rows as they were |
| CartClient.AddToCartKeepsUniquePairs | client/src/components/ProductDetail.js:56-126 | unlike a bare `add`, the click protocol keeps one row per pair |
| CartClient.DisplayCart | client/src/components/Cart.js:55-95 | the empty message shows exactly when no rows came back; then the old rows and total stay; otherwise the fetched rows are shown |
| CartClient.ShownTotalIsCharged | client/src/components/Cart.js:81-87 | whenever the cart page shows a total, it equals the amount the pay route charges |
| CartClient.LinePrice | client/src/components/Cart.js:316-317 | a line's shown price is a whole number of cents within half a cent of price times quantity |
| CartClient.LinePricesDrift | client/src/components/Cart.js:316-317 | the shown line prices add up to within half a cent per line of the exact subtotal |
| CartClient.TotalNearLinePrices | client/src/components/Cart.js:81-87 | the shown total and the sum of shown line prices differ by at most half a cent per line plus half a cent |
| CartClient.TotalDiffersFromLinePrices | client/src/components/Cart.js:81-87 | they can differ: two lines of half a cent show 0.01 each and a total of 0.01 |
| CartClient.QuantityChange | client/src/components/Cart.js:102-130 | a menu choice sends one update-quantity, and the pair's first row then holds that value |
| CartClient.MenuKeepsQuantityInRange | client/src/components/Cart.js:295-311 | through the menu a quantity can only become 1 to 10 |
| CartClient.SubmitPayment | client/src/components/Cart.js:198-251 | pay comes first; a failed pay stops with the spinner on and the cart kept; otherwise the card is confirmed; the cart is cleared exactly when the confirmation did not throw; success implies the cart was cleared |
| CartClient.DeclinedPaymentClearsCart | client/src/components/Cart.js:228-241 | a declined card still empties the cart and shows an error, without success |
| Navbar.UnitCount | client/src/components/Navbar.js:35-38 | with non-negative quantities the count is non-negative and at least each row's quantity; when every quantity is 1 it is the number of rows |
| Navbar.UnitCountAppend | client/src/components/Navbar.js:35-38 | the badge count over two parts is the sum of their counts |
| Navbar.BadgeAfterIncrement | client/src/components/Navbar.js:23-47 | an increment that found its row raises the badge by one |
| Navbar.BadgeAfterDeleteAll | client/src/components/Navbar.js:23-47 | after deleteAll the badge shows 0 |
| Navbar.BadgeAfterAddToCart | client/src/components/Navbar.js:23-47 | each add-to-cart click that gets through raises the badge by one |
| Navbar.SetCounter | client/src/components/Navbar.js:23-47 | the badge becomes the sum of the fetched rows' quantities, 0 when none; the user and token are kept |
| Navbar.BadgeCountsStoredUnits | client/src/components/Navbar.js:23-47 | after fetching the cart the badge shows the units stored for the user |
| Navbar.Logout | client/src/components/Navbar.js:55-68 | logout clears the user, the authentication flag and the stored token, but not the badge count |
| Navbar.Render | client/src/components/Navbar.js:79-146 | the cart and logout appear exactly for a signed-in user; the title leads to "/landing" then, else to "/" |
| Navbar.LogoutHidesCart | client/src/components/Navbar.js:55-112 | after logout the bar hides the cart and logout, and the title leads to "/" |
| Register.Canon | client/src/components/Register.js:22-34 | case-insensitive matching maps only 'a' to 'z' to upper case; every other character stays |
| Register.LetterRanges | client/src/components/Register.js:22-34 | under the `i` flag, `[a-z]` and `[A-Z]` both match exactly the ASCII letters |
| Register.UsernameClassChars | client/src/components/Register.js:22-26 | the username class matches exactly letters, digits, `_` and `-` |
| Register.PasswordClassChars | client/src/components/Register.js:28-34 | under the `i` flag the lower and upper classes both mean "a letter"; the body class means letter or digit |
| Register.SingleLineAnchors | client/src/components/Register.js:22-34 | on a one-line string, the `m` flag's anchors match only at its start and end |
| Register.UsernameTestMeans | client/src/components/Register.js:22-26 | on one line, the username regex accepts exactly 3 to 16 letters, digits, `_` or `-` |
| Register.LookAheadOnOneLine | client/src/components/Register.js:28-34 | on one line, a `(?=.*[…])` lookahead holds exactly when some character is in the class |
| Register.PasswordLookAheads | client/src/components/Register.js:28-34 | on one line, the lower and upper lookaheads both mean "has a letter", and the digit lookahead means "has a digit" |
| Register.PasswordTestMeans | client/src/components/Register.js:28-34 | on one line, the password regex accepts exactly at least 5 letters or digits with a letter and a digit |
| Register.PasswordWithoutUppercase | client/src/components/Register.js:28-34 | "abc12" passes the password check although it has no uppercase letter |
| Register.UsernameAcrossLines | client/src/components/Register.js:22-26 | the `m` flag lets a value with a line break pass although it is no valid username |
| Register.Validate | client/src/components/Register.js:18-38 | the first failing check gives its message: empty username, username rule, password rule, mismatch; none fails exactly when all pass |
| Register.HandleSubmit | client/src/components/Register.js:15-62 | a failing check sends nothing and shows its message; a valid form sends its credentials; acceptance clears the form with the success message; refusal shows "Username already exists." |
| Register.SentExactlyWhenValid | client/src/components/Register.js:15-44 | on one-line input, credentials are sent exactly when the username and password rules hold and the passwords match |
| Register.EmptyUsernameMessageFirst | client/src/components/Register.js:18-20 | an empty username is reported as empty, before the regex |
| Register.SuccessClearsForm | client/src/components/Register.js:47-53 | an accepted registration clears all three fields and shows only the success message |
| Register.ErrorHiddenUnderSuccess | client/src/components/Register.js:129-148 | while a success message is up no error alert is shown |
| Register.SubmitAgainstServer | client/src/components/Register.js:41-60 | a valid form against the register route: accepted exactly when the name is free, and then it creates the user |
| ReviewStore.NewReview | routes/reviews.js:16-22 | a new review carries the five sent fields under an id no stored review has |
| ReviewStore.AddRoute | routes/reviews.js:6-34 | add stores the review at the end and answers with it; a fault changes nothing |
| ReviewStore.ListRoute | routes/reviews.js:37-56 | the listing is the product's reviews in store order; the store is untouched |
| ReviewStore.ListIsProductReviews | routes/reviews.js:43 | the listing holds each review of the product as often as stored, and no other |
| ReviewStore.DeleteRoute | routes/reviews.js:59-77 | deleting an unknown id changes nothing and answers null; a known id removes exactly that review and answers with it |
| ReviewStore.DeleteIgnoresRequester | routes/reviews.js:59-77 | the outcome does not depend on who asks: anyone with a token can delete any review |
| ReviewStore.AddKeepsUniqueIds | routes/reviews.js:16-22 | add keeps review ids unique |
| ReviewStore.DeleteKeepsUniqueIds | routes/reviews.js:65 | delete keeps review ids unique |
| ReviewStore.DeleteRemovesOnlyThatReview | routes/reviews.js:65 | with unique ids, no review with that id remains and every other review stays |
| ReviewStore.AddThenDelete | routes/reviews.js:6-77 | deleting the review just added restores the store |
| ReviewStore.ListAfterAdd | routes/reviews.js:16-43 | a new review appears at the end of its product's listing; other listings are unchanged |
| ReviewClient.Summarize | client/src/components/Reviews.js:36-55 | the count is the number of reviews; a star total of 0 gives 0; otherwise the average is in whole cents, within half a cent of the mean |
| ReviewClient.EmptyTotalIsZero | client/src/components/Reviews.js:48-50 | an empty list totals 0, so the zero guard before the division also covers the empty list |
| ReviewClient.TotalBounds | client/src/components/Reviews.js:42-45 | with ratings of 0 to 5 stars, the total is between 0 and 5 stars per review |
| ReviewClient.AverageInRange | client/src/components/Reviews.js:42-55 | with ratings of 0 to 5 stars, the average shown is between 0 and 5 |
| ReviewClient.TotalOfUniform | client/src/components/Reviews.js:42-45 | identical ratings add up to the rating times the count |
| ReviewClient.UniformAverage | client/src/components/Reviews.js:42-55 | when every review gives the same rating, the average is that rating |
| ReviewClient.DecimalString | client/src/components/ProductDetail.js:152-161 | a count prints as a non-empty string of digits, with no leading zero, whose decimal value is the count |
| ReviewClient.ReviewLabel | client/src/components/ProductDetail.js:152-161 | the label is "Based on ", then digits whose value is the count, then " review" for one and " reviews" otherwise; it is "Based on 1 review" for one and ends in "s" exactly when the count is not 1 |
| ReviewClient.LabelCountsReviews | client/src/components/ProductDetail.js:152-161 | the digits in the label spell the number of the product's stored reviews; it ends in "s" exactly when that number is not 1 |
| ReviewClient.EmptyNotice | client/src/components/Reviews.js:214-218 | the no-reviews message shows exactly when the list is empty |
| ReviewClient.DeleteButtonsOnOwnReviews | client/src/components/Reviews.js:198 | of a product's listing, the reviews showing a delete button are exactly that product's reviews by the signed-in user |
| ReviewClient.HiddenButtonStillDeletable | client/src/components/Reviews.js:198 | hiding the delete button protects nothing: a review shown without the button still goes when its delete is sent |
| ReviewClient.Submit | client/src/components/Reviews.js:72-107 | the posted review carries the form's text and rating, the product and the signed-in user; success resets the form to empty text and 0 stars; failure keeps it |
| ReviewClient.SubmittedReviewIsListed | client/src/components/Reviews.js:85-100 | a submitted review with a rating ends its product's listing under the signed-in user's name |
| Auth.TokenOf | authentication.js:7 | the token is the `auth-token` header, when present |
| Auth.AfterVerify | authentication.js:18-36 | after verification: a throw answers 500 and stops; a payload goes on silently; a falsy one is answered 401 "Invalid token", then goes on when it is not null or undefined and otherwise stops after the 500 from reading its `.id` |
| Auth.Authenticate | authentication.js:4-38 | a missing token is answered 401 first; `next()` runs exactly when the verifier returned a payload or a non-nullish falsy value; a throw ends with its 500; only 401 and 500 are written |
| Auth.OnlyTokenHeaderRead | authentication.js:7 | the gate's outcome depends only on the `auth-token` header |
| Auth.ValidTokenPasses | authentication.js:18-30 | a valid token passes silently with its subject as the user |
| Auth.NoTokenFallsThrough | authentication.js:10-36 | without a token the gate writes 401, then the verifier's throw adds a 500 |
| Auth.NoTokenCanStillReachRoute | authentication.js:10-30 | nothing after the 401 stops the request; a verifier accepting the missing token lets the route run |
| Auth.FalsyPayloadLetThrough | authentication.js:20-30 | a falsy payload other than null or undefined is answered 401, then let through with no user |
| Auth.NullishPayloadStops | authentication.js:20-36 | a present token whose payload is null or undefined gets 401 "Invalid token", then the 500 from reading `.id`, and stops |
| Auth.NextOnlyWithoutServerError | authentication.js:4-38 | whenever `next()` runs, only 401s have been written |
| Users.RegisterRoute | routes/users.js:8-34 | a free name is stored with the hashed password under a fresh id, answered "User … has been created"; a taken name or a fault answers 500 and changes nothing |
| Users.RegisterKeepsWellformed | models/user-model.js:9 | registration keeps usernames and ids unique |
| Users.RegisterStoresOnlyHash | routes/users.js:15-21 | a hash that never returns its input never stores the plaintext password |
| Users.LoginRoute | routes/users.js:37-69 | a missing user or a fault gets the fixed "does not exist" 500; otherwise a token for the found user is written, and after a 500 "Invalid password" when the comparison fails |
| Users.FoundExactlyWhenTaken | routes/users.js:44 | the lookup by name finds someone exactly when the name is taken |
| Users.TokenIssuedRegardlessOfPassword | routes/users.js:47-62 | the last attempted write does not depend on the password: after the 500 for a wrong one, a token write is still attempted |
| Users.RegisterThenLogin | routes/users.js:8-69 | registering and logging in with the same password writes one token for the new user |
| Users.VerifyTokenRoute | routes/users.js:91-121 | a missing token writes `{status: false}` first; a present one that is not falsy gets one write; the last write is `{status: true}` exactly when the verifier did not throw, otherwise a 500 |
| Users.ValidTokenConfirmed | routes/users.js:104-114 | a present, valid token gets a single `{status: true}` |
| Users.RouteAgreesWithGate | routes/users.js:91-121 | the route confirms a token exactly when the gate calls `next()` or reads `.id` of a nullish payload |
| Users.DeleteRoute | routes/users.js:72-86 | deleting an unknown id changes nothing; a known one removes exactly that user and answers with them |
| Users.UserInfoRoute | routes/users.js:124-140 | the info lookup returns the users with the token's id and changes nothing |
| Users.UserInfoAtMostOne | routes/users.js:127 | with unique ids the lookup finds at most one user, the one stored |
| Users.DeleteThenUserInfo | routes/users.js:72-140 | after an account is deleted, its info lookup comes back empty |

## Left out

- I/O and framework machinery are not modelled. This covers HTTP transport,
  Express's "headers already sent" refusal, React state hooks, effects,
  mounted flags and re-rendering. Logs record every write the code attempts.
- Concurrency is not modelled. Each client action finishes before the next
  starts; overlapping `add` requests are out of scope.
- Calls into code that is not visible are function parameters: bcrypt's
  hash and compare, jsonwebtoken's sign and verify, Stripe's payment intent
  and card confirmation, and the document store's failures (`fault`).
- Users.RegisterRoute: the store's duplicate-key message is a parameter,
  because its text comes from the database driver.
- Store ids are naturals, and a fresh id is one above every stored id. A
  malformed id that makes `findByIdAndDelete` throw is a `fault`.
- The schema's required-field validation is folded into `fault`. A review
  posted with a `null` rating fails that validation.
- CartStore.UpdateQuantityRoute: quantities are integers. The schema's
  `Number` type (models/cart-model.js:14-17) and the update route
  (routes/cart.js:114-120) would store a fractional quantity sent in the
  body, which then flows into the pay total and the badge; that case is not
  modelled.
- CartStore.PayChargeIsWholeCents: holds only in exact arithmetic. The
  route computes `totalPrice * 100` in doubles (routes/cart.js:189-199), and
  for ordinary prices that product is not a whole number: 19.99 gives
  1998.9999999999998 and 1.13 gives 112.99999999999999. The processor is then
  asked to charge a non-integer amount, which it is likely to refuse, and the
  route would answer 500. That refusal is not modelled.
- ReviewStore.AddRoute: ratings are whole or half stars, the steps of the
  rating widget (client/src/components/Reviews.js:156). The route stores
  whatever `stars` the body carries (routes/reviews.js:10-22), and the schema
  types it as any `Number` (models/review-model.js:10-13). A rating such as
  3.7 or 0.25, sent to the API directly, would be stored and then enter the
  average (client/src/components/Reviews.js:42-55); that case is not
  modelled.
- CartClient.AddToCart: every request of a click is taken to succeed. In the
  code a failed check, product lookup, add or increment throws into the
  `catch`, and no later request is sent
  (client/src/components/ProductDetail.js:68-125). Those failures are not
  modelled.
- CartClient.QuantityChange: the update-quantity request is taken to
  succeed. A failure is caught and logged, and the cart is not re-fetched
  (client/src/components/Cart.js:114-129). That case is not modelled.
- CartClient.SubmitPayment: the pay request and the card confirmation may
  fail, but the final deleteAll is taken to succeed. A failed deleteAll is
  caught and logged (client/src/components/Cart.js:238-249). That case is
  not modelled.
- Amounts are exact reals, not IEEE-754 doubles. Float effects such as
  `0.1 + 0.2` are not modelled.
- Auth.ReadIdMessage: the text of the TypeError from reading `.id` of null
  or undefined follows current V8. The text depends on the engine version.
- Register.Canon: only ASCII case mapping is modelled. ECMAScript's
  ignoreCase never maps a character at or above U+0080 into ASCII, and every
  class here is ASCII, so nothing else affects a match.
- Register.UsernameAcrossLines: a single-line input field cannot produce
  this input. It shows what the regex accepts, not a reachable form state.
- Register.HandleSubmit: the timer that clears the success message after a
  delay (client/src/components/Register.js:54-56) is not modelled.
- CartClient.AddToCart: the button's three-second disable after a click
  (client/src/components/ProductDetail.js:59-62) is not modelled.
- Users.DeleteRoute and Users.UserInfoRoute take the token's subject id.
  The case where a falsy payload leaves `req.user` undefined is not
  modelled; what the store does with an undefined id depends on the
  driver.
- Dates are passed in as already formatted strings. `toLocaleDateString`
  and number formatting are not modelled.
- Login.js, Landing.js, Home.js, App.js, server.js and routes/products.js
  are not part of this model. The catalog lookup is reduced to
  `CartClient.FindProduct`.
