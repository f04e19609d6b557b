/** The review panel (client/src/components/Reviews.js) and the review count
    line of the product page (client/src/components/ProductDetail.js): the
    count and average shown for a product, who sees a delete button, the
    empty-list message, and what a submitted review carries. */
module ReviewClient {
  import opened Common
  import opened Money
  import opened Http
  import opened ReviewStore

  // ---------------------------------------------------------------------
  // Count and average

  /** `totalStars`, in half-stars: the ratings added up in list order. */
  function TotalHalfStars(reviews: seq<Review>): int
    decreases |reviews|
  {
    if |reviews| == 0 then 0
    else TotalHalfStars(reviews[..|reviews| - 1]) + reviews[|reviews| - 1].stars
  }

  /** What `getReviews` hands to the product page: the number of reviews and
      the average in stars. */
  datatype Summary = Summary(count: nat, average: real)

  /** `getReviews`: an average of 0 when the stars add up to 0, otherwise the
      mean rounded to two decimals. */
  function Summarize(reviews: seq<Review>): (s: Summary)
    ensures s.count == |reviews|
    ensures TotalHalfStars(reviews) == 0 ==> s.average == 0.0
    ensures TotalHalfStars(reviews) != 0 ==> |reviews| > 0 && IsCentAmount(s.average)
    ensures TotalHalfStars(reviews) != 0 ==>
      var mean := TotalHalfStars(reviews) as real / 2.0 / |reviews| as real;
      mean - 0.005 < s.average <= mean + 0.005
  {
    var total := TotalHalfStars(reviews);
    if total == 0 then Summary(|reviews|, 0.0)
    else
      EmptyTotalIsZero(reviews);
      Round2IsCentAmount(total as real / 2.0 / |reviews| as real);
      Summary(|reviews|, Round2(total as real / 2.0 / |reviews| as real))
  }

  /** The empty list totals 0, so `Summarize`'s zero guard also keeps it
      from dividing by a count of 0. */
  lemma EmptyTotalIsZero(reviews: seq<Review>)
    ensures |reviews| == 0 ==> TotalHalfStars(reviews) == 0
  {
  }

  /** Whole and half stars from 0 to 5 give a total between 0 and ten
      half-stars per review. */
  lemma {:induction false} TotalBounds(reviews: seq<Review>)
    requires forall k :: 0 <= k < |reviews| ==> 0 <= reviews[k].stars <= 10
    ensures 0 <= TotalHalfStars(reviews) <= 10 * |reviews|
    decreases |reviews|
  {
    if |reviews| > 0 {
      TotalBounds(reviews[..|reviews| - 1]);
    }
  }

  /** With ratings from the widget (0 to 5 stars), the average shown is
      between 0 and 5. */
  lemma AverageInRange(reviews: seq<Review>)
    requires forall k :: 0 <= k < |reviews| ==> 0 <= reviews[k].stars <= 10
    ensures 0.0 <= Summarize(reviews).average <= 5.0
  {
    TotalBounds(reviews);
    var total := TotalHalfStars(reviews);
    if total != 0 {
      var n := |reviews| as real;
      var mean := total as real / 2.0 / n;
      assert 0.0 <= mean <= 5.0 by {
        assert total as real <= 10.0 * n;
        assert mean * 2.0 * n == total as real;
      }
      Round2Monotonic(0.0, mean);
      Round2Monotonic(mean, 5.0);
      Round2Zero();
      Round2OfCentAmount(5.0);
    }
  }

  lemma {:induction false} TotalOfUniform(reviews: seq<Review>, h: int)
    requires forall k :: 0 <= k < |reviews| ==> reviews[k].stars == h
    ensures TotalHalfStars(reviews) == h * |reviews|
    decreases |reviews|
  {
    if |reviews| > 0 {
      TotalOfUniform(reviews[..|reviews| - 1], h);
    }
  }

  /** When every review gives the same rating, the average is that rating. */
  lemma UniformAverage(reviews: seq<Review>, h: int)
    requires |reviews| > 0
    requires forall k :: 0 <= k < |reviews| ==> reviews[k].stars == h
    ensures Summarize(reviews).average == h as real / 2.0
  {
    TotalOfUniform(reviews, h);
    var n := |reviews| as real;
    if h != 0 {
      var x := h as real / 2.0;
      assert (h * |reviews|) as real / 2.0 / n == x by {
        assert (h * |reviews|) as real == h as real * n;
      }
      assert IsCentAmount(x) by {
        assert x * 100.0 == (h * 50) as real;
      }
      Round2OfCentAmount(x);
    }
  }

  // ---------------------------------------------------------------------
  // Review count line of the product page

  predicate IsDigits(s: string)
  {
    forall k :: 0 <= k < |s| ==> '0' <= s[k] <= '9'
  }

  /** The number a string of decimal digits spells, read left to right. */
  function DigitsValue(s: string): nat
    requires IsDigits(s)
    decreases |s|
  {
    if |s| == 0 then 0
    else DigitsValue(s[..|s| - 1]) * 10 + (s[|s| - 1] - '0') as nat
  }

  /** Decimal digits of a count, as a template literal prints it: they spell
      the count back, with no leading zero. */
  function DecimalString(n: nat): (s: string)
    ensures |s| > 0 && IsDigits(s)
    ensures DigitsValue(s) == n
    ensures |s| > 1 ==> s[0] != '0'
    decreases n
  {
    var digit := ['0' + (n % 10) as char];
    if n < 10 then digit
    else
      var front := DecimalString(n / 10);
      assert (front + digit)[..|front + digit| - 1] == front;
      front + digit
  }

  /** The suffix after the count: singular for exactly one review. */
  function LabelSuffix(numOfReviews: nat): string
  {
    if numOfReviews == 1 then " review" else " reviews"
  }

  /** `Based on ${numOfReviews} review` for exactly one review,
      `Based on ${numOfReviews} reviews` otherwise, zero included. Between
      "Based on " and the suffix stand the digits of the count. */
  function ReviewLabel(numOfReviews: nat): (text: string)
    ensures |text| > 9 + |LabelSuffix(numOfReviews)|
    ensures text[..9] == "Based on "
    ensures text[|text| - |LabelSuffix(numOfReviews)|..] == LabelSuffix(numOfReviews)
    ensures var count := text[9..|text| - |LabelSuffix(numOfReviews)|];
      IsDigits(count) && DigitsValue(count) == numOfReviews
    ensures numOfReviews == 1 ==> text == "Based on 1 review"
    ensures text[|text| - 1] == 's' <==> numOfReviews != 1
  {
    var count := DecimalString(numOfReviews);
    var text := "Based on " + count + LabelSuffix(numOfReviews);
    assert text[9..|text| - |LabelSuffix(numOfReviews)|] == count;
    text
  }

  /** The count in the label is the number of the product's stored
      reviews, and the ending is plural exactly when that is not 1. */
  lemma LabelCountsReviews(store: Store, productId: string)
    ensures var n := Summarize(ListRoute(store, productId, None).reply.body.data).count;
      var text := ReviewLabel(n);
      var count := text[9..|text| - |LabelSuffix(n)|];
      IsDigits(count) && DigitsValue(count) == |Filter(store, ForProduct(productId))|
      && (text[|text| - 1] == 's' <==> |Filter(store, ForProduct(productId))| != 1)
  {
  }

  // ---------------------------------------------------------------------
  // The list

  const NoReviewsMessage: string := "There are no reviews. Be the first person to post a review!"

  /** The delete button shows on a review exactly when it was written by the
      signed-in user. */
  predicate ShowsDelete(review: Review, signedIn: string)
  {
    review.username == signedIn
  }

  /** The delete buttons on a product's review list are on exactly the
      signed-in user's reviews of that product, in list order. */
  lemma DeleteButtonsOnOwnReviews(store: Store, productId: string, signedIn: string)
    ensures var listed := ListRoute(store, productId, None).reply.body.data;
      Filter(listed, (r: Review) => ShowsDelete(r, signedIn))
        == Filter(store, (r: Review) => r.productId == productId && r.username == signedIn)
  {
    FilterFilter(store, ForProduct(productId), (r: Review) => ShowsDelete(r, signedIn),
                 (r: Review) => r.productId == productId && r.username == signedIn);
  }

  /** The empty-list message, when shown. */
  function EmptyNotice(reviews: seq<Review>): (notice: Option<string>)
    ensures notice.Some? <==> |reviews| == 0
    ensures notice.Some? ==> notice.value == NoReviewsMessage
  {
    if |reviews| == 0 then Some(NoReviewsMessage) else None
  }

  /** Hiding the button is all that keeps a review from other users: a
      request for a review the page shows without a button still deletes
      it. */
  lemma HiddenButtonStillDeletable(store: Store, review: Review, signedIn: string, requester: Option<nat>)
    requires review in store && !ShowsDelete(review, signedIn)
    ensures var after := DeleteRoute(store, review.id, requester, None).store;
      |after| == |store| - 1
  {
    var k :| 0 <= k < |store| && store[k] == review;
    assert store[k].id == review.id;
  }

  // ---------------------------------------------------------------------
  // Posting a review

  /** The panel's input state; the rating starts out `null`. */
  datatype ReviewForm = ReviewForm(description: string, stars: Option<int>)

  /** The body posted to /reviews/add: the rating may still be `null`. */
  datatype ReviewBody = ReviewBody(description: string, stars: Option<int>, date: string,
                                   productId: string, username: string)

  datatype Posted = Posted(body: ReviewBody, form: ReviewForm)

  /** `handleSubmit`: the review carries the signed-in username and the
      product the panel is showing; a successful post resets the form to an
      empty description and a rating of 0, a failed one leaves it. `date`
      is the formatted date of the day. */
  function Submit(form: ReviewForm, productId: string, signedIn: string, date: string, accepted: bool)
    : (p: Posted)
    ensures p.body.username == signedIn && p.body.productId == productId
    ensures p.body.description == form.description && p.body.stars == form.stars && p.body.date == date
    ensures accepted ==> p.form == ReviewForm("", Some(0))
    ensures !accepted ==> p.form == form
  {
    var body := ReviewBody(form.description, form.stars, date, productId, signedIn);
    Posted(body, if accepted then ReviewForm("", Some(0)) else form)
  }

  /** A posted review with a rating, stored by the add route, appears in
      the product's list under the signed-in user's name. */
  lemma SubmittedReviewIsListed(store: Store, form: ReviewForm, productId: string, signedIn: string,
                                date: string)
    requires form.stars.Some?
    ensures var body := Submit(form, productId, signedIn, date, true).body;
      var draft := Draft(body.description, body.stars.value, body.date, body.productId, body.username);
      var added := AddRoute(store, draft, None);
      var listed := ListRoute(added.store, productId, None).reply.body.data;
      |listed| > 0 && listed[|listed| - 1] == added.reply.body.data
      && listed[|listed| - 1].username == signedIn
  {
    var body := Submit(form, productId, signedIn, date, true).body;
    var draft := Draft(body.description, body.stars.value, body.date, body.productId, body.username);
    ListAfterAdd(store, draft, productId);
  }
}
