/** What customers read as a product's rating, said in terms of the stored reviews alone. */
module RatingLaws {
  import opened Wrappers
  import opened Rounding
  import opened MapSums
  import opened Reviews

  /** The points of some reviews. */
  ghost function Points(reviews: seq<Review>, ids: set<nat>): map<nat, int>
    requires forall i :: i in ids ==> i < |reviews|
  {
    map i | i in ids :: reviews[i].rating
  }

  /** The stored reviews of a product whose status is Approved. */
  ghost function ApprovedIds(reviews: seq<Review>, product: nat): (ids: set<nat>)
    ensures forall i :: i in ids ==> i < |reviews|
  {
    set i: nat | i < |reviews| && reviews[i].product == product && reviews[i].status == Approved
  }

  lemma PointsNext(reviews: seq<Review>, r: Review, ids: set<nat>)
    requires forall i :: i in ids ==> i < |reviews|
    ensures Points(reviews + [r], ids) == Points(reviews, ids)
    ensures Sum(Points(reviews + [r], ids + {|reviews|})) == Sum(Points(reviews, ids)) + r.rating
  {
    var all := reviews + [r];
    assert forall i :: i in ids ==> all[i] == reviews[i];
    assert all[|reviews|] == r && |reviews| !in ids;
    var m := Points(reviews, ids);
    assert Points(all, ids) == m && |reviews| !in m;
    assert Points(all, ids + {|reviews|}) == m[|reviews| := r.rating];
    SumUpdate<nat>(m, |reviews|, r.rating);
  }

  lemma {:induction false} ApprovedAreCounted(reviews: seq<Review>, product: nat)
    ensures ApprovedCount(reviews, product) == |ApprovedIds(reviews, product)|
    ensures ApprovedSum(reviews, product) == Sum(Points(reviews, ApprovedIds(reviews, product)))
  {
    if reviews == [] {
      assert ApprovedIds(reviews, product) == {};
    } else {
      var front, last := reviews[..|reviews| - 1], reviews[|reviews| - 1];
      var ids := ApprovedIds(front, product);
      assert reviews == front + [last];
      ApprovedAreCounted(front, product);
      PointsNext(front, last, ids);
      assert ApprovedIds(reviews, product)
          == if last.product == product && last.status == Approved then ids + {|front|} else ids;
    }
  }

  /** `average` hundredths are nearest to the mean of `count` ratings with this sum, a tie going to the even one. */
  predicate IsMean(average: int, sum: int, count: nat) {
    var off := 2 * (average * count - 100 * sum);
    off <= count && -off <= count && (off == count || -off == count ==> average % 2 == 0)
  }

  lemma HalfOf(d: real, c: real)
    requires c > 0.0
    ensures d * c <= 0.5 * c <==> d <= 0.5
    ensures d * c == 0.5 * c <==> d == 0.5
  {
    assert d * c - 0.5 * c == (d - 0.5) * c;
  }

  lemma ScaledNearest(n: int, x: real, c: real, off: real)
    requires c > 0.0 && off == 2.0 * ((n as real - x) * c) && Nearest(n, x)
    ensures off <= c && -off <= c && (off == c || -off == c ==> n % 2 == 0)
  {
    var d := n as real - x;
    HalfOf(d, c);
    HalfOf(-d, c);
    assert -d * c == -(d * c);
  }

  lemma HalfEvenOfMean(sum: int, count: nat)
    requires count > 0
    ensures IsMean(HalfEven(100.0 * sum as real / count as real), sum, count)
  {
    var x, c := 100.0 * sum as real / count as real, count as real;
    var n := HalfEven(x);
    var off := 2 * (n * count - 100 * sum);
    assert x * c == 100.0 * sum as real;
    assert (n as real - x) * c == n as real * c - x * c;
    assert (n * count) as real == n as real * c;
    assert off as real == 2.0 * ((n as real - x) * c);
    ScaledNearest(n, x, c, off as real);
  }

  lemma MeanOfApproved(reviews: seq<Review>, product: nat)
    ensures var ids, shown := ApprovedIds(reviews, product), Rating(reviews, product);
      && shown.count == |ids|
      && (if ids == {} then shown.average == 0 else IsMean(shown.average, Sum(Points(reviews, ids)), |ids|))
  {
    ApprovedAreCounted(reviews, product);
    if ApprovedIds(reviews, product) != {} {
      HalfEvenOfMean(ApprovedSum(reviews, product), ApprovedCount(reviews, product));
    }
  }

  /** Over every run, what is read for any product is the number of its stored reviews whose status is
      Approved, and the mean of exactly their ratings in hundredths; zeros if there are none. */
  lemma RatingIsOfApproved(products: set<nat>, run: seq<Event>, product: nat)
    requires forall e :: e in run ==> Allowed(e)
    ensures var reviews, shown := After(products, run).reviews, Read(After(products, run), product);
      var ids := ApprovedIds(reviews, product);
      && shown.count == |ids|
      && (if ids == {} then shown.average == 0 else IsMean(shown.average, Sum(Points(reviews, ids)), |ids|))
  {
    var s := After(products, run);
    RatingAlwaysAgrees(products, run);
    assert Read(s, product) == Rating(s.reviews, product);
    MeanOfApproved(s.reviews, product);
  }

  // ---- the reviews themselves -------------------------------------------------------------------

  /** The status in the last moderation of a review that was there to moderate. */
  function LastStatus(products: set<nat>, run: seq<Event>, id: nat): Status {
    if run == [] then Pending
    else
      var before, e := run[..|run| - 1], run[|run| - 1];
      if e.Moderated? && e.id == id && id < |After(products, before).reviews| then e.status
      else LastStatus(products, before, id)
  }

  /** Over every run a review keeps its product and rating, and has the status it was last given, or is pending. */
  lemma {:induction false} StatusIsLastGiven(products: set<nat>, run: seq<Event>, id: nat)
    requires id < |After(products, run).reviews|
    ensures After(products, run).reviews[id].status == LastStatus(products, run, id)
    decreases |run|
  {
    if run != [] {
      var before := run[..|run| - 1];
      if id < |After(products, before).reviews| {
        StatusIsLastGiven(products, before, id);
      } else {
        NeverModerated(products, before, id);
      }
    }
  }

  lemma ReviewsOnlyGrow(s: Store, e: Event)
    ensures |s.reviews| <= |Step(s, e).reviews|
    ensures forall i :: 0 <= i < |s.reviews| ==>
      Step(s, e).reviews[i].product == s.reviews[i].product && Step(s, e).reviews[i].rating == s.reviews[i].rating
  {
  }

  lemma {:induction false} NeverModerated(products: set<nat>, run: seq<Event>, id: nat)
    requires id >= |After(products, run).reviews|
    ensures LastStatus(products, run, id) == Pending
  {
    if run != [] {
      ReviewsOnlyGrow(After(products, run[..|run| - 1]), run[|run| - 1]);
      NeverModerated(products, run[..|run| - 1], id);
    }
  }

  /** A submitted review of a known product is stored last, with its rating, and is not yet shown. */
  lemma SubmittedIsPending(s: Store, product: nat, rating: int)
    ensures Step(s, Created(product, rating)).reviews
         == if product in s.products then s.reviews + [Review(product, rating, Pending, None, None)] else s.reviews
    ensures Step(s, Created(product, rating)).aggregates == s.aggregates
  {
  }

  /** A moderation records status, moderator and notes on the one review, and touches no other product's rating. */
  lemma ModeratedOnly(s: Store, id: nat, status: Status, moderator: nat, notes: Option<string>)
    requires id < |s.reviews|
    ensures var s', r := Step(s, Moderated(id, status, moderator, notes)), s.reviews[id];
      && s'.reviews == s.reviews[id := Review(r.product, r.rating, status, Some(moderator), notes)]
      && forall p :: p != r.product ==> Read(s', p) == Read(s, p)
  {
  }
}
