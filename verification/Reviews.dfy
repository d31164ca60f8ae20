/** Product reviews, their moderation, and the cached rating of a product. */
module Reviews {
  import opened Wrappers
  import opened Rounding

  datatype Status = Pending | Approved | Rejected

  datatype Review = Review(product: nat, rating: int, status: Status, moderator: Option<nat>, notes: Option<string>)

  /** `average` is in hundredths of a point. */
  datatype Aggregate = Aggregate(average: int, count: nat)

  /** A review's id is its position. */
  datatype Store = Store(products: set<nat>, reviews: seq<Review>, aggregates: map<nat, Aggregate>)

  predicate Shown(r: Review, product: nat) {
    r.product == product && r.status == Approved
  }

  function ApprovedCount(reviews: seq<Review>, product: nat): nat {
    if reviews == [] then 0
    else ApprovedCount(reviews[..|reviews| - 1], product) + if Shown(reviews[|reviews| - 1], product) then 1 else 0
  }

  function ApprovedSum(reviews: seq<Review>, product: nat): int {
    if reviews == [] then 0
    else
      var r := reviews[|reviews| - 1];
      ApprovedSum(reviews[..|reviews| - 1], product) + if Shown(r, product) then r.rating else 0
  }

  /** The count and the mean, rounded to hundredths, of the approved reviews; zero if there are none. */
  function Rating(reviews: seq<Review>, product: nat): Aggregate {
    var sum, count := ApprovedSum(reviews, product), ApprovedCount(reviews, product);
    Aggregate(if count == 0 then 0 else HalfEven(100.0 * sum as real / count as real), count)
  }

  function Create(s: Store, product: nat, rating: int): Store {
    if product in s.products then s.(reviews := s.reviews + [Review(product, rating, Pending, None, None)]) else s
  }

  /** The background task fails on an unknown product, whose row would break the foreign key. */
  function Recompute(s: Store, product: nat): Store {
    if product in s.products then s.(aggregates := s.aggregates[product := Rating(s.reviews, product)]) else s
  }

  function Moderate(s: Store, id: nat, status: Status, moderator: nat, notes: Option<string>): Store {
    if id >= |s.reviews| then s
    else
      var r := s.reviews[id].(status := status, moderator := Some(moderator), notes := notes);
      Recompute(s.(reviews := s.reviews[id := r]), r.product)
  }

  /** `get_rating_aggregate`: the row, or zeros when there is none. */
  function Read(s: Store, product: nat): Aggregate {
    if product in s.aggregates then s.aggregates[product] else Aggregate(0, 0)
  }

  ghost predicate Sound(s: Store) {
    forall r :: r in s.reviews ==> r.product in s.products && 1 <= r.rating <= 5
  }

  class ReviewService {
    const products: set<nat>
    var reviews: seq<Review>
    var aggregates: map<nat, Aggregate>

    constructor (products: set<nat>)
      ensures State() == Store(products, [], map[])
    {
      this.products, reviews, aggregates := products, [], map[];
    }

    function State(): Store
      reads this
    {
      Store(products, reviews, aggregates)
    }

    method CreateReview(product: nat, rating: int) returns (outcome: Outcome)
      requires 1 <= rating <= 5
      modifies this
      ensures State() == Create(old(State()), product, rating)
      ensures outcome == if product in products then Done else NotFound
    {
      if product !in products {
        return NotFound;
      }
      reviews := reviews + [Review(product, rating, Pending, None, None)];
      return Done;
    }

    method RecomputeRatingAggregate(product: nat)
      requires product in products
      modifies this`aggregates
      ensures State() == Recompute(old(State()), product)
    {
      var sum, count := 0, 0;
      for i := 0 to |reviews|
        invariant sum == ApprovedSum(reviews[..i], product) && count == ApprovedCount(reviews[..i], product)
      {
        assert reviews[..i + 1][..i] == reviews[..i];
        if Shown(reviews[i], product) {
          sum := sum + reviews[i].rating;
          count := count + 1;
        }
      }
      assert reviews[..|reviews|] == reviews;
      if product !in aggregates {
        aggregates := aggregates[product := Aggregate(0, 0)];
      }
      var average := 0;
      if count != 0 {
        average := HalfEven(100.0 * sum as real / count as real);
      }
      aggregates := aggregates[product := Aggregate(average, count)];
    }

    method ModerateReview(id: nat, status: Status, moderator: nat, notes: Option<string>) returns (outcome: Outcome)
      requires Sound(State())
      modifies this
      ensures State() == Moderate(old(State()), id, status, moderator, notes)
      ensures outcome == if id < |old(reviews)| then Done else NotFound
    {
      if id >= |reviews| {
        return NotFound;
      }
      var r := reviews[id];
      assert r in reviews;
      reviews := reviews[id := r.(status := status, moderator := Some(moderator), notes := notes)];
      RecomputeRatingAggregate(r.product);
      return Done;
    }
  }

  // ---- the cache always agrees with the reviews -------------------------------------------------------

  datatype Event =
    | Created(product: nat, rating: int)
    | Moderated(id: nat, status: Status, moderator: nat, notes: Option<string>)
    | Recomputed(product: nat)

  predicate Allowed(e: Event) {
    e.Created? ==> 1 <= e.rating <= 5
  }

  function Step(s: Store, e: Event): Store {
    match e
    case Created(product, rating) => Create(s, product, rating)
    case Moderated(id, status, moderator, notes) => Moderate(s, id, status, moderator, notes)
    case Recomputed(product) => Recompute(s, product)
  }

  function After(products: set<nat>, run: seq<Event>): Store {
    if run == [] then Store(products, [], map[]) else Step(After(products, run[..|run| - 1]), run[|run| - 1])
  }

  ghost predicate CacheAgrees(s: Store) {
    forall product :: Read(s, product) == Rating(s.reviews, product)
  }

  lemma RatingOfAppend(reviews: seq<Review>, r: Review, product: nat)
    requires !Shown(r, product)
    ensures Rating(reviews + [r], product) == Rating(reviews, product)
  {
    assert (reviews + [r])[..|reviews|] == reviews;
  }

  /** Editing a review leaves the rating of every other product alone. */
  lemma {:induction false} RatingOfUpdate(reviews: seq<Review>, id: nat, r: Review, product: nat)
    requires id < |reviews| && r.product == reviews[id].product != product
    ensures ApprovedSum(reviews[id := r], product) == ApprovedSum(reviews, product)
    ensures ApprovedCount(reviews[id := r], product) == ApprovedCount(reviews, product)
  {
    var n := |reviews| - 1;
    if id == n {
      assert reviews[id := r][..n] == reviews[..n];
    } else {
      RatingOfUpdate(reviews[..n], id, r, product);
      assert reviews[id := r][..n] == reviews[..n][id := r];
    }
  }

  lemma ModerateKeepsCache(s: Store, id: nat, status: Status, moderator: nat, notes: Option<string>)
    requires Sound(s) && CacheAgrees(s) && id < |s.reviews|
    ensures CacheAgrees(Moderate(s, id, status, moderator, notes))
  {
    var r, s' := s.reviews[id], Moderate(s, id, status, moderator, notes);
    assert r in s.reviews;
    forall product ensures Read(s', product) == Rating(s'.reviews, product) {
      if product != r.product {
        RatingOfUpdate(s.reviews, id, s'.reviews[id], product);
        assert Read(s, product) == Rating(s.reviews, product);
      }
    }
  }

  lemma CreateKeepsCache(s: Store, product: nat, rating: int)
    requires CacheAgrees(s)
    ensures CacheAgrees(Create(s, product, rating))
  {
    var s' := Create(s, product, rating);
    forall p ensures Read(s', p) == Rating(s'.reviews, p) {
      assert Read(s, p) == Rating(s.reviews, p);
      RatingOfAppend(s.reviews, Review(product, rating, Pending, None, None), p);
    }
  }

  lemma StepKeepsSound(s: Store, e: Event)
    requires Sound(s) && Allowed(e)
    ensures Sound(Step(s, e))
  {
    forall i | 0 <= i < |s.reviews| ensures s.reviews[i] in s.reviews {}
  }

  /** Over every run of submissions, moderations to any status and extra recomputes, what is read for any product
      is the count and rounded mean of its approved reviews, or zeros. */
  lemma {:induction false} RatingAlwaysAgrees(products: set<nat>, run: seq<Event>)
    requires forall e :: e in run ==> Allowed(e)
    ensures Sound(After(products, run)) && CacheAgrees(After(products, run))
  {
    if run != [] {
      var s, e := After(products, run[..|run| - 1]), run[|run| - 1];
      assert e in run;
      RatingAlwaysAgrees(products, run[..|run| - 1]);
      StepKeepsSound(s, e);
      match e
      case Created(product, rating) => CreateKeepsCache(s, product, rating);
      case Moderated(id, status, moderator, notes) =>
        if id < |s.reviews| { ModerateKeepsCache(s, id, status, moderator, notes); }
      case Recomputed(product) =>
    }
  }

  lemma {:induction false} SumBetween(reviews: seq<Review>, product: nat)
    requires forall r :: r in reviews ==> 1 <= r.rating <= 5
    ensures ApprovedCount(reviews, product) <= ApprovedSum(reviews, product) <= 5 * ApprovedCount(reviews, product)
  {
    if reviews != [] {
      assert reviews[|reviews| - 1] in reviews;
      SumBetween(reviews[..|reviews| - 1], product);
    }
  }

  /** Whenever a rating is shown it lies between one and five points. */
  lemma RatingInRange(products: set<nat>, run: seq<Event>, product: nat)
    requires forall e :: e in run ==> Allowed(e)
    ensures var shown := Read(After(products, run), product);
      if shown.count > 0 then 100 <= shown.average <= 500 else shown.average == 0
  {
    var s := After(products, run);
    RatingAlwaysAgrees(products, run);
    SumBetween(s.reviews, product);
    var sum, count := ApprovedSum(s.reviews, product), ApprovedCount(s.reviews, product);
    assert Read(s, product) == Rating(s.reviews, product);
    if count > 0 {
      MeanBetween(sum, count);
    }
  }

  lemma QuotientBetween(x: real, n: real, scaled: real, lo: real, hi: real)
    requires n > 0.0 && scaled == x * n
    requires lo * n <= scaled && scaled <= hi * n
    ensures lo <= x <= hi
  {
    assert (x - lo) * n >= 0.0 && (hi - x) * n >= 0.0;
  }

  lemma MeanBetween(sum: int, count: nat)
    requires 0 < count <= sum <= 5 * count
    ensures 100 <= HalfEven(100.0 * sum as real / count as real) <= 500
  {
    var x, n, total := 100.0 * sum as real / count as real, count as real, sum as real;
    assert n <= total <= (5 * count) as real == 5.0 * n;
    var scaled := x * n;
    assert scaled == 100.0 * total;
    assert 100.0 * n <= scaled && scaled <= 500.0 * n;
    QuotientBetween(x, n, scaled, 100.0, 500.0);
    HalfEvenMonotone(100.0, x);
    HalfEvenMonotone(x, 500.0);
    HalfEvenOfWhole(100);
    HalfEvenOfWhole(500);
  }
}
