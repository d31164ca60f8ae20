/** The coupon engine: validation, the discount, and the usage counters. Money is in paise; cart totals are
    exact decimals, so possibly not whole paise. */
module Coupons {
  import opened Wrappers
  import opened Rounding
  import opened MapSums

  datatype DiscountType = Percent | Fixed

  /** `value` is hundredths of a percent or paise; `cap` and `minOrder` are stored in whole paise, of either sign. */
  datatype Coupon = Coupon(
    kind: DiscountType, value: nat, minOrder: Option<int>, cap: Option<int>, usageLimit: Option<int>, usageCount: nat,
    perUserLimit: int, active: bool, validFrom: int, validUntil: Option<int>)

  datatype Usage = Usage(times: nat, order: nat)

  datatype Store = Store(coupons: map<string, Coupon>, usages: map<(string, nat), Usage>)

  datatype Reason = Inactive | NotYetValid | Expired | LimitReached | BelowMinimum | UsedUp

  datatype Validation = Failed(reason: Reason, finalTotal: real) | Applied(discount: real, finalTotal: real)

  function UpperChar(c: char): char {
    if 'a' <= c <= 'z' then c - 32 as char else c
  }

  function Upper(code: string): string {
    seq(|code|, i requires 0 <= i < |code| => UpperChar(code[i]))
  }

  /** A limit, minimum or cap that is absent or zero is not applied. */
  predicate Set(limit: Option<int>) {
    limit.Some? && limit.value != 0
  }

  function Min(x: real, y: real): real {
    if y < x then y else x
  }

  /** `value` hundredths of a percent of an amount, before rounding. */
  function PercentOf(total: real, value: nat): real {
    total * value as real / 10000.0
  }

  function Discount(c: Coupon, total: real): real {
    if c.kind == Percent then
      var discount := HalfEven(PercentOf(total, c.value)) as real;
      if Set(c.cap) then Min(discount, c.cap.value as real) else discount
    else Min(c.value as real, total)
  }

  function Validate(s: Store, code: string, total: real, user: nat, now: int): Validation {
    var key := Upper(code);
    if key !in s.coupons || !s.coupons[key].active then Failed(Inactive, total)
    else
      var c := s.coupons[key];
      if c.validFrom > now then Failed(NotYetValid, total)
      else if c.validUntil.Some? && c.validUntil.value < now then Failed(Expired, total)
      else if Set(c.usageLimit) && c.usageCount >= c.usageLimit.value then Failed(LimitReached, total)
      else if Set(c.minOrder) && total < c.minOrder.value as real then Failed(BelowMinimum, total)
      else if (key, user) in s.usages && s.usages[(key, user)].times >= c.perUserLimit then Failed(UsedUp, total)
      else Applied(Discount(c, total), total - Discount(c, total))
  }

  /** `record_usage` looks nothing up but the code: it counts even when validation would fail. */
  function Record(s: Store, code: string, user: nat, order: nat): Store {
    var key := Upper(code);
    if key !in s.coupons then s
    else
      var times := if (key, user) in s.usages then s.usages[(key, user)].times + 1 else 1;
      Store(s.coupons[key := s.coupons[key].(usageCount := s.coupons[key].usageCount + 1)],
            s.usages[(key, user) := Usage(times, order)])
  }

  /** The limits the creation schema lets through. */
  predicate Creatable(c: Coupon) {
    c.value > 0 && (c.usageLimit.Some? ==> c.usageLimit.value >= 1) && c.perUserLimit >= 1 && c.usageCount == 0
  }

  function Create(s: Store, code: string, c: Coupon): Store {
    if Upper(code) in s.coupons then s else s.(coupons := s.coupons[Upper(code) := c])
  }

  class CouponService {
    var coupons: map<string, Coupon>
    var usages: map<(string, nat), Usage>

    constructor ()
      ensures State() == Store(map[], map[])
    {
      coupons, usages := map[], map[];
    }

    function State(): Store
      reads this
    {
      Store(coupons, usages)
    }

    method CreateCoupon(code: string, c: Coupon) returns (outcome: Outcome)
      requires Creatable(c)
      modifies this
      ensures State() == Create(old(State()), code, c)
      ensures outcome == if Upper(code) in old(coupons) then Conflict else Done
    {
      if Upper(code) in coupons {
        return Conflict;
      }
      coupons := coupons[Upper(code) := c];
      return Done;
    }

    method ValidateCoupon(code: string, total: real, user: nat, now: int) returns (r: Validation)
      ensures r == Validate(State(), code, total, user, now)
      ensures r.finalTotal == if r.Applied? then total - r.discount else total
    {
      var key := Upper(code);
      if key !in coupons || !coupons[key].active {
        return Failed(Inactive, total);
      }
      var c := coupons[key];
      if c.validFrom > now {
        return Failed(NotYetValid, total);
      }
      if c.validUntil.Some? && c.validUntil.value < now {
        return Failed(Expired, total);
      }
      if Set(c.usageLimit) && c.usageCount >= c.usageLimit.value {
        return Failed(LimitReached, total);
      }
      if Set(c.minOrder) && total < c.minOrder.value as real {
        return Failed(BelowMinimum, total);
      }
      if (key, user) in usages && usages[(key, user)].times >= c.perUserLimit {
        return Failed(UsedUp, total);
      }
      var discount;
      if c.kind == Percent {
        discount := HalfEven(PercentOf(total, c.value)) as real;
        if Set(c.cap) {
          discount := Min(discount, c.cap.value as real);
        }
      } else {
        discount := Min(c.value as real, total);
      }
      return Applied(discount, total - discount);
    }

    method RecordUsage(code: string, user: nat, order: nat)
      modifies this
      ensures State() == Record(old(State()), code, user, order)
      ensures Upper(code) !in old(coupons) ==> State() == old(State())
      ensures Upper(code) in old(coupons) ==>
        Upper(code) in coupons && coupons[Upper(code)].usageCount == old(coupons)[Upper(code)].usageCount + 1
    {
      var key := Upper(code);
      if key !in coupons {
        return;
      }
      coupons := coupons[key := coupons[key].(usageCount := coupons[key].usageCount + 1)];
      if (key, user) in usages {
        usages := usages[(key, user) := Usage(usages[(key, user)].times + 1, order)];
      } else {
        usages := usages[(key, user) := Usage(1, order)];
      }
    }
  }

  // ---- the discount ---------------------------------------------------------------------------------

  lemma MulMonotone(x: real, y: real, z: real)
    requires x <= y && z >= 0.0
    ensures x * z <= y * z
  {
  }

  lemma PercentMonotone(x: real, y: real, value: nat)
    requires x <= y
    ensures PercentOf(x, value) <= PercentOf(y, value)
  {
    MulMonotone(x, y, value as real);
  }

  lemma PercentAtMost(x: real, value: nat)
    requires x >= 0.0 && value <= 10000
    ensures 0.0 <= PercentOf(x, value) <= x
    ensures value < 10000 && x > 0.0 ==> PercentOf(x, value) < x
  {
    assert value as real * x >= 0.0;
    assert (10000 - value) as real * x >= 0.0;
    assert value < 10000 && x > 0.0 ==> (10000 - value) as real * x > 0.0;
    assert value as real * x + (10000 - value) as real * x == 10000.0 * x;
  }

  lemma PercentOfSum(x: real, y: real, value: nat)
    ensures PercentOf(x + y, value) == PercentOf(x, value) + PercentOf(y, value)
  {
    assert (x + y) * value as real == x * value as real + y * value as real;
  }

  /** A discount is negative exactly when a negative cap was stored. */
  lemma DiscountNonNegativeIff(c: Coupon, total: real)
    requires total > 0.0
    ensures Discount(c, total) >= 0.0 <==> c.kind == Fixed || !Set(c.cap) || c.cap.value >= 0
  {
    assert PercentOf(0.0, c.value) == 0.0;
    PercentMonotone(0.0, total, c.value);
    HalfEvenMonotone(0.0, PercentOf(total, c.value));
    HalfEvenOfWhole(0);
  }

  lemma WholeAtMost(n: int, x: real)
    ensures n as real <= x <==> n <= x.Floor
  {
  }

  /** A percent discount stays within the cart exactly when a cap at or below the total stops it, or the exact
      percentage is not past the half paisa above the total's whole paise (a tie goes to the even paisa). */
  lemma FinalTotalNonNegativeIff(c: Coupon, total: real)
    requires total > 0.0 && c.kind == Percent
    ensures var whole, exact := total.Floor, PercentOf(total, c.value);
      total - Discount(c, total) >= 0.0 <==>
        || (Set(c.cap) && c.cap.value as real <= total)
        || exact < whole as real + 0.5
        || (exact == whole as real + 0.5 && whole % 2 == 0)
  {
    HalfEvenAtMost(PercentOf(total, c.value), total.Floor);
    WholeAtMost(HalfEven(PercentOf(total, c.value)), total);
  }

  /** For carts of whole paise, percentages up to 100 and no negative cap, the discount lies between zero and the
      total. A percentage is the nearest paisa, or the cap where that binds; a fixed amount comes off down to zero. */
  lemma DiscountWithinTotal(c: Coupon, total: int)
    requires total > 0
    requires c.kind == Percent ==> c.value <= 10000 && (Set(c.cap) ==> c.cap.value > 0)
    ensures 0.0 <= Discount(c, total as real) <= total as real
    ensures c.kind == Percent && Set(c.cap) ==> Discount(c, total as real) <= c.cap.value as real
    ensures var exact := PercentOf(total as real, c.value);
      && (c.kind == Percent && (!Set(c.cap) || exact <= c.cap.value as real - 0.5) ==>
          exact - 0.5 <= Discount(c, total as real) <= exact + 0.5)
      && (c.kind == Percent && Set(c.cap) && exact >= c.cap.value as real + 0.5 ==>
          Discount(c, total as real) == c.cap.value as real)
    ensures c.kind == Fixed ==>
      total as real - Discount(c, total as real) == if c.value <= total then (total - c.value) as real else 0.0
  {
    DiscountNonNegativeIff(c, total as real);
    if c.kind == Percent {
      PercentAtMost(total as real, c.value);
      HalfEvenMonotone(PercentOf(total as real, c.value), total as real);
      HalfEvenOfWhole(total);
    }
  }

  /** A larger cart never gets a smaller discount. */
  lemma DiscountMonotone(c: Coupon, small: real, large: real)
    requires 0.0 < small <= large
    ensures Discount(c, small) <= Discount(c, large)
  {
    PercentMonotone(small, large, c.value);
    HalfEvenMonotone(PercentOf(small, c.value), PercentOf(large, c.value));
  }

  /** Growing an amount by whole paise grows its rounded percentage by no more: a tie cannot jump two paise. */
  lemma RoundedStep(small: int, large: int, value: nat)
    requires small <= large && value <= 10000
    ensures HalfEven(PercentOf(large as real, value)) <= HalfEven(PercentOf(small as real, value)) + (large - small)
  {
    var x, y, k := PercentOf(small as real, value), PercentOf(large as real, value), large - small;
    if value == 10000 {
      assert x == small as real && y == large as real;
      HalfEvenOfWhole(small);
      HalfEvenOfWhole(large);
    } else if k > 0 {
      PercentOfSum(small as real, k as real, value);
      PercentAtMost(k as real, value);
      assert y < x + k as real;
      HalfEvenAtMost(y, HalfEven(x) + k);
    }
  }

  function DiscountOfPaise(c: Coupon, total: int): real {
    Discount(c, total as real)
  }

  function FinalOfPaise(c: Coupon, total: int): real {
    total as real - Discount(c, total as real)
  }

  /** Nor, for whole paise and percentages up to 100, does a larger cart cost less, in spite of rounding. */
  lemma FinalTotalMonotone(c: Coupon, small: int, large: int)
    requires 0 < small <= large && (c.kind == Percent ==> c.value <= 10000)
    ensures FinalOfPaise(c, small) <= FinalOfPaise(c, large)
  {
    if c.kind == Percent {
      RoundedStep(small, large, c.value);
      var x, y := HalfEven(PercentOf(small as real, c.value)), HalfEven(PercentOf(large as real, c.value));
      assert y as real <= x as real + (large - small) as real;
    }
  }

  lemma HundredRupees(c: Coupon, k: int)
    requires c.kind == Percent && !Set(c.cap)
    ensures DiscountOfPaise(c, 10000 * k) == (k * c.value) as real
  {
    assert (10000 * k) as real == 10000.0 * k as real;
    assert (k * c.value) as real == k as real * c.value as real;
    assert 10000.0 * k as real * c.value as real == 10000.0 * (k as real * c.value as real);
    HalfEvenOfWhole(k * c.value);
  }

  /** The schema puts no ceiling on a percentage: without a cap, final totals stay non-negative on every
      cart of whole paise, and grow with the cart, exactly for coupons of at most 100 percent. */
  lemma UncappedPercentSafeIff(c: Coupon)
    requires c.kind == Percent && !Set(c.cap)
    ensures (forall total :: total > 0 ==> FinalOfPaise(c, total) >= 0.0) <==> c.value <= 10000
    ensures (forall small, large :: 0 < small <= large ==> FinalOfPaise(c, small) <= FinalOfPaise(c, large))
       <==> c.value <= 10000
  {
    if c.value <= 10000 {
      forall total | total > 0 ensures FinalOfPaise(c, total) >= 0.0 {
        DiscountWithinTotal(c, total);
      }
      forall small, large | 0 < small <= large ensures FinalOfPaise(c, small) <= FinalOfPaise(c, large) {
        FinalTotalMonotone(c, small, large);
      }
    } else {
      HundredRupees(c, 1);
      HundredRupees(c, 2);
      assert FinalOfPaise(c, 10000) < 0.0;
      assert FinalOfPaise(c, 10000) > FinalOfPaise(c, 20000);
    }
  }

  /** A cart that may use a coupon may still use it when it grows. */
  lemma AcceptanceGrows(s: Store, code: string, small: real, large: real, user: nat, now: int)
    requires small <= large && Validate(s, code, small, user, now).Applied?
    ensures Validate(s, code, large, user, now).Applied?
  {
  }

  /** The times at which a coupon is accepted form an interval inside its validity. */
  lemma AcceptanceIsAnInterval(s: Store, code: string, total: real, user: nat, early: int, mid: int, late: int)
    requires early <= mid <= late
    requires Validate(s, code, total, user, early).Applied? && Validate(s, code, total, user, late).Applied?
    ensures Validate(s, code, total, user, mid) == Validate(s, code, total, user, early)
    ensures var c := s.coupons[Upper(code)];
      c.validFrom <= early && (c.validUntil.Some? ==> late <= c.validUntil.value)
  {
  }

  // ---- usage counters -------------------------------------------------------------------------------

  /** The uses of one coupon, user by user. */
  ghost function UsesByUser(usages: map<(string, nat), Usage>, key: string): map<nat, int> {
    map k | k in usages && k.0 == key :: k.1 := usages[k].times
  }

  ghost predicate Conserved(s: Store) {
    && (forall k :: k in s.usages ==> k.0 in s.coupons)
    && (forall key :: key in s.coupons ==> CountAgrees(s, key))
  }

  ghost predicate CountAgrees(s: Store, key: string)
    requires key in s.coupons
  {
    s.coupons[key].usageCount == Sum(UsesByUser(s.usages, key))
  }

  lemma UsesOfUpdate(usages: map<(string, nat), Usage>, key: string, user: nat, u: Usage)
    ensures UsesByUser(usages[(key, user) := u], key) == UsesByUser(usages, key)[user := u.times]
    ensures user in UsesByUser(usages, key) <==> (key, user) in usages
    ensures user in UsesByUser(usages, key) ==> UsesByUser(usages, key)[user] == usages[(key, user)].times
  {
    var after := usages[(key, user) := u];
    forall v: nat ensures v in UsesByUser(after, key) <==> v in UsesByUser(usages, key)[user := u.times] {
      assert v != user ==> ((key, v) in usages <==> (key, v) in after);
    }
  }

  lemma OtherUsesUnchanged(usages: map<(string, nat), Usage>, key: string, user: nat, u: Usage, other: string)
    requires other != key
    ensures UsesByUser(usages[(key, user) := u], other) == UsesByUser(usages, other)
  {
  }

  lemma RecordAgrees(s: Store, code: string, user: nat, order: nat, key: string)
    requires key in s.coupons && CountAgrees(s, key)
    ensures CountAgrees(Record(s, code, user, order), key)
  {
    var recorded, s' := Upper(code), Record(s, code, user, order);
    if recorded in s.coupons {
      var u := s'.usages[(recorded, user)];
      assert s'.usages == s.usages[(recorded, user) := u];
      if key == recorded {
        UsesOfUpdate(s.usages, key, user, u);
        SumUpdate(UsesByUser(s.usages, key), user, u.times);
      } else {
        OtherUsesUnchanged(s.usages, recorded, user, u, key);
      }
    }
  }

  lemma RecordConserves(s: Store, code: string, user: nat, order: nat)
    requires Conserved(s)
    ensures Conserved(Record(s, code, user, order))
  {
    var s' := Record(s, code, user, order);
    forall key | key in s'.coupons ensures CountAgrees(s', key) {
      RecordAgrees(s, code, user, order, key);
    }
  }

  lemma CreateConserves(s: Store, code: string, c: Coupon)
    requires Conserved(s) && c.usageCount == 0
    ensures Conserved(Create(s, code, c))
  {
    var s' := Create(s, code, c);
    assert s'.usages == s.usages;
    forall key | key in s'.coupons ensures CountAgrees(s', key) {
      if key in s.coupons {
        assert CountAgrees(s, key);
      } else {
        assert UsesByUser(s'.usages, key) == map[];
      }
    }
  }

  /** No coupon is past its total limit and no user past the limit per user. */
  ghost predicate WithinLimits(s: Store) {
    && (forall key :: key in s.coupons && Set(s.coupons[key].usageLimit) ==>
          s.coupons[key].usageCount <= s.coupons[key].usageLimit.value)
    && (forall k :: k in s.usages && k.0 in s.coupons ==> s.usages[k].times <= s.coupons[k.0].perUserLimit)
  }

  /** Recording a use keeps the limits exactly when there was room under both. */
  lemma RecordKeepsLimitsIff(s: Store, code: string, user: nat, order: nat)
    requires WithinLimits(s) && Upper(code) in s.coupons
    ensures var key := Upper(code);
      var c := s.coupons[key];
      WithinLimits(Record(s, code, user, order)) <==>
        && (Set(c.usageLimit) ==> c.usageCount < c.usageLimit.value)
        && (if (key, user) in s.usages then s.usages[(key, user)].times < c.perUserLimit else c.perUserLimit >= 1)
  {
    var key, s' := Upper(code), Record(s, code, user, order);
    assert s'.coupons[key].usageCount == s.coupons[key].usageCount + 1;
    assert (key, user) in s'.usages;
  }

  datatype Event =
    | Created(code: string, coupon: Coupon)
    | Recorded(code: string, user: nat, order: nat)
    | Redeemed(code: string, total: real, user: nat, now: int, order: nat)

  /** `Redeemed` is an accepted validation and its record with nothing in between. */
  function Step(s: Store, e: Event): Store {
    match e
    case Created(code, c) => if Creatable(c) then Create(s, code, c) else s
    case Recorded(code, user, order) => Record(s, code, user, order)
    case Redeemed(code, total, user, now, order) =>
      if Validate(s, code, total, user, now).Applied? then Record(s, code, user, order) else s
  }

  function After(run: seq<Event>): Store {
    if run == [] then Store(map[], map[]) else Step(After(run[..|run| - 1]), run[|run| - 1])
  }

  /** Over every run a coupon's counter is the sum of its uses over the users. */
  lemma {:induction false} UsageConserved(run: seq<Event>)
    ensures Conserved(After(run))
  {
    if run != [] {
      var s, e := After(run[..|run| - 1]), run[|run| - 1];
      UsageConserved(run[..|run| - 1]);
      match e
      case Created(code, c) => if Creatable(c) { CreateConserves(s, code, c); }
      case Recorded(code, user, order) => RecordConserves(s, code, user, order);
      case Redeemed(code, total, user, now, order) => RecordConserves(s, code, user, order);
    }
  }

  ghost predicate PositiveUserLimits(s: Store) {
    forall key :: key in s.coupons ==> s.coupons[key].perUserLimit >= 1
  }

  lemma RedeemKeepsLimits(s: Store, code: string, total: real, user: nat, now: int, order: nat)
    requires WithinLimits(s) && PositiveUserLimits(s) && Validate(s, code, total, user, now).Applied?
    ensures WithinLimits(Record(s, code, user, order)) && PositiveUserLimits(Record(s, code, user, order))
  {
    RecordKeepsLimitsIff(s, code, user, order);
  }

  lemma CreateKeepsLimits(s: Store, code: string, c: Coupon)
    requires WithinLimits(s) && PositiveUserLimits(s) && Conserved(s) && Creatable(c)
    ensures WithinLimits(Create(s, code, c)) && PositiveUserLimits(Create(s, code, c))
  {
  }

  /** If every use is recorded right after an accepted validation, no limit is ever passed. */
  lemma {:induction false} RedeemedRunsStayWithinLimits(run: seq<Event>)
    requires forall e :: e in run ==> !e.Recorded?
    ensures WithinLimits(After(run)) && PositiveUserLimits(After(run))
  {
    if run != [] {
      var before, e := run[..|run| - 1], run[|run| - 1];
      var s := After(before);
      assert e in run;
      RedeemedRunsStayWithinLimits(before);
      UsageConserved(before);
      match e
      case Created(code, c) => if Creatable(c) { CreateKeepsLimits(s, code, c); }
      case Redeemed(code, total, user, now, order) =>
        if Validate(s, code, total, user, now).Applied? { RedeemKeepsLimits(s, code, total, user, now, order); }
    }
  }

  lemma AfterTwo(s: Store, run: seq<Event>)
    requires |run| >= 2 && After(run[..|run| - 2]) == s
    ensures After(run) == Step(Step(s, run[|run| - 2]), run[|run| - 1])
  {
    assert run[..|run| - 1][..|run| - 2] == run[..|run| - 2];
  }

  lemma SingleUseCreated(c: Coupon, total: real, user: nat, now: int)
    requires Creatable(c) && c.usageLimit == Some(1) && c.minOrder == None && c.active
    requires c.validFrom <= now && c.validUntil == None
    ensures var s := After([Created("ONE", c)]);
      s.coupons == map["ONE" := c] && s.usages == map[] && Validate(s, "ONE", total, user, now).Applied?
  {
    assert Upper("ONE") == "ONE" && [Created("ONE", c)][..0] == [];
  }

  /** From nothing: a single-use coupon is created, two users' validations are both accepted, and their records
      then pass the limit. */
  lemma LateRecordsPassTheLimit(c: Coupon, first: nat, second: nat, total: real, now: int)
    requires Creatable(c) && c.usageLimit == Some(1) && c.minOrder == None && c.active
    requires c.validFrom <= now && c.validUntil == None
    ensures var run := [Created("ONE", c), Recorded("ONE", first, 1), Recorded("ONE", second, 2)];
      && Validate(After(run[..1]), "ONE", total, first, now).Applied?
      && Validate(After(run[..1]), "ONE", total, second, now).Applied?
      && !WithinLimits(After(run))
  {
    var run := [Created("ONE", c), Recorded("ONE", first, 1), Recorded("ONE", second, 2)];
    assert run[..1] == [Created("ONE", c)];
    SingleUseCreated(c, total, first, now);
    SingleUseCreated(c, total, second, now);
    AfterTwo(After(run[..1]), run);
    assert Upper("ONE") == "ONE";
    assert After(run).coupons["ONE"].usageCount == 2;
  }
}
