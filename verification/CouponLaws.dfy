/** What the coupon service answers and stores, said in terms of the stored columns alone. */
module CouponLaws {
  import opened Wrappers
  import opened Rounding
  import opened Coupons

  /** Only ASCII letters change, from small to capital. */
  lemma CodesIgnoreCase(code: string, i: nat)
    requires i < |code|
    ensures |Upper(code)| == |code|
    ensures Upper(code)[i] == if 'a' <= code[i] <= 'z' then code[i] - 'a' + 'A' else code[i]
  {
  }

  // ---- the answer of a validation ---------------------------------------------------------------

  /** A cart may use a coupon exactly when the coupon is stored and active, the time lies in its validity, and total
      limit, minimum order and limit per user leave room; a limit or minimum of zero does not bind. */
  lemma AcceptedIff(s: Store, code: string, total: real, user: nat, now: int)
    ensures Validate(s, code, total, user, now).Applied? <==>
      var key := Upper(code);
      key in s.coupons &&
      var c := s.coupons[key];
      && c.active && c.validFrom <= now
      && (c.validUntil == None || now <= c.validUntil.value)
      && (c.usageLimit == None || c.usageLimit.value == 0 || c.usageCount < c.usageLimit.value)
      && (c.minOrder == None || c.minOrder.value == 0 || total >= c.minOrder.value as real)
      && ((key, user) !in s.usages || s.usages[(key, user)].times < c.perUserLimit)
  {
  }

  /** A refusal names the first check that fails, and leaves the total as it was. */
  lemma RefusedFor(s: Store, code: string, total: real, user: nat, now: int)
    requires Validate(s, code, total, user, now).Failed?
    ensures Validate(s, code, total, user, now).finalTotal == total
    ensures var reason, key := Validate(s, code, total, user, now).reason, Upper(code);
      if key !in s.coupons || !s.coupons[key].active then reason == Inactive
      else
        var c := s.coupons[key];
        if now < c.validFrom then reason == NotYetValid
        else if c.validUntil.Some? && c.validUntil.value < now then reason == Reason.Expired
        else if c.usageLimit.Some? && 0 != c.usageLimit.value <= c.usageCount then reason == LimitReached
        else if c.minOrder.Some? && c.minOrder.value != 0 && total < c.minOrder.value as real
        then reason == BelowMinimum
        else reason == UsedUp
  {
  }

  lemma AppliedIsDiscount(s: Store, code: string, total: real, user: nat, now: int)
    requires Validate(s, code, total, user, now).Applied?
    ensures var discount := Discount(s.coupons[Upper(code)], total);
      Validate(s, code, total, user, now) == Applied(discount, total - discount)
  {
  }

  lemma PercentDiscount(c: Coupon, total: real, exact: real, n: int)
    requires c.kind == Percent && exact == PercentOf(total, c.value) && Nearest(n, exact)
    ensures Discount(c, total)
         == (if c.cap.Some? && c.cap.value != 0 && c.cap.value < n then c.cap.value else n) as real
  {
    HalfEvenIsUnique(exact, n);
  }

  /** An accepted percentage takes off the nearest paisa `n` to the exact percentage, or the cap if that is set and
      lower; the customer pays the rest. For every exact decimal total. */
  lemma PercentTakesOff(s: Store, code: string, total: real, user: nat, now: int, c: Coupon, exact: real, n: int)
    requires Validate(s, code, total, user, now).Applied? && c == s.coupons[Upper(code)] && c.kind == Percent
    requires exact == total * c.value as real / 10000.0 && Nearest(n, exact)
    ensures var off := (if c.cap.Some? && c.cap.value != 0 && c.cap.value < n then c.cap.value else n) as real;
      Validate(s, code, total, user, now) == Applied(off, total - off)
  {
    PercentDiscount(c, total, exact, n);
    AppliedIsDiscount(s, code, total, user, now);
  }

  /** An accepted fixed amount takes off its value, or the whole total if that is less. */
  lemma FixedTakesOff(s: Store, code: string, total: real, user: nat, now: int)
    requires Validate(s, code, total, user, now).Applied? && s.coupons[Upper(code)].kind == Fixed
    ensures var value := s.coupons[Upper(code)].value as real;
      Validate(s, code, total, user, now)
      == if value <= total then Applied(value, total - value) else Applied(total, 0.0)
  {
  }

  /** On carts of whole paise, with at most 100 percent and no negative cap, an accepted validation splits the
      cart: discount and final total lie between zero and the total and add up to it. */
  lemma AcceptedSplitsCart(s: Store, code: string, total: int, user: nat, now: int)
    requires total > 0 && Validate(s, code, total as real, user, now).Applied?
    requires var c := s.coupons[Upper(code)];
      c.kind == Percent ==> c.value <= 10000 && (c.cap.Some? ==> c.cap.value >= 0)
    ensures var r := Validate(s, code, total as real, user, now);
      && 0.0 <= r.discount <= total as real && 0.0 <= r.finalTotal <= total as real
      && r.discount + r.finalTotal == total as real
  {
    AppliedIsDiscount(s, code, total as real, user, now);
    DiscountWithinTotal(s.coupons[Upper(code)], total);
  }

  // ---- counting uses ----------------------------------------------------------------------------

  /** The event leaves a use of the stored coupon `key` by the user. */
  predicate Uses(s: Store, e: Event, key: string, user: nat) {
    match e
    case Created(_, _) => false
    case Recorded(code, u, _) => u == user && Upper(code) == key && key in s.coupons
    case Redeemed(code, total, u, now, _) =>
      u == user && Upper(code) == key && Validate(s, code, total, u, now).Applied?
  }

  function UsesIn(run: seq<Event>, key: string, user: nat): nat {
    if run == [] then 0
    else
      var before := run[..|run| - 1];
      UsesIn(before, key, user) + if Uses(After(before), run[|run| - 1], key, user) then 1 else 0
  }

  lemma StepCounts(s: Store, e: Event, key: string, user: nat)
    ensures var was := if (key, user) in s.usages then s.usages[(key, user)].times else 0;
      var s' := Step(s, e);
      (if (key, user) in s'.usages then s'.usages[(key, user)].times else 0)
      == was + if Uses(s, e, key, user) then 1 else 0
  {
  }

  /** Over every run a user's row counts that user's records and redemptions of the coupon, one by one. */
  lemma {:induction false} RowsCountUses(run: seq<Event>, key: string, user: nat)
    ensures var usages := After(run).usages;
      (if (key, user) in usages then usages[(key, user)].times else 0) == UsesIn(run, key, user)
  {
    if run != [] {
      RowsCountUses(run[..|run| - 1], key, user);
      StepCounts(After(run[..|run| - 1]), run[|run| - 1], key, user);
    }
  }
}
