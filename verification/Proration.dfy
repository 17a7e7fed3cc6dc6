/** Prorated plan changes (internal/billing/lifecycle.go, internal/billing/billing.go).
    Money is in cents, time in seconds. */
module Proration {
  import opened Wrappers

  const DAY := 86400

  type Outcome<T> = Result<T, Error>

  datatype Error = InvalidInput | NotFound | Other

  /** Per-seat prices of the three plans. */
  datatype Prices = Prices(core: int, pro: int, privacy: int)

  function GetPlanPricing(prices: Prices, plan: string): Outcome<int> {
    match plan
    case "core" => Ok(prices.core)
    case "pro" => Ok(prices.pro)
    case "privacy" => Ok(prices.privacy)
    case _ => Err(InvalidInput)
  }

  predicate Known(plan: string) {
    plan in {"core", "pro", "privacy"}
  }

  /** The price of a plan, none for an unknown one. */
  function Price(prices: Prices, plan: string): int {
    var p := GetPlanPricing(prices, plan);
    if p.Ok? then p.value else 0
  }

  // ---- Go's integer division --------------------------------------------------------------

  /** Division truncating toward zero. */
  function Quo(a: int, b: int): int
    requires b > 0
  {
    if a >= 0 then a / b else -(-a / b)
  }

  function Abs(a: int): nat {
    if a < 0 then -a else a
  }

  lemma Euclid(a: nat, d: int)
    requires d > 0
    ensures 0 <= (a / d) * d <= a < (a / d) * d + d
  {
    var q, r := a / d, a % d;
    assert a == d * q + r && 0 <= r < d;
  }

  /** A quotient is the only multiple count that leaves a proper remainder. */
  lemma ScaledApart(q: int, r: int, d: int)
    requires d > 0 && r < q
    ensures r * d + d <= q * d
  {
    assert (q - r - 1) * d >= 0;
    assert (q - r - 1) * d == q * d - r * d - d;
  }

  lemma DivMonotone(a: nat, b: nat, d: int)
    requires a <= b && d > 0
    ensures a / d <= b / d
  {
    Euclid(a, d);
    Euclid(b, d);
    if a / d > b / d {
      ScaledApart(a / d, b / d, d);
      assert false;
    }
  }

  lemma DivOfProduct(a: nat, d: int)
    requires d > 0
    ensures a * d >= 0 && (a * d) / d == a
  {
    assert a * d >= 0;
    Euclid(a * d, d);
    var q := (a * d) / d;
    if q < a {
      ScaledApart(a, q, d);
      assert false;
    } else if q > a {
      ScaledApart(q, a, d);
      assert false;
    }
  }

  lemma QuoNegates(a: int, d: int)
    requires d > 0
    ensures Quo(-a, d) == -Quo(a, d) && Abs(Quo(a, d)) == Abs(a) / d
  {
    Euclid(Abs(a), d);
  }

  /** The quotient is within one divisor of its argument, on the side of zero. */
  lemma QuoBounds(a: int, d: int)
    requires d > 0
    ensures a >= 0 ==> 0 <= Quo(a, d) * d <= a < Quo(a, d) * d + d
    ensures a <= 0 ==> Quo(a, d) * d - d < a <= Quo(a, d) * d <= 0
  {
    Euclid(Abs(a), d);
    var q := Abs(a) / d;
    assert (-q) * d == -(q * d);
  }

  /** Truncating two parts loses at most one unit against truncating their sum. */
  lemma QuoSum(a: int, b: int, d: int)
    requires d > 0
    ensures -1 <= Quo(a, d) + Quo(b, d) - Quo(a + b, d) <= 1
  {
    hide Quo;
    QuoBounds(a, d);
    QuoBounds(b, d);
    QuoBounds(a + b, d);
    Distributes(Quo(a, d), Quo(b, d), Quo(a + b, d), d);
    ScaledBetween(Quo(a, d) + Quo(b, d) - Quo(a + b, d), d);
  }

  lemma Distributes(p: int, q: int, r: int, d: int)
    ensures (p + q - r) * d == p * d + q * d - r * d
  {
  }

  lemma ScaledBetween(e: int, d: int)
    requires d > 0 && -2 * d < e * d < 2 * d
    ensures -1 <= e <= 1
  {
    if e > 1 {
      ScaledApart(e, 1, d);
    } else if e < -1 {
      ScaledApart(-1, e, d);
    }
  }

  // ---- The amount ---------------------------------------------------------------------------

  datatype Period = Period(start: int, end: int)

  function Days(from: int, to: int): int {
    Quo(to - from, DAY) + 1
  }

  function PeriodDays(period: Period): (n: int)
    ensures n > 0
  {
    if Days(period.start, period.end) <= 0 then 30 else Days(period.start, period.end)
  }

  /** The instant a change counts from. */
  function Effective(period: Period, now: int): int {
    if now < period.start then period.start else now
  }

  /** The share of a full-period difference `delta` that is left to pay at `now`. */
  function Amount(delta: int, period: Period, now: int): int {
    if Effective(period, now) > period.end then 0
    else Quo(delta * Days(Effective(period, now), period.end), PeriodDays(period))
  }

  /** The difference between two plans over all seats. */
  function FullDifference(prices: Prices, oldPlan: string, newPlan: string, seats: nat): int {
    (Price(prices, newPlan) - Price(prices, oldPlan)) * seats
  }

  /** What a change between two plans costs. */
  function Charge(prices: Prices, oldPlan: string, newPlan: string, seats: nat, period: Period, now: int): int {
    Amount(FullDifference(prices, oldPlan, newPlan, seats), period, now)
  }

  /** No plan is left or entered. */
  predicate Unchanged(oldPlan: string, newPlan: string) {
    oldPlan == "" || newPlan == "" || oldPlan == newPlan
  }

  /** A change cannot be priced: a plan is unknown, or the seats cannot be counted. */
  predicate Refused(oldPlan: string, newPlan: string, seats: Outcome<nat>) {
    !Unchanged(oldPlan, newPlan) && (!Known(oldPlan) || !Known(newPlan) || (seats.Err? && seats.error != NotFound))
  }

  /** What a change that can be priced costs; a tenant that is not found has no seats. */
  function Due(prices: Prices, oldPlan: string, newPlan: string, seats: Outcome<nat>, period: Period, now: int): int {
    if Unchanged(oldPlan, newPlan) then 0
    else Charge(prices, oldPlan, newPlan, if seats.Ok? then seats.value else 0, period, now)
  }

  /** `seats` is the seat count or its lookup error; a tenant not found has none. */
  method ComputeProration(prices: Prices, oldPlan: string, newPlan: string, seats: Outcome<nat>, period: Period,
      at: int) returns (r: Outcome<int>)
    ensures r.Err? <==>
      && oldPlan != "" && newPlan != "" && oldPlan != newPlan
      && (oldPlan !in {"core", "pro", "privacy"} || newPlan !in {"core", "pro", "privacy"} ||
          (seats.Err? && seats.error != NotFound))
    ensures r.Err? ==> r.error != NotFound
    ensures r.Ok? ==> r.value == Due(prices, oldPlan, newPlan, seats, period, at)
    ensures r.Ok? && (oldPlan == "" || newPlan == "" || oldPlan == newPlan || seats.Err?) ==> r.value == 0
  {
    hide Quo;
    if oldPlan == "" || newPlan == "" || oldPlan == newPlan {
      return Ok(0);
    }
    var oldCents := GetPlanPricing(prices, oldPlan);
    if oldCents.Err? {
      return Err(oldCents.error);
    }
    var newCents := GetPlanPricing(prices, newPlan);
    if newCents.Err? {
      return Err(newCents.error);
    }
    if seats.Err? && seats.error != NotFound {
      return Err(seats.error);
    }
    var count := if seats.Ok? then seats.value else 0;
    ZeroAmount(period, at);
    var periodDays := Quo(period.end - period.start, DAY) + 1;
    if periodDays <= 0 {
      periodDays := 30;
    }
    var now := at;
    if now < period.start {
      now := period.start;
    }
    if now > period.end {
      return Ok(0);
    }
    var remainingDays := Quo(period.end - now, DAY) + 1;
    DaysPositive(now, period.end);
    if remainingDays < 0 {
      remainingDays := 0;
    }
    var delta := (newCents.value - oldCents.value) * count;
    r := Ok(Quo(delta * remainingDays, periodDays));
  }

  /** What a change costs before the period starts: the difference of the two plans' prices over all
      seats, which is negative when the new plan is the cheaper one. */
  lemma FullChargeByName(prices: Prices, seats: nat, period: Period, now: int)
    requires now <= period.start <= period.end
    ensures Charge(prices, "core", "pro", seats, period, now) == (prices.pro - prices.core) * seats
    ensures Charge(prices, "core", "privacy", seats, period, now) == (prices.privacy - prices.core) * seats
    ensures Charge(prices, "pro", "privacy", seats, period, now) == (prices.privacy - prices.pro) * seats
    ensures Charge(prices, "pro", "core", seats, period, now) == (prices.core - prices.pro) * seats
    ensures Charge(prices, "privacy", "core", seats, period, now) == (prices.core - prices.privacy) * seats
    ensures Charge(prices, "privacy", "pro", seats, period, now) == (prices.pro - prices.privacy) * seats
  {
    hide Amount;
    FullAtStart((prices.pro - prices.core) * seats, period, now);
    FullAtStart((prices.privacy - prices.core) * seats, period, now);
    FullAtStart((prices.privacy - prices.pro) * seats, period, now);
    FullAtStart((prices.core - prices.pro) * seats, period, now);
    FullAtStart((prices.core - prices.privacy) * seats, period, now);
    FullAtStart((prices.pro - prices.privacy) * seats, period, now);
  }

  /** Of a period of `n` days, a change on the day with `k` days after it pays `k + 1` of them, rounded
      toward zero. */
  lemma SharePerDay(delta: int, start: int, n: nat, k: nat, second: nat)
    requires k < n && second < 86400
    requires k < n - 1 || second == 0
    ensures var end := start + (n - 1) * 86400;
      var paid := Amount(delta, Period(start, end), end - k * 86400 - second);
      && (delta >= 0 ==> 0 <= paid * n <= delta * (k + 1) < paid * n + n)
      && (delta <= 0 ==> paid * n - n < delta * (k + 1) <= paid * n <= 0)
  {
    hide Quo;
    var end := start + (n - 1) * 86400;
    WholeDays(n - 1, 0);
    WholeDays(k, second);
    assert Days(start, end) == n;
    assert Days(end - k * 86400 - second, end) == k + 1;
    assert start <= end - k * 86400 - second <= end;
    QuoBounds(delta * (k + 1), n);
    assert delta >= 0 ==> delta * (k + 1) >= 0;
    assert delta <= 0 ==> delta * (k + 1) <= 0;
  }

  lemma WholeDays(k: nat, second: nat)
    requires second < 86400
    ensures Quo(k * 86400 + second, DAY) == k
  {
    assert (k * 86400 + second) / 86400 == k;
  }

  lemma DaysPositive(from: int, to: int)
    requires from <= to
    ensures Days(from, to) >= 1
  {
  }

  lemma DaysMonotone(from: int, from': int, to: int)
    requires from <= from' <= to
    ensures 1 <= Days(from', to) <= Days(from, to)
  {
    DivMonotone(to - from', to - from, DAY);
  }

  lemma ZeroAmount(period: Period, now: int)
    ensures Amount(0, period, now) == 0
  {
    DivOfProduct(0, PeriodDays(period));
  }

  lemma ChargeToSelf(prices: Prices, plan: string, seats: nat, period: Period, now: int)
    ensures Charge(prices, plan, plan, seats, period, now) == 0
  {
    hide Amount;
    ZeroAmount(period, now);
  }

  lemma MagnitudeOfProduct(m: int, x: nat)
    ensures Abs(m * x) == Abs(m) * x
  {
    assert m < 0 ==> m * x <= 0 && -(m * x) == -m * x;
    assert m >= 0 ==> m * x >= 0;
  }

  lemma ProductMonotone(m: nat, x: nat, y: nat)
    requires x <= y
    ensures m * x <= m * y
  {
    assert m * (y - x) >= 0;
    assert m * (y - x) == m * y - m * x;
  }

  /** The magnitude, as a quotient of naturals. */
  lemma Magnitude(delta: int, period: Period, now: int)
    requires Effective(period, now) <= period.end
    ensures Days(Effective(period, now), period.end) >= 1
    ensures Abs(delta) * Days(Effective(period, now), period.end) >= 0
    ensures Abs(Amount(delta, period, now)) ==
      Abs(delta) * Days(Effective(period, now), period.end) / PeriodDays(period)
  {
    hide Quo;
    var days := Days(Effective(period, now), period.end);
    DaysPositive(Effective(period, now), period.end);
    MagnitudeOfProduct(delta, days);
    QuoNegates(delta * days, PeriodDays(period));
  }

  /** As time passes the amount only shrinks. */
  lemma Shrinks(delta: int, period: Period, now: int, later: int)
    requires now <= later
    ensures Abs(Amount(delta, period, later)) <= Abs(Amount(delta, period, now))
  {
    hide Quo, Days;
    if Effective(period, later) <= period.end {
      hide Amount;
      Magnitude(delta, period, now);
      Magnitude(delta, period, later);
      DaysMonotone(Effective(period, now), Effective(period, later), period.end);
      var x, y := Days(Effective(period, later), period.end), Days(Effective(period, now), period.end);
      ProductMonotone(Abs(delta), x, y);
      DivMonotone(Abs(delta) * x, Abs(delta) * y, PeriodDays(period));
    }
  }

  /** At or before the start of a well-ordered period the whole difference is due. */
  lemma FullAtStart(delta: int, period: Period, now: int)
    requires now <= period.start <= period.end
    ensures Amount(delta, period, now) == delta
  {
    hide Quo;
    DaysPositive(period.start, period.end);
    var days := Days(period.start, period.end);
    MagnitudeOfProduct(delta, days);
    QuoNegates(delta * days, days);
    QuoSign(delta * days, days);
    DivOfProduct(Abs(delta), days);
    assert delta * days >= 0 <==> delta >= 0;
  }

  lemma QuoSign(a: int, d: int)
    requires d > 0
    ensures a >= 0 ==> Quo(a, d) >= 0
    ensures a <= 0 ==> Quo(a, d) <= 0
  {
    Euclid(Abs(a), d);
  }

  /** Never more than the whole difference, at any instant of any period. */
  lemma Bounded(delta: int, period: Period, now: int)
    ensures Abs(Amount(delta, period, now)) <= Abs(delta)
  {
    hide Quo, Days;
    if Effective(period, now) <= period.end {
      hide Amount;
      FullAtStart(delta, period, period.start);
      Shrinks(delta, period, period.start, Effective(period, now));
      SameEffect(delta, period, now);
    }
  }

  lemma SameEffect(delta: int, period: Period, now: int)
    ensures Amount(delta, period, Effective(period, now)) == Amount(delta, period, now)
  {
  }

  /** The amount has the sign of the difference. */
  lemma Signed(delta: int, period: Period, now: int)
    ensures delta >= 0 ==> Amount(delta, period, now) >= 0
    ensures delta <= 0 ==> Amount(delta, period, now) <= 0
  {
    hide Quo;
    if Effective(period, now) <= period.end {
      var days := Days(Effective(period, now), period.end);
      DaysPositive(Effective(period, now), period.end);
      QuoSign(delta * days, PeriodDays(period));
      assert delta >= 0 ==> delta * days >= 0;
      assert delta <= 0 ==> delta * days <= 0;
    }
  }

  lemma ZeroAfterEnd(delta: int, period: Period, now: int)
    requires now > period.end || period.start > period.end
    ensures Amount(delta, period, now) == 0
  {
  }

  lemma AmountNegates(delta: int, period: Period, now: int)
    ensures Amount(-delta, period, now) == -Amount(delta, period, now)
  {
    hide Quo;
    if Effective(period, now) <= period.end {
      var days := Days(Effective(period, now), period.end);
      assert -delta * days == -(delta * days);
      QuoNegates(delta * days, PeriodDays(period));
    }
  }

  lemma AmountAdds(x: int, y: int, period: Period, now: int)
    ensures -1 <= Amount(x, period, now) + Amount(y, period, now) - Amount(x + y, period, now) <= 1
  {
    hide Quo, Days;
    if Effective(period, now) <= period.end {
      var days := Days(Effective(period, now), period.end);
      assert (x + y) * days == x * days + y * days;
      QuoSum(x * days, y * days, PeriodDays(period));
    }
  }

  // ---- Plan changes -------------------------------------------------------------------------

  /** Changing back costs exactly what changing gave. */
  lemma ChargeAntisymmetric(prices: Prices, a: string, b: string, seats: nat, period: Period, now: int)
    ensures Charge(prices, b, a, seats, period, now) == -Charge(prices, a, b, seats, period, now)
  {
    hide Amount, Price;
    var d := Price(prices, b) - Price(prices, a);
    assert (Price(prices, a) - Price(prices, b)) * seats == -(d * seats);
    AmountNegates(d * seats, period, now);
  }

  /** What a list of plans, changed through in turn at one instant, costs in all. */
  function TotalCharge(prices: Prices, plans: seq<string>, seats: nat, period: Period, now: int): int {
    if |plans| < 2 then 0
    else
      var n := |plans| - 1;
      TotalCharge(prices, plans[..n], seats, period, now) + Charge(prices, plans[n - 1], plans[n], seats, period, now)
  }

  lemma ChargesAdd(prices: Prices, a: string, b: string, c: string, seats: nat, period: Period, now: int)
    ensures var direct := Charge(prices, a, c, seats, period, now);
      -1 <= Charge(prices, a, b, seats, period, now) + Charge(prices, b, c, seats, period, now) - direct <= 1
  {
    hide Amount, Price;
    var x, y := FullDifference(prices, a, b, seats), FullDifference(prices, b, c, seats);
    var p, q, r := Price(prices, a), Price(prices, b), Price(prices, c);
    assert (q - p) * seats + (r - q) * seats == (r - p) * seats;
    AmountAdds(x, y, period, now);
  }

  /** Through any number of plans, the total is within one cent per intermediate plan of the direct
      change. */
  lemma {:induction false} ChainedChanges(prices: Prices, plans: seq<string>, seats: nat, period: Period, now: int)
    requires |plans| >= 2
    ensures var direct := Charge(prices, plans[0], plans[|plans| - 1], seats, period, now);
      Abs(TotalCharge(prices, plans, seats, period, now) - direct) <= |plans| - 2
  {
    hide Charge;
    var n := |plans| - 1;
    if n == 1 {
      assert TotalCharge(prices, plans[..1], seats, period, now) == 0;
    } else {
      ChainedChanges(prices, plans[..n], seats, period, now);
      ChargesAdd(prices, plans[0], plans[n - 1], plans[n], seats, period, now);
    }
  }

  // ---- The lifecycle ------------------------------------------------------------------------

  datatype Subscription = Subscription(plan: string, status: string, stripeId: string, period: Period)

  /** A `plan_prorated` billing event. */
  datatype Prorated = Prorated(oldPlan: string, newPlan: string, cents: int)

  class Lifecycle {
    const prices: Prices
    var subscription: Option<Subscription>
    var events: seq<Prorated>

    constructor (prices: Prices)
      ensures this.prices == prices && subscription.None? && events == []
    {
      this.prices := prices;
      subscription, events := None, [];
    }

    /** `seats` is the seat count or its lookup error, as for `ComputeProration`. */
    method ProrationPreview(newPlan: string, seats: Outcome<nat>, now: int) returns (r: Outcome<int>)
      ensures r == Err(NotFound) <==> subscription.None?
      ensures subscription.Some? ==> var sub := subscription.value;
        && (r.Err? <==> Refused(sub.plan, newPlan, seats))
        && (r.Ok? ==> r.value == Due(prices, sub.plan, newPlan, seats, sub.period, now))
    {
      if subscription.None? {
        return Err(NotFound);
      }
      r := ComputeProration(prices, subscription.value.plan, newPlan, seats, subscription.value.period, now);
    }

    /** Records what the preview showed, or nothing where the preview is refused, and moves the
        subscription to the new plan within its period.  Without a subscription one is seeded and
        nothing is charged. */
    method OnPlanChanged(oldPlan: string, newPlan: string, seats: Outcome<nat>, now: int, monthLater: int)
      modifies this
      ensures old(subscription).None? ==>
        subscription == Some(Subscription(newPlan, "active", "", Period(now, monthLater))) && events == old(events)
      ensures old(subscription).Some? ==> subscription == Some(old(subscription).value.(plan := newPlan))
      ensures old(subscription).Some? ==>
        var cents := if Refused(oldPlan, newPlan, seats) then 0
          else Due(prices, oldPlan, newPlan, seats, old(subscription).value.period, now);
        events == old(events) + [Prorated(oldPlan, newPlan, cents)]
    {
      hide Due;
      if subscription.None? {
        subscription := Some(Subscription(newPlan, "active", "", Period(now, monthLater)));
        return;
      }
      var prorated := ComputeProration(prices, oldPlan, newPlan, seats, subscription.value.period, now);
      var cents := if prorated.Ok? then prorated.value else 0;
      subscription := Some(subscription.value.(plan := newPlan));
      events := events + [Prorated(oldPlan, newPlan, cents)];
    }
  }
}
