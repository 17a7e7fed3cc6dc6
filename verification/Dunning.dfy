/** Failed-payment handling (internal/billing/dunning.go).  Time is in seconds. */
module Dunning {
  import opened Wrappers

  const WINDOW := 30 * 24 * 3600
  const THRESHOLD := 3

  /** An `invoice.payment_failed` event; a zero time is `None`. */
  datatype Delivery = Delivery(tenant: string, invoice: string, occurredAt: Option<int>)

  /** A recorded failure. */
  datatype Failure = Failure(tenant: string, invoice: string, at: int)

  /** The failure a delivery reports; without a time it is the handler's clock. */
  function Resolved(e: Delivery, clock: int): Failure {
    Failure(e.tenant, e.invoice, if e.occurredAt.Some? then e.occurredAt.value else clock)
  }

  datatype Notice = Notice(tenant: string, invoice: string)

  datatype World = World(rows: seq<Failure>, suspended: set<string>, notices: seq<Notice>)

  const EMPTY: World := World([], {}, [])

  predicate Seen(rows: seq<Failure>, invoice: string) {
    exists i :: 0 <= i < |rows| && rows[i].invoice == invoice
  }

  /** The times of a tenant's recorded failures, in the order they were recorded. */
  function TimesOf(rows: seq<Failure>, tenant: string): seq<int> {
    if rows == [] then []
    else
      var rest, last := TimesOf(rows[..|rows| - 1], tenant), rows[|rows| - 1];
      if last.tenant == tenant then rest + [last.at] else rest
  }

  function CountSince(times: seq<int>, cutoff: int): nat {
    if times == [] then 0
    else CountSince(times[..|times| - 1], cutoff) + (if times[|times| - 1] >= cutoff then 1 else 0)
  }

  /** The failure brings its tenant to the threshold. */
  predicate Due(rows: seq<Failure>, f: Failure) {
    CountSince(TimesOf(rows + [f], f.tenant), f.at - WINDOW) >= THRESHOLD
  }

  /** One delivery whose record commits; suspending the tenant is a later transaction of its own that
      may fail. */
  datatype Attempt = Attempt(failure: Failure, suspendFails: bool)

  function Handled(w: World, a: Attempt): World {
    var f := a.failure;
    if f.tenant == "" || Seen(w.rows, f.invoice) then w
    else
      World(w.rows + [f],
            if Due(w.rows, f) && !a.suspendFails then w.suspended + {f.tenant} else w.suspended,
            w.notices + [Notice(f.tenant, f.invoice)])
  }

  function Run(w: World, history: seq<Attempt>): World {
    if history == [] then w else Handled(Run(w, history[..|history| - 1]), history[|history| - 1])
  }

  function Failures(history: seq<Attempt>): (r: seq<Failure>)
    ensures |r| == |history| && forall i :: 0 <= i < |r| ==> r[i] == history[i].failure
  {
    seq(|history|, i requires 0 <= i < |history| => history[i].failure)
  }

  // ---- The service --------------------------------------------------------------------------

  class DunningService {
    var rows: seq<Failure>
    var suspended: set<string>
    var notices: seq<Notice>

    ghost function State(): World
      reads this
    {
      World(rows, suspended, notices)
    }

    constructor ()
      ensures State() == EMPTY
    {
      rows, suspended, notices := [], {}, [];
    }

    /** Inserts unless the invoice is already there, then counts the tenant's rows in the window. */
    method RecordAndCount(f: Failure) returns (count: nat, isNew: bool)
      modifies this`rows
      ensures isNew <==> !Seen(old(rows), f.invoice)
      ensures rows == if isNew then old(rows) + [f] else old(rows)
      ensures count == CountSince(TimesOf(rows, f.tenant), f.at - WINDOW)
    {
      isNew := !exists i :: 0 <= i < |rows| && rows[i].invoice == f.invoice;
      if isNew {
        rows := rows + [f];
      }
      count := 0;
      for i := 0 to |rows|
        invariant count == CountSince(TimesOf(rows[..i], f.tenant), f.at - WINDOW)
      {
        assert rows[..i + 1][..i] == rows[..i];
        ghost var times := TimesOf(rows[..i], f.tenant);
        assert (times + [rows[i].at])[..|times|] == times;
        if rows[i].tenant == f.tenant && rows[i].at >= f.at - WINDOW {
          count := count + 1;
        }
      }
      assert rows[..|rows|] == rows;
    }

    method Suspend(tenant: string)
      modifies this`suspended
      ensures suspended == old(suspended) + {tenant}
    {
      if tenant !in suspended {
        suspended := suspended + {tenant};
      }
    }

    /** An error is returned for a missing tenant, when recording fails, and when the suspension this
        delivery calls for fails.  A failed record leaves nothing behind, as if not delivered. */
    method Handle(e: Delivery, clock: int, recordFails: bool, suspendFails: bool) returns (ok: bool)
      modifies this
      ensures State() ==
        if recordFails then old(State()) else Handled(old(State()), Attempt(Resolved(e, clock), suspendFails))
      ensures e.tenant != "" && !recordFails && !Seen(old(rows), e.invoice) ==>
        var at := if e.occurredAt.Some? then e.occurredAt.value else clock;
        rows == old(rows) + [Failure(e.tenant, e.invoice, at)]
      ensures ok <==>
        && e.tenant != "" && !recordFails
        && !(suspendFails && !Seen(old(rows), e.invoice) && Due(old(rows), Resolved(e, clock)))
    {
      if e.tenant == "" || recordFails {
        return false;
      }
      var f := Resolved(e, clock);
      var failures, isNew := RecordAndCount(f);
      if isNew {
        notices := notices + [Notice(e.tenant, e.invoice)];
      }
      if isNew && failures >= THRESHOLD {
        if suspendFails {
          return false;
        }
        Suspend(e.tenant);
      }
      return true;
    }
  }

  // ---- Redeliveries ---------------------------------------------------------------------------

  /** Position `i` repeats an invoice already delivered with a tenant. */
  predicate Redelivered(history: seq<Failure>, i: nat)
    requires i < |history|
  {
    Delivered(history[..i], history[i].invoice)
  }

  /** The invoice was delivered for some tenant. */
  predicate Delivered(history: seq<Failure>, invoice: string) {
    exists j :: 0 <= j < |history| && history[j].tenant != "" && history[j].invoice == invoice
  }

  lemma DeliveredSnoc(history: seq<Failure>, f: Failure, invoice: string)
    ensures Delivered(history + [f], invoice) <==>
      Delivered(history, invoice) || (f.tenant != "" && f.invoice == invoice)
  {
    var more := history + [f];
    assert more[|history|] == f;
    assert forall j :: 0 <= j < |history| ==> more[j] == history[j];
  }

  lemma SeenSnoc(rows: seq<Failure>, f: Failure, invoice: string)
    ensures Seen(rows + [f], invoice) <==> Seen(rows, invoice) || f.invoice == invoice
  {
    var more := rows + [f];
    assert more[|rows|] == f;
    assert forall j :: 0 <= j < |rows| ==> more[j] == rows[j];
  }

  lemma FailuresSnoc(history: seq<Attempt>)
    requires history != []
    ensures var n := |history| - 1; Failures(history) == Failures(history[..n]) + [history[n].failure]
  {
  }

  lemma {:induction false} DeliveredIsSeen(history: seq<Attempt>, invoice: string)
    ensures Seen(Run(EMPTY, history).rows, invoice) <==> Delivered(Failures(history), invoice)
  {
    hide Due, Delivered, Failures;
    if history == [] {
      NothingDelivered(invoice);
    } else {
      var n := |history| - 1;
      DeliveredIsSeen(history[..n], invoice);
      FailuresSnoc(history);
      DeliveredSnoc(Failures(history[..n]), history[n].failure, invoice);
      HandledSees(Run(EMPTY, history[..n]), history[n], invoice);
    }
  }

  lemma NothingDelivered(invoice: string)
    ensures !Delivered([], invoice) && Failures([]) == [] && !Seen([], invoice)
  {
  }

  lemma HandledSees(w: World, a: Attempt, invoice: string)
    ensures Seen(Handled(w, a).rows, invoice) <==>
      Seen(w.rows, invoice) || (a.failure.tenant != "" && a.failure.invoice == invoice)
  {
    hide Due, Seen;
    SeenSnoc(w.rows, a.failure, invoice);
  }

  lemma {:induction false} RunConcat(w: World, xs: seq<Attempt>, ys: seq<Attempt>)
    ensures Run(w, xs + ys) == Run(Run(w, xs), ys)
  {
    hide Handled;
    if ys == [] {
      assert xs + ys == xs;
    } else {
      assert (xs + ys)[..|xs + ys| - 1] == xs + ys[..|ys| - 1];
      RunConcat(w, xs, ys[..|ys| - 1]);
    }
  }

  lemma SeenChangesNothing(w: World, a: Attempt)
    requires Seen(w.rows, a.failure.invoice)
    ensures Handled(w, a) == w
  {
  }

  lemma RunSnoc(w: World, history: seq<Attempt>, a: Attempt)
    ensures Run(w, history + [a]) == Handled(Run(w, history), a)
  {
    hide Handled;
    assert (history + [a])[..|history|] == history;
  }

  /** Striking any redelivery from the history changes nothing at all, whatever suspensions fail. */
  lemma {:induction false} RedeliveryIsIgnored(history: seq<Attempt>, i: nat)
    requires i < |history| && Redelivered(Failures(history), i)
    ensures Run(EMPTY, history) == Run(EMPTY, history[..i] + history[i + 1..])
  {
    hide Handled, Seen, Run, Delivered;
    var before, after := history[..i], history[i + 1..];
    assert Failures(history)[..i] == Failures(before);
    DeliveredIsSeen(before, history[i].failure.invoice);
    SeenChangesNothing(Run(EMPTY, before), history[i]);
    RunSnoc(EMPTY, before, history[i]);
    assert history == before + [history[i]] + after;
    RunConcat(EMPTY, before + [history[i]], after);
    RunConcat(EMPTY, before, after);
  }

  ghost predicate OneEach(w: World) {
    |w.notices| == |w.rows| &&
    (forall i :: 0 <= i < |w.rows| ==> w.notices[i] == Notice(w.rows[i].tenant, w.rows[i].invoice)) &&
    forall i, j :: 0 <= i < j < |w.rows| ==> w.rows[i].invoice != w.rows[j].invoice
  }

  lemma {:induction false} RunKeepsOneEach(history: seq<Attempt>)
    ensures OneEach(Run(EMPTY, history))
  {
    hide Due;
    if history != [] {
      RunKeepsOneEach(history[..|history| - 1]);
    }
  }

  function Notices(notices: seq<Notice>, invoice: string): nat {
    if notices == [] then 0
    else Notices(notices[..|notices| - 1], invoice) + (if notices[|notices| - 1].invoice == invoice then 1 else 0)
  }

  lemma {:induction false} CountUnique(notices: seq<Notice>, invoice: string)
    requires forall i, j :: 0 <= i < j < |notices| ==> notices[i].invoice != notices[j].invoice
    ensures Notices(notices, invoice) ==
      if exists i :: 0 <= i < |notices| && notices[i].invoice == invoice then 1 else 0
  {
    if notices != [] {
      var n := |notices| - 1;
      CountUnique(notices[..n], invoice);
      assert forall i :: 0 <= i < n ==> notices[..n][i] == notices[i];
    }
  }

  /** Each invoice delivered for a tenant is notified exactly once, and nothing else is. */
  lemma OneNoticePerInvoice(history: seq<Attempt>, invoice: string)
    ensures Notices(Run(EMPTY, history).notices, invoice) == if Delivered(Failures(history), invoice) then 1 else 0
  {
    hide Run, Delivered, Failures;
    var w := Run(EMPTY, history);
    RunKeepsOneEach(history);
    DeliveredIsSeen(history, invoice);
    CountUnique(w.notices, invoice);
    assert forall i :: 0 <= i < |w.rows| ==> w.notices[i].invoice == w.rows[i].invoice;
  }

  /** The deliveries that are new when they arrive. */
  function FirstDeliveries(history: seq<Failure>): seq<Failure> {
    if history == [] then []
    else
      var n := |history| - 1;
      if history[n].tenant == "" || Redelivered(history, n) then FirstDeliveries(history[..n])
      else FirstDeliveries(history[..n]) + [history[n]]
  }

  lemma FirstsSnoc(history: seq<Failure>, f: Failure)
    ensures FirstDeliveries(history + [f]) ==
      if f.tenant == "" || Delivered(history, f.invoice) then FirstDeliveries(history)
      else FirstDeliveries(history) + [f]
  {
    hide Delivered;
    assert (history + [f])[..|history|] == history;
  }

  lemma {:induction false} RowsAreFirsts(history: seq<Attempt>)
    ensures Run(EMPTY, history).rows == FirstDeliveries(Failures(history))
  {
    hide Due, Failures, Delivered, FirstDeliveries, Seen;
    if history == [] {
      NothingFirst();
    } else {
      var n := |history| - 1;
      RowsAreFirsts(history[..n]);
      DeliveredIsSeen(history[..n], history[n].failure.invoice);
      FailuresSnoc(history);
      FirstsSnoc(Failures(history[..n]), history[n].failure);
    }
  }

  lemma NothingFirst()
    ensures Failures([]) == [] && FirstDeliveries([]) == []
  {
  }

  // ---- Suspension -----------------------------------------------------------------------------

  /** Delivery `i` is the tenant's, is new, and brings it to the threshold. */
  ghost predicate CallsForSuspension(history: seq<Failure>, i: nat, tenant: string)
    requires i < |history|
  {
    tenant != "" && history[i].tenant == tenant && !Redelivered(history, i) &&
    Due(FirstDeliveries(history[..i]), history[i])
  }

  /** Some delivery calls for a suspension, and that suspension does not fail. */
  ghost predicate SuspensionSucceeds(history: seq<Attempt>, tenant: string) {
    exists i :: SucceedsAt(history, i, tenant)
  }

  ghost predicate SucceedsAt(history: seq<Attempt>, i: nat, tenant: string) {
    i < |history| && CallsForSuspension(Failures(history), i, tenant) && !history[i].suspendFails
  }

  lemma SucceedsBefore(history: seq<Attempt>, i: nat, tenant: string)
    requires i < |history| - 1
    ensures SucceedsAt(history[..|history| - 1], i, tenant) <==> SucceedsAt(history, i, tenant)
  {
    hide Due, Redelivered, FirstDeliveries;
    var n := |history| - 1;
    assert Failures(history[..n])[..i] == Failures(history)[..i];
    assert Redelivered(Failures(history[..n]), i) <==> Redelivered(Failures(history), i) by {
      RedeliveredBefore(Failures(history[..n]), Failures(history), i);
    }
  }

  lemma RedeliveredBefore(short: seq<Failure>, long: seq<Failure>, i: nat)
    requires i < |short| <= |long| && short[..i] == long[..i] && short[i] == long[i]
    ensures Redelivered(short, i) <==> Redelivered(long, i)
  {
  }

  /** The last delivery suspends exactly when it calls for it and that does not fail. */
  lemma LastSuspends(history: seq<Attempt>, tenant: string)
    requires history != []
    ensures var n := |history| - 1;
      var w := Run(EMPTY, history[..n]);
      tenant in Run(EMPTY, history).suspended <==> tenant in w.suspended || SucceedsAt(history, n, tenant)
  {
    hide Due, Seen, Delivered, FirstDeliveries;
    var n := |history| - 1;
    RowsAreFirsts(history[..n]);
    DeliveredIsSeen(history[..n], history[n].failure.invoice);
    assert Failures(history)[..n] == Failures(history[..n]);
  }

  /** In every history, whichever suspensions fail, a tenant ends suspended exactly when some new
      failure that brings it to the threshold has a suspension that succeeds. */
  lemma {:induction false} SuspendedIffSucceeds(history: seq<Attempt>, tenant: string)
    ensures tenant in Run(EMPTY, history).suspended <==> SuspensionSucceeds(history, tenant)
  {
    hide Run, SucceedsAt;
    if history == [] {
      NothingSucceeds(tenant);
    } else {
      var n := |history| - 1;
      SuspendedIffSucceeds(history[..n], tenant);
      LastSuspends(history, tenant);
      if i: nat :| SucceedsAt(history[..n], i, tenant) {
        SucceedsInside(history[..n], i, tenant);
        SucceedsBefore(history, i, tenant);
      }
      if i: nat :| SucceedsAt(history, i, tenant) {
        SucceedsInside(history, i, tenant);
        if i < n {
          SucceedsBefore(history, i, tenant);
        }
      }
    }
  }

  lemma SucceedsInside(history: seq<Attempt>, i: nat, tenant: string)
    requires SucceedsAt(history, i, tenant)
    ensures i < |history|
  {
  }

  lemma NothingSucceeds(tenant: string)
    ensures !SuspensionSucceeds([], tenant) && Run(EMPTY, []) == EMPTY
  {
  }

  // ---- When every suspension succeeds -----------------------------------------------------------

  /** Three failures, the last recorded of which has the other two at or after its cutoff. */
  ghost predicate Trips(times: seq<int>) {
    exists i, j, k :: TripsAt(times, i, j, k)
  }

  ghost predicate TripsAt(times: seq<int>, i: nat, j: nat, k: nat) {
    i < j < k < |times| && times[i] >= times[k] - WINDOW && times[j] >= times[k] - WINDOW
  }

  ghost predicate PairSince(times: seq<int>, cutoff: int) {
    exists i, j :: PairAt(times, cutoff, i, j)
  }

  ghost predicate PairAt(times: seq<int>, cutoff: int, i: nat, j: nat) {
    i < j < |times| && times[i] >= cutoff && times[j] >= cutoff
  }

  lemma {:induction false} OneSince(times: seq<int>, cutoff: int)
    ensures CountSince(times, cutoff) >= 1 <==> exists i :: 0 <= i < |times| && times[i] >= cutoff
  {
    if times != [] {
      var n := |times| - 1;
      OneSince(times[..n], cutoff);
      assert forall i :: 0 <= i < n ==> times[..n][i] == times[i];
    }
  }

  lemma {:induction false} TwoSince(times: seq<int>, cutoff: int)
    ensures CountSince(times, cutoff) >= 2 <==> PairSince(times, cutoff)
  {
    if times != [] {
      var n := |times| - 1;
      TwoSince(times[..n], cutoff);
      OneSince(times[..n], cutoff);
      if PairSince(times[..n], cutoff) {
        var i: nat, j: nat :| PairAt(times[..n], cutoff, i, j);
        assert PairAt(times, cutoff, i, j);
      }
      if CountSince(times, cutoff) >= 2 && CountSince(times[..n], cutoff) == 1 {
        var i :| 0 <= i < n && times[..n][i] >= cutoff;
        assert PairAt(times, cutoff, i, n);
      }
      if PairSince(times, cutoff) {
        var i: nat, j: nat :| PairAt(times, cutoff, i, j);
        assert times[..n][i] == times[i];
        assert j < n ==> PairAt(times[..n], cutoff, i, j);
      }
    }
  }

  /** A new failure brings the count to the threshold exactly when it completes a trip. */
  lemma TripsSnoc(times: seq<int>, t: int)
    ensures Trips(times + [t]) <==> Trips(times) || CountSince(times + [t], t - WINDOW) >= THRESHOLD
  {
    hide CountSince;
    var more, n := times + [t], |times|;
    assert more[..n] == times && more[n] == t;
    CountLast(times, t);
    TwoSince(times, t - WINDOW);
    if PairSince(times, t - WINDOW) {
      var i: nat, j: nat :| PairAt(times, t - WINDOW, i, j);
      assert TripsAt(more, i, j, n);
    }
    if Trips(times) {
      var i: nat, j: nat, k: nat :| TripsAt(times, i, j, k);
      assert TripsAt(more, i, j, k);
    }
    if Trips(more) {
      var i: nat, j: nat, k: nat :| TripsAt(more, i, j, k);
      assert more[i] == times[i] && more[j] == times[j];
      assert k < n ==> TripsAt(times, i, j, k);
      assert k == n ==> PairAt(times, t - WINDOW, i, j);
    }
  }

  lemma CountLast(times: seq<int>, t: int)
    ensures CountSince(times + [t], t - WINDOW) == CountSince(times, t - WINDOW) + 1
  {
    assert (times + [t])[..|times|] == times;
  }

  predicate NoneFails(history: seq<Attempt>) {
    forall i :: 0 <= i < |history| ==> !history[i].suspendFails
  }

  lemma TimesSnoc(rows: seq<Failure>, f: Failure, tenant: string)
    ensures TimesOf(rows + [f], tenant) ==
      if f.tenant == tenant then TimesOf(rows, tenant) + [f.at] else TimesOf(rows, tenant)
  {
    assert (rows + [f])[..|rows|] == rows;
  }

  /** Then, whatever its order, a tenant ends suspended exactly when its new failures trip. */
  lemma {:induction false} SuspendedIffTrips(history: seq<Attempt>, tenant: string)
    requires NoneFails(history)
    ensures tenant in Run(EMPTY, history).suspended <==> Trips(TimesOf(FirstDeliveries(Failures(history)), tenant))
  {
    hide TimesOf, Trips, FirstDeliveries, Failures, Handled;
    RowsAreFirsts(history);
    if history == [] {
      NothingTrips(tenant);
    } else {
      var n := |history| - 1;
      SuspendedIffTrips(history[..n], tenant);
      RowsAreFirsts(history[..n]);
      HandledSuspends(Run(EMPTY, history[..n]), history[n], tenant);
    }
  }

  lemma NothingTrips(tenant: string)
    ensures FirstDeliveries(Failures([])) == [] && !Trips(TimesOf([], tenant))
  {
  }

  lemma HandledSuspends(w: World, a: Attempt, tenant: string)
    requires !a.suspendFails && (tenant in w.suspended <==> Trips(TimesOf(w.rows, tenant)))
    ensures tenant in Handled(w, a).suspended <==> Trips(TimesOf(Handled(w, a).rows, tenant))
  {
    hide CountSince, Trips, TimesOf, Seen;
    TimesSnoc(w.rows, a.failure, tenant);
    TripsSnoc(TimesOf(w.rows, tenant), a.failure.at);
  }

  /** Three failures within thirty days of one another. */
  ghost predicate ThreeClose(times: seq<int>) {
    exists i, j, k :: CloseAt(times, i, j, k)
  }

  ghost predicate CloseAt(times: seq<int>, i: nat, j: nat, k: nat) {
    i < j < k < |times| && Near(times[i], times[j]) && Near(times[i], times[k]) && Near(times[j], times[k])
  }

  /** Within thirty days, in seconds. */
  predicate Near(s: int, t: int) {
    -2592000 <= s - t <= 2592000
  }

  predicate InOrder(times: seq<int>) {
    forall i, j :: 0 <= i < j < |times| ==> times[i] <= times[j]
  }

  /** Three close failures always suspend, in whatever order they arrive. */
  lemma CloseSuspends(history: seq<Attempt>, tenant: string)
    requires NoneFails(history)
    requires ThreeClose(TimesOf(FirstDeliveries(Failures(history)), tenant))
    ensures tenant in Run(EMPTY, history).suspended
  {
    hide TimesOf, FirstDeliveries, Run, Failures;
    SuspendedIffTrips(history, tenant);
    var times := TimesOf(FirstDeliveries(Failures(history)), tenant);
    var i: nat, j: nat, k: nat :| CloseAt(times, i, j, k);
    assert TripsAt(times, i, j, k);
  }

  /** When new failures arrive in time order, nothing else does. */
  lemma SuspendedIffClose(history: seq<Attempt>, tenant: string)
    requires NoneFails(history)
    requires InOrder(TimesOf(FirstDeliveries(Failures(history)), tenant))
    ensures tenant in Run(EMPTY, history).suspended <==> ThreeClose(TimesOf(FirstDeliveries(Failures(history)), tenant))
  {
    hide TimesOf, FirstDeliveries, Run, Failures;
    SuspendedIffTrips(history, tenant);
    var times := TimesOf(FirstDeliveries(Failures(history)), tenant);
    if ThreeClose(times) {
      CloseSuspends(history, tenant);
    }
    if Trips(times) {
      var i: nat, j: nat, k: nat :| TripsAt(times, i, j, k);
      assert CloseAt(times, i, j, k);
    }
  }

  function Successful(failures: seq<Failure>): (r: seq<Attempt>)
    ensures NoneFails(r) && Failures(r) == failures
  {
    seq(|failures|, i requires 0 <= i < |failures| => Attempt(failures[i], false))
  }

  /** Out of order it can: a failure that arrives last but happened long before two others, which
      are far apart themselves, suspends the tenant. */
  lemma LateArrivalSuspends(d: int)
    requires d > WINDOW
    ensures var failures := [Failure("t", "a", d), Failure("t", "b", 2 * d), Failure("t", "c", 0)];
      "t" in Run(EMPTY, Successful(failures)).suspended && !ThreeClose(TimesOf(FirstDeliveries(failures), "t"))
  {
    hide TimesOf, FirstDeliveries, Run, Failures, Successful;
    var a, b, c := Failure("t", "a", d), Failure("t", "b", 2 * d), Failure("t", "c", 0);
    ThreeFirsts(a, b, c);
    SuspendedIffTrips(Successful([a, b, c]), "t");
    assert TripsAt([d, 2 * d, 0], 0, 1, 2);
  }

  lemma ThreeFirsts(a: Failure, b: Failure, c: Failure)
    requires a.tenant == b.tenant == c.tenant == "t" && a.invoice == "a" && b.invoice == "b" && c.invoice == "c"
    ensures FirstDeliveries([a, b, c]) == [a, b, c] && TimesOf([a, b, c], "t") == [a.at, b.at, c.at]
    ensures TimesOf([a, b], "t") == [a.at, b.at] && TimesOf([a], "t") == [a.at]
  {
    hide FirstDeliveries, TimesOf, Delivered;
    assert [] + [a] == [a] && [a] + [b] == [a, b] && [a, b] + [c] == [a, b, c];
    assert [] + [a.at] == [a.at] && [a.at] + [b.at] == [a.at, b.at] && [a.at, b.at] + [c.at] == [a.at, b.at, c.at];
    NothingDelivered("a");
    NothingDelivered("b");
    NothingDelivered("c");
    NextFirst([], [], [], a);
    DeliveredSnoc([], a, "b");
    DeliveredSnoc([], a, "c");
    NextFirst([a], [a], [a.at], b);
    DeliveredSnoc([a], b, "c");
    NextFirst([a, b], [a, b], [a.at, b.at], c);
  }

  lemma NextFirst(history: seq<Failure>, firsts: seq<Failure>, times: seq<int>, f: Failure)
    requires f.tenant == "t" && !Delivered(history, f.invoice)
    requires history == [] || (FirstDeliveries(history) == firsts && TimesOf(history, "t") == times)
    requires history == [] ==> firsts == [] && times == []
    ensures FirstDeliveries(history + [f]) == firsts + [f] && TimesOf(history + [f], "t") == times + [f.at]
  {
    hide Delivered;
    FirstsSnoc(history, f);
    TimesSnoc(history, f, "t");
  }

  // ---- When a suspension fails ------------------------------------------------------------------

  lemma {:induction false} CountAtMost(times: seq<int>, cutoff: int)
    ensures CountSince(times, cutoff) <= |times|
  {
    if times != [] {
      CountAtMost(times[..|times| - 1], cutoff);
    }
  }

  function Again(f: Failure, n: nat): seq<Attempt> {
    if n == 0 then [] else Again(f, n - 1) + [Attempt(f, false)]
  }

  lemma {:induction false} AgainChangesNothing(history: seq<Attempt>, f: Failure, n: nat)
    requires Seen(Run(EMPTY, history).rows, f.invoice)
    ensures Run(EMPTY, history + Again(f, n)) == Run(EMPTY, history)
  {
    hide Run, Handled, Seen;
    if n == 0 {
      assert history + [] == history;
    } else {
      AgainChangesNothing(history, f, n - 1);
      assert history + Again(f, n) == history + Again(f, n - 1) + [Attempt(f, false)];
      RunSnoc(EMPTY, history + Again(f, n - 1), Attempt(f, false));
      SeenChangesNothing(Run(EMPTY, history), Attempt(f, false));
    }
  }

  /** The third failure's suspension fails, and it is the first one called for. */
  lemma ThreeThenFailed(a: Failure, b: Failure, c: Failure)
    requires a.tenant == b.tenant == c.tenant == "t" && a.invoice == "a" && b.invoice == "b" && c.invoice == "c"
    ensures var w := Run(EMPTY, [Attempt(a, false), Attempt(b, false), Attempt(c, true)]);
      w.rows == [a, b, c] && w.suspended == {}
  {
    hide Run, TimesOf, CountSince, FirstDeliveries, Seen;
    ThreeFirsts(a, b, c);
    var x, y, z := Attempt(a, false), Attempt(b, false), Attempt(c, true);
    assert [] + [x] == [x] && [x] + [y] == [x, y] && [x, y] + [z] == [x, y, z];
    NothingSucceeds("t");
    NothingDelivered("a");
    NothingDelivered("b");
    NothingDelivered("c");
    RunSnoc(EMPTY, [], x);
    RunSnoc(EMPTY, [x], y);
    RunSnoc(EMPTY, [x, y], z);
    SeenSnoc([], a, "b");
    SeenSnoc([], a, "c");
    SeenSnoc([a], b, "c");
    assert [] + [a] == [a] && [a] + [b] == [a, b] && [a, b] + [c] == [a, b, c];
    CountAtMost([a.at], a.at - WINDOW);
    CountAtMost([a.at, b.at], b.at - WINDOW);
  }

  /** Three close failures whose one suspension fails, and any number of redeliveries of the third
      with nothing failing: the tenant is not suspended, and never will be by them. */
  lemma FailedSuspensionIsNotRetried(redeliveries: nat)
    ensures var a, b, c := Failure("t", "a", 0), Failure("t", "b", 1), Failure("t", "c", 2);
      var history := [Attempt(a, false), Attempt(b, false), Attempt(c, true)] + Again(c, redeliveries);
      && ThreeClose(TimesOf(FirstDeliveries(Failures(history)), "t"))
      && "t" !in Run(EMPTY, history).suspended
  {
    hide Run, Handled, TimesOf, FirstDeliveries, Failures, Again;
    var a, b, c := Failure("t", "a", 0), Failure("t", "b", 1), Failure("t", "c", 2);
    var history := [Attempt(a, false), Attempt(b, false), Attempt(c, true)];
    ThreeThenFailed(a, b, c);
    assert Run(EMPTY, history).rows[2] == c;
    AgainChangesNothing(history, c, redeliveries);
    RowsAreFirsts(history + Again(c, redeliveries));
    ThreeFirsts(a, b, c);
    assert CloseAt([0, 1, 2], 0, 1, 2);
  }
}
