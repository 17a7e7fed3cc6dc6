/** Overlapping deliveries of failed payments (internal/billing/dunning.go), as interleaved
    transaction steps under READ COMMITTED.

    A delivery inserts its row, which waits while another open transaction holds the invoice, then
    counts the rows committed by then and its own, and commits.  Suspending the tenant is a later
    transaction of its own.
  */
module DunningProtocol {
  import opened Dunning

  /** A committed failure; `seen` rows had been committed when its transaction counted. */
  datatype Row = Row(failure: Failure, seen: nat)

  datatype Tx = Ignored(failure: Failure) | Inserted(failure: Failure) | Counted(failure: Failure, seen: nat)

  /** `owed`, `done` and `failed` hold the positions of the rows whose delivery has still to suspend the
      tenant, has done so, and could not. */
  datatype State = State(open: map<nat, Tx>, rows: seq<Row>, owed: set<nat>, done: set<nat>, failed: set<nat>,
      suspended: set<string>)

  datatype Action =
    | Insert(tx: nat, failure: Failure)
    | Count(tx: nat)
    | Commit(tx: nat)
    | Abort(tx: nat)
    | Suspend(k: nat)
    | SuspendFails(k: nat)

  const START: State := State(map[], [], {}, {}, {}, {})

  function Records(rows: seq<Row>): (r: seq<Failure>)
    ensures |r| == |rows| && forall i :: 0 <= i < |r| ==> r[i] == rows[i].failure
  {
    seq(|rows|, i requires 0 <= i < |rows| => rows[i].failure)
  }

  // ---- Steps ------------------------------------------------------------------------------

  /** An open transaction has inserted a row for the invoice. */
  predicate Held(open: map<nat, Tx>, invoice: string) {
    exists t :: t in open && !open[t].Ignored? && open[t].failure.invoice == invoice
  }

  predicate Enabled(st: State, a: Action) {
    match a
    case Insert(tx, f) => tx !in st.open && f.tenant != "" && !Held(st.open, f.invoice)
    case Count(tx) => tx in st.open && st.open[tx].Inserted?
    case Commit(tx) => tx in st.open && !st.open[tx].Inserted?
    case Abort(tx) => tx in st.open
    case Suspend(k) => k in st.owed && k < |st.rows|
    case SuspendFails(k) => k in st.owed
  }

  /** A failure that counted the first `seen` rows and itself reaches the threshold. */
  predicate Reaches(rows: seq<Row>, seen: nat, f: Failure) {
    seen <= |rows| && Due(Records(rows[..seen]), f)
  }

  function Recorded(st: State, f: Failure, seen: nat): State {
    st.(rows := st.rows + [Row(f, seen)],
        owed := if Reaches(st.rows, seen, f) then st.owed + {|st.rows|} else st.owed)
  }

  function Apply(st: State, a: Action): State
    requires Enabled(st, a)
  {
    match a
    case Insert(tx, f) =>
      st.(open := st.open[tx := if Seen(Records(st.rows), f.invoice) then Ignored(f) else Inserted(f)])
    case Count(tx) => st.(open := st.open[tx := Counted(st.open[tx].failure, |st.rows|)])
    case Commit(tx) =>
      var left := st.(open := st.open - {tx});
      if st.open[tx].Ignored? then left else Recorded(left, st.open[tx].failure, st.open[tx].seen)
    case Abort(tx) => st.(open := st.open - {tx})
    case Suspend(k) =>
      st.(owed := st.owed - {k}, done := st.done + {k}, suspended := st.suspended + {st.rows[k].failure.tenant})
    case SuspendFails(k) => st.(owed := st.owed - {k}, failed := st.failed + {k})
  }

  predicate IsRun(st: State, run: seq<Action>)
    decreases |run|
  {
    run == [] || (Enabled(st, run[0]) && IsRun(Apply(st, run[0]), run[1..]))
  }

  function Final(st: State, run: seq<Action>): State
    requires IsRun(st, run)
    decreases |run|
  {
    if run == [] then st else Final(Apply(st, run[0]), run[1..])
  }

  // ---- What every step keeps ------------------------------------------------------------------

  /** No count has seen rows that were not there yet. */
  ghost predicate Past(st: State) {
    (forall t :: t in st.open && st.open[t].Counted? ==> st.open[t].seen <= |st.rows|) &&
    forall k :: 0 <= k < |st.rows| ==> st.rows[k].seen <= k
  }

  /** The row reached the threshold when its transaction counted. */
  predicate CallsAt(rows: seq<Row>, k: nat) {
    k < |rows| && Reaches(rows, rows[k].seen, rows[k].failure)
  }

  /** Exactly the rows that reached the threshold have their suspension owed, done or failed, each one
      of the three. */
  ghost predicate Settled(st: State) {
    (forall k: nat :: CallsAt(st.rows, k) <==> k in st.owed + st.done + st.failed) &&
    st.owed !! st.done !! st.failed
  }

  /** The suspended tenants are those of the suspensions done. */
  ghost predicate Attributed(st: State) {
    forall t :: t in st.suspended <==> exists k :: DoneFor(st, k, t)
  }

  predicate DoneFor(st: State, k: nat, tenant: string) {
    k < |st.rows| && k in st.done && st.rows[k].failure.tenant == tenant
  }

  /** One row to an invoice, open transactions included. */
  ghost predicate OncePerInvoice(st: State) {
    (forall i, j :: 0 <= i < j < |st.rows| ==> st.rows[i].failure.invoice != st.rows[j].failure.invoice) &&
    (forall t, i :: t in st.open && !st.open[t].Ignored? && 0 <= i < |st.rows| ==>
      st.open[t].failure.invoice != st.rows[i].failure.invoice) &&
    forall t, u :: t in st.open && u in st.open && t != u && !st.open[t].Ignored? && !st.open[u].Ignored? ==>
      st.open[t].failure.invoice != st.open[u].failure.invoice
  }

  ghost predicate Inv(st: State) {
    Past(st) && Settled(st) && Attributed(st) && OncePerInvoice(st)
  }

  lemma StepKeepsPast(st: State, a: Action)
    requires Past(st) && Enabled(st, a)
    ensures Past(Apply(st, a))
  {
    hide Reaches, Held, Seen;
  }

  lemma ReachesBefore(rows: seq<Row>, row: Row, seen: nat, f: Failure)
    requires seen <= |rows|
    ensures Reaches(rows + [row], seen, f) <==> Reaches(rows, seen, f)
  {
    hide Due;
    assert (rows + [row])[..seen] == rows[..seen];
  }

  lemma CallsSnoc(rows: seq<Row>, row: Row, k: nat)
    requires row.seen <= |rows| && forall i :: 0 <= i < |rows| ==> rows[i].seen <= i
    ensures CallsAt(rows + [row], k) <==> CallsAt(rows, k) || (k == |rows| && Reaches(rows, row.seen, row.failure))
  {
    hide Reaches;
    if k < |rows| {
      ReachesBefore(rows, row, rows[k].seen, rows[k].failure);
    } else {
      ReachesBefore(rows, row, row.seen, row.failure);
    }
  }

  lemma RecordedSettled(st: State, f: Failure, seen: nat)
    requires Past(st) && Settled(st) && seen <= |st.rows|
    ensures Settled(Recorded(st, f, seen))
  {
    hide Reaches, CallsAt;
    InsideRows(st.rows);
    forall k: nat ensures CallsAt(st.rows + [Row(f, seen)], k) <==>
      CallsAt(st.rows, k) || (k == |st.rows| && Reaches(st.rows, seen, f))
    {
      CallsSnoc(st.rows, Row(f, seen), k);
    }
    assert |st.rows| !in st.owed + st.done + st.failed;
  }

  lemma StepKeepsSettled(st: State, a: Action)
    requires Past(st) && Settled(st) && Enabled(st, a)
    ensures Settled(Apply(st, a))
  {
    hide Reaches, Held, Seen, Recorded, CallsAt;
    if a.Commit? && st.open[a.tx].Counted? {
      RecordedSettled(st.(open := st.open - {a.tx}), st.open[a.tx].failure, st.open[a.tx].seen);
    }
  }

  lemma InsideRows(rows: seq<Row>)
    ensures forall k: nat :: CallsAt(rows, k) ==> k < |rows|
  {
  }

  lemma StepKeepsAttributed(st: State, a: Action)
    requires Settled(st) && Attributed(st) && Enabled(st, a)
    ensures Attributed(Apply(st, a))
  {
    hide Reaches, Held, Seen, CallsAt;
    InsideRows(st.rows);
    var after := Apply(st, a);
    forall t ensures t in after.suspended <==> exists k :: DoneFor(after, k, t) {
      forall k: nat
        ensures DoneFor(after, k, t) <==> DoneFor(st, k, t) || (a == Suspend(k) && st.rows[k].failure.tenant == t)
      {
        if k in st.done { assert CallsAt(st.rows, k); }
      }
      if a.Suspend? && st.rows[a.k].failure.tenant == t { assert DoneFor(after, a.k, t); }
    }
  }

  lemma StepKeepsOnce(st: State, a: Action)
    requires OncePerInvoice(st) && Enabled(st, a)
    ensures OncePerInvoice(Apply(st, a))
  {
    hide Reaches;
  }

  lemma {:induction false} RunKeepsInv(st: State, run: seq<Action>)
    requires Inv(st) && IsRun(st, run)
    ensures Inv(Final(st, run))
    decreases |run|
  {
    hide Past, Settled, Attributed, OncePerInvoice, Enabled, Apply;
    if run != [] {
      StepKeepsPast(st, run[0]);
      StepKeepsSettled(st, run[0]);
      StepKeepsAttributed(st, run[0]);
      StepKeepsOnce(st, run[0]);
      RunKeepsInv(Apply(st, run[0]), run[1..]);
    }
  }

  lemma StartInv()
    ensures Inv(START)
  {
  }

  // ---- Who is suspended -------------------------------------------------------------------------

  /** In every run, however deliveries overlap, a tenant is suspended exactly when one of its failures
      counted to the threshold and its suspension is neither outstanding nor failed. */
  lemma SuspendedIff(run: seq<Action>, tenant: string)
    requires IsRun(START, run)
    ensures var st := Final(START, run);
      tenant in st.suspended <==> exists k :: CallsFor(st.rows, k, tenant) && k !in st.owed && k !in st.failed
  {
    hide IsRun, Final, Past, OncePerInvoice, Reaches, CallsAt;
    StartInv();
    RunKeepsInv(START, run);
    var st := Final(START, run);
    InsideRows(st.rows);
    if tenant in st.suspended {
      var k: nat :| DoneFor(st, k, tenant);
      assert CallsFor(st.rows, k, tenant) && k !in st.owed && k !in st.failed;
    }
    if k: nat :| CallsFor(st.rows, k, tenant) && k !in st.owed && k !in st.failed {
      assert DoneFor(st, k, tenant);
    }
  }

  predicate CallsFor(rows: seq<Row>, k: nat, tenant: string) {
    CallsAt(rows, k) && rows[k].failure.tenant == tenant
  }

  /** A failure of the tenant, not before the cutoff. */
  predicate Recent(f: Failure, tenant: string, cutoff: int) {
    f.tenant == tenant && f.at >= cutoff
  }

  ghost predicate RecentPair(records: seq<Failure>, tenant: string, cutoff: int) {
    exists i, j :: RecentAt(records, tenant, cutoff, i, j)
  }

  ghost predicate RecentAt(records: seq<Failure>, tenant: string, cutoff: int, i: nat, j: nat) {
    i < j < |records| && Recent(records[i], tenant, cutoff) && Recent(records[j], tenant, cutoff)
  }

  lemma CountRecent(records: seq<Failure>, f: Failure, tenant: string, cutoff: int)
    ensures CountSince(TimesOf(records + [f], tenant), cutoff) ==
      CountSince(TimesOf(records, tenant), cutoff) + if Recent(f, tenant, cutoff) then 1 else 0
  {
    TimesSnoc(records, f, tenant);
    var times := TimesOf(records, tenant);
    assert (times + [f.at])[..|times|] == times;
  }

  lemma {:induction false} OneRecent(records: seq<Failure>, tenant: string, cutoff: int)
    ensures CountSince(TimesOf(records, tenant), cutoff) >= 1 <==>
      exists i :: 0 <= i < |records| && Recent(records[i], tenant, cutoff)
  {
    hide CountSince, TimesOf, Recent;
    if records == [] {
      NothingCounted(tenant, cutoff);
    } else {
      var n := |records| - 1;
      OneRecent(records[..n], tenant, cutoff);
      assert records == records[..n] + [records[n]];
      CountRecent(records[..n], records[n], tenant, cutoff);
      assert forall i :: 0 <= i < n ==> records[..n][i] == records[i];
    }
  }

  lemma NothingCounted(tenant: string, cutoff: int)
    ensures CountSince(TimesOf([], tenant), cutoff) == 0
  {
  }

  lemma {:induction false} TwoRecent(records: seq<Failure>, tenant: string, cutoff: int)
    ensures CountSince(TimesOf(records, tenant), cutoff) >= 2 <==> RecentPair(records, tenant, cutoff)
  {
    hide CountSince, TimesOf, Recent;
    if records == [] {
      NothingCounted(tenant, cutoff);
    } else {
      var n := |records| - 1;
      var front := records[..n];
      TwoRecent(front, tenant, cutoff);
      OneRecent(front, tenant, cutoff);
      assert records == front + [records[n]];
      CountRecent(front, records[n], tenant, cutoff);
      PairSnoc(front, records[n], tenant, cutoff);
    }
  }

  lemma PairSnoc(records: seq<Failure>, f: Failure, tenant: string, cutoff: int)
    ensures RecentPair(records + [f], tenant, cutoff) <==>
      || RecentPair(records, tenant, cutoff)
      || (Recent(f, tenant, cutoff) && exists i :: 0 <= i < |records| && Recent(records[i], tenant, cutoff))
  {
    hide Recent;
    var more, n := records + [f], |records|;
    assert more[n] == f && forall i :: 0 <= i < n ==> more[i] == records[i];
    if i: nat, j: nat :| RecentAt(more, tenant, cutoff, i, j) {
      assert j < n ==> RecentAt(records, tenant, cutoff, i, j);
    }
    if i: nat, j: nat :| RecentAt(records, tenant, cutoff, i, j) {
      assert RecentAt(more, tenant, cutoff, i, j);
    }
    if i: nat :| i < n && Recent(records[i], tenant, cutoff) && Recent(f, tenant, cutoff) {
      assert RecentAt(more, tenant, cutoff, i, n);
    }
  }

  /** A failure reaches the threshold exactly when two others of its tenant, not before its cutoff, are
      among the rows it counted. */
  lemma ReachesIff(rows: seq<Row>, k: nat)
    requires k < |rows| && rows[k].seen <= |rows|
    ensures var f := rows[k].failure;
      CallsAt(rows, k) <==> RecentPair(Records(rows[..rows[k].seen]), f.tenant, f.at - WINDOW)
  {
    hide CountSince, TimesOf;
    var f := rows[k].failure;
    CountRecent(Records(rows[..rows[k].seen]), f, f.tenant, f.at - WINDOW);
    TwoRecent(Records(rows[..rows[k].seen]), f.tenant, f.at - WINDOW);
  }

  /** Handled one at a time in the order of their commits, the failures would suspend the tenant exactly
      when one of them reaches the threshold with all rows before it counted. */
  lemma {:induction false} TripsIff(rows: seq<Row>, tenant: string)
    ensures Trips(TimesOf(Records(rows), tenant)) <==> exists k :: DueAt(rows, k, tenant)
  {
    hide Trips, TimesOf, CountSince;
    if rows == [] {
      NoTrips(tenant);
    } else {
      var n := |rows| - 1;
      var f := rows[n].failure;
      TripsIff(rows[..n], tenant);
      assert Records(rows) == Records(rows[..n]) + [f];
      TimesSnoc(Records(rows[..n]), f, tenant);
      TripsSnoc(TimesOf(Records(rows[..n]), tenant), f.at);
      forall k: nat
        ensures DueAt(rows, k, tenant) <==> DueAt(rows[..n], k, tenant) || (k == n && DueAt(rows, n, tenant))
      {
        DueBefore(rows, k, tenant);
      }
      assert Trips(TimesOf(Records(rows), tenant)) <==>
        Trips(TimesOf(Records(rows[..n]), tenant)) || DueAt(rows, n, tenant);
      if k: nat :| DueAt(rows[..n], k, tenant) {
        assert DueAt(rows, k, tenant);
      }
    }
  }

  lemma NoTrips(tenant: string)
    ensures !Trips(TimesOf(Records([]), tenant))
  {
  }

  predicate DueAt(rows: seq<Row>, k: nat, tenant: string) {
    k < |rows| && rows[k].failure.tenant == tenant && Due(Records(rows[..k]), rows[k].failure)
  }

  lemma DueBefore(rows: seq<Row>, k: nat, tenant: string)
    requires rows != []
    ensures k < |rows| - 1 ==> (DueAt(rows[..|rows| - 1], k, tenant) <==> DueAt(rows, k, tenant))
  {
    hide Due;
    if k < |rows| - 1 {
      assert rows[..|rows| - 1][..k] == rows[..k];
    }
  }

  /** A failure that counted fewer rows reaches the threshold no sooner. */
  lemma CallsAreDue(rows: seq<Row>, k: nat, tenant: string)
    requires k < |rows| && rows[k].seen <= k && CallsFor(rows, k, tenant)
    ensures DueAt(rows, k, tenant)
  {
    hide CallsAt, Due;
    var f := rows[k].failure;
    ReachesIff(rows, k);
    var all := rows[k := Row(f, k)];
    assert all[..k] == rows[..k];
    ReachesIff(all, k);
    var i: nat, j: nat :| RecentAt(Records(rows[..rows[k].seen]), f.tenant, f.at - WINDOW, i, j);
    assert RecentAt(Records(rows[..k]), f.tenant, f.at - WINDOW, i, j);
    CallsIsDue(rows, k);
  }

  lemma CallsIsDue(rows: seq<Row>, k: nat)
    requires k < |rows|
    ensures CallsAt(rows[k := Row(rows[k].failure, k)], k) <==> Due(Records(rows[..k]), rows[k].failure)
  {
    hide Due;
    assert rows[k := Row(rows[k].failure, k)][..k] == rows[..k];
  }

  /** Overlap never suspends a tenant that would not be suspended one delivery at a time. */
  lemma OverlapOnlyMisses(run: seq<Action>, tenant: string)
    requires IsRun(START, run) && tenant in Final(START, run).suspended
    ensures Trips(TimesOf(Records(Final(START, run).rows), tenant))
  {
    hide IsRun, Final, Settled, Attributed, OncePerInvoice, CallsAt, Due, Trips, TimesOf;
    StartInv();
    RunKeepsInv(START, run);
    SuspendedIff(run, tenant);
    var rows := Final(START, run).rows;
    InsideRows(rows);
    var k: nat :| CallsFor(rows, k, tenant);
    CallsAreDue(rows, k, tenant);
    TripsIff(rows, tenant);
  }

  /** Every delivery counted all rows committed before its own. */
  predicate Serial(rows: seq<Row>) {
    forall k :: 0 <= k < |rows| ==> rows[k].seen == k
  }

  /** No suspension is outstanding, and none failed. */
  predicate Quiet(st: State) {
    st.owed == {} && st.failed == {}
  }

  /** Without overlap the tenant is suspended exactly when its failures trip. */
  lemma SerialSuspendsIff(run: seq<Action>, tenant: string)
    requires IsRun(START, run) && Quiet(Final(START, run)) && Serial(Final(START, run).rows)
    ensures var st := Final(START, run); tenant in st.suspended <==> Trips(TimesOf(Records(st.rows), tenant))
  {
    hide IsRun, Final, CallsAt, Due, Trips, TimesOf;
    SuspendedIff(run, tenant);
    var rows := Final(START, run).rows;
    TripsIff(rows, tenant);
    InsideRows(rows);
    forall k: nat ensures CallsFor(rows, k, tenant) <==> DueAt(rows, k, tenant) {
      if k < |rows| {
        CallsIsDue(rows, k);
        assert rows[k := Row(rows[k].failure, k)] == rows;
      }
    }
  }

  /** The tenant's three failures, within thirty days of one another. */
  ghost predicate CloseRows(rows: seq<Row>, tenant: string, i: nat, j: nat, k: nat) {
    i < j < k < |rows| &&
    (forall x :: 0 <= x < |rows| ==> (rows[x].failure.tenant == tenant <==> x == i || x == j || x == k)) &&
    Near(rows[i].failure.at, rows[j].failure.at) && Near(rows[i].failure.at, rows[k].failure.at) &&
    Near(rows[j].failure.at, rows[k].failure.at)
  }

  /** Three close failures suspend the tenant exactly when the last to commit counted after the other
      two had committed. */
  lemma CloseSuspendsIff(run: seq<Action>, tenant: string, i: nat, j: nat, k: nat)
    requires IsRun(START, run) && Quiet(Final(START, run))
    requires CloseRows(Final(START, run).rows, tenant, i, j, k)
    ensures var st := Final(START, run); tenant in st.suspended <==> j < st.rows[k].seen
  {
    hide IsRun, Final, Settled, Attributed, OncePerInvoice, CallsAt;
    StartInv();
    RunKeepsInv(START, run);
    SuspendedIff(run, tenant);
    var rows := Final(START, run).rows;
    InsideRows(rows);
    CloseReaches(rows, tenant, i, j, k);
    if x: nat :| CallsFor(rows, x, tenant) {
      CloseReachesOnly(rows, tenant, i, j, k, x);
    }
    if j < rows[k].seen {
      assert CallsFor(rows, k, tenant);
    }
  }

  lemma CloseReaches(rows: seq<Row>, tenant: string, i: nat, j: nat, k: nat)
    requires CloseRows(rows, tenant, i, j, k) && rows[k].seen <= k
    ensures CallsAt(rows, k) <==> j < rows[k].seen
  {
    hide CallsAt;
    ReachesIff(rows, k);
    var f := rows[k].failure;
    var counted := Records(rows[..rows[k].seen]);
    if j < rows[k].seen {
      assert RecentAt(counted, tenant, f.at - WINDOW, i, j);
    }
    if RecentPair(counted, tenant, f.at - WINDOW) {
      var x: nat, y: nat :| RecentAt(counted, tenant, f.at - WINDOW, x, y);
      assert counted[x] == rows[x].failure && counted[y] == rows[y].failure;
    }
  }

  lemma CloseReachesOnly(rows: seq<Row>, tenant: string, i: nat, j: nat, k: nat, x: nat)
    requires CloseRows(rows, tenant, i, j, k) && x < |rows| && rows[x].seen <= x && CallsFor(rows, x, tenant)
    ensures x == k
  {
    hide CallsAt;
    ReachesIff(rows, x);
    var f := rows[x].failure;
    var counted := Records(rows[..rows[x].seen]);
    var y: nat, z: nat :| RecentAt(counted, tenant, f.at - WINDOW, y, z);
    assert counted[y] == rows[y].failure && counted[z] == rows[z].failure;
  }

  // ---- A run that misses --------------------------------------------------------------------------

  /** The action leads from one state to the other. */
  ghost predicate Steps(st: State, a: Action, after: State) {
    Enabled(st, a) && Apply(st, a) == after
  }

  /** One more step at the front of a run. */
  lemma RunStep(st: State, a: Action, after: State, rest: seq<Action>)
    requires Steps(st, a, after) && IsRun(after, rest)
    ensures IsRun(st, [a] + rest) && Final(st, [a] + rest) == Final(after, rest)
  {
    hide Enabled, Apply;
    assert ([a] + rest)[1..] == rest;
  }

  const A: Failure := Failure("t", "a", 0)
  const B: Failure := Failure("t", "b", 0)
  const C: Failure := Failure("t", "c", 0)
  const ONE: seq<Row> := [Row(A, 0)]

  /** One failure is recorded; then two deliveries overlap, and each counts two. */
  const OVERLAP: seq<Action> :=
    [Insert(0, A), Count(0), Commit(0), Insert(1, B), Insert(2, C), Count(1), Count(2), Commit(1), Commit(2)]

  function Trying(open: map<nat, Tx>, rows: seq<Row>): State {
    State(open, rows, {}, {}, {}, {})
  }

  lemma NotDue(rows: seq<Row>, seen: nat, f: Failure)
    requires seen <= 1 && seen <= |rows|
    ensures !Reaches(rows, seen, f)
  {
    hide CountSince, TimesOf;
    CountRecent(Records(rows[..seen]), f, f.tenant, f.at - WINDOW);
    TwoRecent(Records(rows[..seen]), f.tenant, f.at - WINDOW);
  }

  lemma FirstSteps()
    ensures Steps(START, Insert(0, A), Trying(map[0 := Inserted(A)], []))
    ensures Steps(Trying(map[0 := Inserted(A)], []), Count(0), Trying(map[0 := Counted(A, 0)], []))
    ensures Steps(Trying(map[0 := Counted(A, 0)], []), Commit(0), Trying(map[], ONE))
  {
    hide Reaches;
    NotDue([], 0, A);
    assert map[0 := Inserted(A)][0 := Counted(A, 0)] == map[0 := Counted(A, 0)];
    assert map[0 := Counted(A, 0)] - {0} == map[];
  }

  lemma InsertSteps()
    ensures Steps(Trying(map[], ONE), Insert(1, B), Trying(map[1 := Inserted(B)], ONE))
    ensures Steps(Trying(map[1 := Inserted(B)], ONE), Insert(2, C),
      Trying(map[1 := Inserted(B), 2 := Inserted(C)], ONE))
  {
  }

  lemma CountSteps()
    ensures Steps(Trying(map[1 := Inserted(B), 2 := Inserted(C)], ONE), Count(1),
      Trying(map[1 := Counted(B, 1), 2 := Inserted(C)], ONE))
    ensures Steps(Trying(map[1 := Counted(B, 1), 2 := Inserted(C)], ONE), Count(2),
      Trying(map[1 := Counted(B, 1), 2 := Counted(C, 1)], ONE))
  {
    assert map[1 := Inserted(B), 2 := Inserted(C)][1 := Counted(B, 1)] == map[1 := Counted(B, 1), 2 := Inserted(C)];
    assert map[1 := Counted(B, 1), 2 := Inserted(C)][2 := Counted(C, 1)] == map[1 := Counted(B, 1), 2 := Counted(C, 1)];
  }

  lemma CommitSteps()
    ensures Steps(Trying(map[1 := Counted(B, 1), 2 := Counted(C, 1)], ONE), Commit(1),
      Trying(map[2 := Counted(C, 1)], [Row(A, 0), Row(B, 1)]))
    ensures Steps(Trying(map[2 := Counted(C, 1)], [Row(A, 0), Row(B, 1)]), Commit(2),
      Trying(map[], [Row(A, 0), Row(B, 1), Row(C, 1)]))
  {
    hide Reaches;
    NotDue(ONE, 1, B);
    NotDue([Row(A, 0), Row(B, 1)], 1, C);
    assert ONE + [Row(B, 1)] == [Row(A, 0), Row(B, 1)];
    assert [Row(A, 0), Row(B, 1)] + [Row(C, 1)] == [Row(A, 0), Row(B, 1), Row(C, 1)];
    assert map[1 := Counted(B, 1), 2 := Counted(C, 1)] - {1} == map[2 := Counted(C, 1)];
    assert map[2 := Counted(C, 1)] - {2} == map[];
  }

  lemma RunNothing(st: State)
    ensures IsRun(st, []) && Final(st, []) == st
  {
  }

  const END: State := Trying(map[], [Row(A, 0), Row(B, 1), Row(C, 1)])

  lemma CommitsRun()
    ensures var st := Trying(map[1 := Counted(B, 1), 2 := Counted(C, 1)], ONE);
      IsRun(st, OVERLAP[7..]) && Final(st, OVERLAP[7..]) == END
  {
    hide IsRun, Final, Steps;
    CommitSteps();
    RunNothing(END);
    var middle := Trying(map[2 := Counted(C, 1)], [Row(A, 0), Row(B, 1)]);
    RunStep(middle, Commit(2), END, []);
    RunStep(Trying(map[1 := Counted(B, 1), 2 := Counted(C, 1)], ONE), Commit(1), middle, [Commit(2)] + []);
    assert [Commit(1)] + ([Commit(2)] + []) == OVERLAP[7..];
  }

  lemma CountsRun()
    ensures var st := Trying(map[1 := Inserted(B), 2 := Inserted(C)], ONE);
      IsRun(st, OVERLAP[5..]) && Final(st, OVERLAP[5..]) == END
  {
    hide IsRun, Final, Steps;
    CommitsRun();
    CountSteps();
    var middle := Trying(map[1 := Counted(B, 1), 2 := Inserted(C)], ONE);
    RunStep(middle, Count(2), Trying(map[1 := Counted(B, 1), 2 := Counted(C, 1)], ONE), OVERLAP[7..]);
    RunStep(Trying(map[1 := Inserted(B), 2 := Inserted(C)], ONE), Count(1), middle, [Count(2)] + OVERLAP[7..]);
    assert [Count(1)] + ([Count(2)] + OVERLAP[7..]) == OVERLAP[5..];
  }

  lemma InsertsRun()
    ensures IsRun(Trying(map[], ONE), OVERLAP[3..]) && Final(Trying(map[], ONE), OVERLAP[3..]) == END
  {
    hide IsRun, Final, Steps;
    CountsRun();
    InsertSteps();
    var middle := Trying(map[1 := Inserted(B)], ONE);
    RunStep(middle, Insert(2, C), Trying(map[1 := Inserted(B), 2 := Inserted(C)], ONE), OVERLAP[5..]);
    RunStep(Trying(map[], ONE), Insert(1, B), middle, [Insert(2, C)] + OVERLAP[5..]);
    assert [Insert(1, B)] + ([Insert(2, C)] + OVERLAP[5..]) == OVERLAP[3..];
  }

  lemma OverlapRun()
    ensures IsRun(START, OVERLAP) && Final(START, OVERLAP) == END
  {
    hide IsRun, Final, Steps;
    InsertsRun();
    FirstSteps();
    var inserted, counted := Trying(map[0 := Inserted(A)], []), Trying(map[0 := Counted(A, 0)], []);
    RunStep(counted, Commit(0), Trying(map[], ONE), OVERLAP[3..]);
    RunStep(inserted, Count(0), counted, [Commit(0)] + OVERLAP[3..]);
    RunStep(START, Insert(0, A), inserted, [Count(0)] + ([Commit(0)] + OVERLAP[3..]));
    assert [Insert(0, A)] + ([Count(0)] + ([Commit(0)] + OVERLAP[3..])) == OVERLAP;
  }

  /** It fails when two overlap: three failures at one time leave the tenant alone, with no delivery
      open and no suspension outstanding or failed. */
  lemma OverlapMisses()
    ensures IsRun(START, OVERLAP)
    ensures var st := Final(START, OVERLAP);
      CloseRows(st.rows, "t", 0, 1, 2) && st.open == map[] && Quiet(st) && "t" !in st.suspended
  {
    hide IsRun, Final;
    OverlapRun();
  }
}
