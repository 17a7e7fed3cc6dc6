/** The storage counter beside its event log (internal/billing/billing.go). */
module StorageLedger {
  import opened Wrappers

  type Outcome<T> = Result<T, Error>

  datatype Error = InvalidInput | RolledBack

  /** A `billing_events` row of kind `storage_delta` or `storage_snapshot`. */
  datatype Kind = Delta | Snapshot

  datatype Entry = Entry(tenant: string, kind: Kind, amount: int)

  function Max(a: int, b: int): int {
    if a < b then b else a
  }

  // ---- Replaying the log ------------------------------------------------------------------

  function EntriesOf(log: seq<Entry>, tenant: string): seq<Entry> {
    if log == [] then []
    else
      var rest, last := EntriesOf(log[..|log| - 1], tenant), log[|log| - 1];
      if last.tenant == tenant then rest + [last] else rest
  }

  function Applied(used: int, e: Entry): int {
    match e.kind
    case Delta => Max(0, used + e.amount)
    case Snapshot => e.amount
  }

  function Replay(used: int, entries: seq<Entry>): int {
    if entries == [] then used else Applied(Replay(used, entries[..|entries| - 1]), entries[|entries| - 1])
  }

  lemma EntriesOfSnoc(log: seq<Entry>, e: Entry, tenant: string)
    ensures EntriesOf(log + [e], tenant) ==
      if e.tenant == tenant then EntriesOf(log, tenant) + [e] else EntriesOf(log, tenant)
  {
    assert (log + [e])[..|log|] == log;
  }

  lemma ReplaySnoc(used: int, entries: seq<Entry>, e: Entry)
    ensures Replay(used, entries + [e]) == Applied(Replay(used, entries), e)
  {
    assert (entries + [e])[..|entries|] == entries;
  }

  // ---- The service --------------------------------------------------------------------------

  class Ledger {
    var quotas: map<string, int>
    var log: seq<Entry>

    /** Each tenant's row exists exactly when it has entries, and is their replay. */
    ghost predicate Valid()
      reads this
    {
      forall tenant: string :: TenantValid(tenant)
    }

    ghost predicate TenantValid(tenant: string)
      reads this
    {
      (tenant in quotas <==> EntriesOf(log, tenant) != []) &&
      (tenant in quotas ==> quotas[tenant] == Replay(0, EntriesOf(log, tenant)) && quotas[tenant] >= 0)
    }

    constructor ()
      ensures Valid() && quotas == map[] && log == []
    {
      quotas, log := map[], [];
    }

    /** Appends the entry and stores its effect, keeping the counter the replay of the log. */
    method Post(e: Entry)
      requires Valid() && (e.kind.Snapshot? ==> e.amount >= 0)
      modifies this
      ensures Valid() && log == old(log) + [e]
      ensures quotas ==
        old(quotas)[e.tenant := Applied(if e.tenant in old(quotas) then old(quotas)[e.tenant] else 0, e)]
    {
      hide EntriesOf, Replay;
      var used := if e.tenant in quotas then quotas[e.tenant] else 0;
      assert used == Replay(0, EntriesOf(log, e.tenant)) by {
        assert TenantValid(e.tenant);
        ReplayNothing();
      }
      quotas := quotas[e.tenant := Applied(used, e)];
      log := log + [e];
      forall tenant: string ensures TenantValid(tenant) {
        assert old(TenantValid(tenant));
        EntriesOfSnoc(old(log), e, tenant);
        ReplaySnoc(0, EntriesOf(old(log), tenant), e);
      }
    }

    static lemma ReplayNothing()
      ensures Replay(0, []) == 0
    {
    }

    method UpdateStorageUsage(tenant: string, delta: int, commits: bool) returns (r: Outcome<()>)
      requires Valid()
      modifies this
      ensures Valid()
      ensures r.Ok? <==> tenant != "" && commits
      ensures r.Err? ==> quotas == old(quotas) && log == old(log)
      ensures r.Ok? ==> log == old(log) + [Entry(tenant, Delta, delta)]
      ensures r.Ok? ==>
        quotas == old(quotas)[tenant := Max(0, (if tenant in old(quotas) then old(quotas)[tenant] else 0) + delta)]
    {
      if tenant == "" {
        return Err(InvalidInput);
      }
      if !commits {
        return Err(RolledBack);
      }
      Post(Entry(tenant, Delta, delta));
      r := Ok(());
    }

    method SetStorageUsage(tenant: string, used: int, commits: bool) returns (r: Outcome<()>)
      requires Valid()
      modifies this
      ensures Valid()
      ensures r.Ok? <==> tenant != "" && used >= 0 && commits
      ensures r.Err? ==> quotas == old(quotas) && log == old(log)
      ensures r.Ok? ==> log == old(log) + [Entry(tenant, Snapshot, used)] && quotas == old(quotas)[tenant := used]
    {
      if tenant == "" || used < 0 {
        return Err(InvalidInput);
      }
      if !commits {
        return Err(RolledBack);
      }
      Post(Entry(tenant, Snapshot, used));
      r := Ok(());
    }
  }

  // ---- Closed form --------------------------------------------------------------------------

  /** Sum of the first `k` amounts. */
  function Sum(entries: seq<Entry>, k: nat): int
    requires k <= |entries|
  {
    if k == 0 then 0 else Sum(entries, k - 1) + entries[k - 1].amount
  }

  predicate AllDeltas(entries: seq<Entry>) {
    forall i :: 0 <= i < |entries| ==> entries[i].kind.Delta?
  }

  lemma {:induction false} SumPrefix(entries: seq<Entry>, n: nat, k: nat)
    requires k <= n <= |entries|
    ensures Sum(entries[..n], k) == Sum(entries, k)
  {
    if k > 0 {
      SumPrefix(entries, n, k - 1);
    }
  }

  /** `used` is the larger of the logged balance and the best of what each suffix alone adds. */
  ghost predicate IsClosedForm(used: int, b: int, deltas: seq<Entry>) {
    var n := |deltas|;
    used >= b + Sum(deltas, n) &&
    (forall k :: 0 <= k <= n ==> used >= Sum(deltas, n) - Sum(deltas, k)) &&
    (used == b + Sum(deltas, n) || exists k :: 0 <= k <= n && used == Sum(deltas, n) - Sum(deltas, k))
  }

  /** From a balance `b`, the replay of deltas is max(b + S_n, max over k of S_n - S_k). */
  lemma {:induction false} ClosedForm(b: int, deltas: seq<Entry>)
    requires b >= 0 && AllDeltas(deltas)
    ensures IsClosedForm(Replay(b, deltas), b, deltas)
  {
    if deltas != [] {
      var n := |deltas| - 1;
      ClosedForm(b, deltas[..n]);
      var was, d := Replay(b, deltas[..n]), deltas[n].amount;
      forall k | 0 <= k <= n ensures Sum(deltas[..n], k) == Sum(deltas, k) {
        SumPrefix(deltas, n, k);
      }
      assert Sum(deltas, n + 1) == Sum(deltas, n) + d;
      if was + d <= 0 {
        assert Replay(b, deltas) == Sum(deltas, n + 1) - Sum(deltas, n + 1);
      } else if was != b + Sum(deltas, n) {
        var k :| 0 <= k <= n && was == Sum(deltas[..n], n) - Sum(deltas[..n], k);
        assert Replay(b, deltas) == Sum(deltas, n + 1) - Sum(deltas, k);
      }
    }
  }

  /** The logged balance is never negative on the way. */
  ghost predicate NeverNegative(b: int, deltas: seq<Entry>) {
    forall k :: 0 <= k <= |deltas| ==> b + Sum(deltas, k) >= 0
  }

  /** The stored counter never falls below the logged sum, and equals it exactly when no prefix
      goes negative. */
  lemma NeverBelowLog(b: int, deltas: seq<Entry>)
    requires b >= 0 && AllDeltas(deltas)
    ensures Replay(b, deltas) >= b + Sum(deltas, |deltas|)
    ensures Replay(b, deltas) == b + Sum(deltas, |deltas|) <==> NeverNegative(b, deltas)
  {
    hide Replay, Sum;
    ClosedForm(b, deltas);
    var n, used := |deltas|, Replay(b, deltas);
    if used == b + Sum(deltas, n) {
      forall k | 0 <= k <= n ensures b + Sum(deltas, k) >= 0 {
        assert used >= Sum(deltas, n) - Sum(deltas, k);
      }
    } else {
      var k :| 0 <= k <= n && used == Sum(deltas, n) - Sum(deltas, k);
      assert b + Sum(deltas, k) < 0;
    }
  }

  lemma {:induction false} ReplayConcat(used: int, xs: seq<Entry>, ys: seq<Entry>)
    ensures Replay(used, xs + ys) == Replay(Replay(used, xs), ys)
  {
    if ys == [] {
      assert xs + ys == xs;
    } else {
      assert (xs + ys)[..|xs + ys| - 1] == xs + ys[..|ys| - 1];
      ReplayConcat(used, xs, ys[..|ys| - 1]);
    }
  }

  /** A snapshot forgets everything before it: after it the counter is the closed form from the
      snapshot's value. */
  lemma SinceSnapshot(before: seq<Entry>, snapshot: Entry, deltas: seq<Entry>)
    requires snapshot.kind.Snapshot? && snapshot.amount >= 0 && AllDeltas(deltas)
    ensures IsClosedForm(Replay(0, before + [snapshot] + deltas), snapshot.amount, deltas)
  {
    hide Replay, Sum;
    ReplayConcat(0, before + [snapshot], deltas);
    ReplaySnoc(0, before, snapshot);
    ClosedForm(snapshot.amount, deltas);
  }
}

/** The two transactions of the ledger, interleaved step by step.

    Each upserts its tenant's quota row, which locks the row until the end, and appends its log row.
    A log row carries no sequence number, only the time its transaction started.
  */
module StorageLedgerProtocol {
  import opened Wrappers
  import opened StorageLedger

  /** A log row with its `created_at`. */
  datatype Stamped = Stamped(entry: Entry, startedAt: int)

  datatype Tx = Begun(row: Stamped) | Updated(row: Stamped, used: int)

  datatype State = State(now: int, quotas: map<string, int>, txs: map<nat, Tx>, log: seq<Stamped>)

  datatype Action =
    Elapse(ticks: nat) | Begin(tx: nat, entry: Entry) | Update(tx: nat) | Commit(tx: nat) | Abort(tx: nat)

  const EMPTY: State := State(0, map[], map[], [])

  function UsedBy(quotas: map<string, int>, tenant: string): int {
    if tenant in quotas then quotas[tenant] else 0
  }

  predicate RowFree(st: State, tenant: string) {
    forall t :: t in st.txs && st.txs[t].Updated? ==> st.txs[t].row.entry.tenant != tenant
  }

  predicate Enabled(st: State, a: Action) {
    match a
    case Elapse(_) => true
    case Begin(tx, entry) => tx !in st.txs && entry.tenant != "" && (entry.kind.Snapshot? ==> entry.amount >= 0)
    case Update(tx) => tx in st.txs && st.txs[tx].Begun? && RowFree(st, st.txs[tx].row.entry.tenant)
    case Commit(tx) => tx in st.txs && st.txs[tx].Updated?
    case Abort(tx) => tx in st.txs
  }

  function Apply(st: State, a: Action): State
    requires Enabled(st, a)
  {
    match a
    case Elapse(ticks) => st.(now := st.now + ticks)
    case Begin(tx, entry) => st.(txs := st.txs[tx := Begun(Stamped(entry, st.now))])
    case Update(tx) =>
      var row := st.txs[tx].row;
      st.(txs := st.txs[tx := Updated(row, Applied(UsedBy(st.quotas, row.entry.tenant), row.entry))])
    case Commit(tx) =>
      var Updated(row, used) := st.txs[tx];
      st.(quotas := st.quotas[row.entry.tenant := used], log := st.log + [row], txs := st.txs - {tx})
    case Abort(tx) => st.(txs := st.txs - {tx})
  }

  function EntriesIn(log: seq<Stamped>, tenant: string): seq<Entry> {
    if log == [] then []
    else
      var rest, last := EntriesIn(log[..|log| - 1], tenant), log[|log| - 1];
      if last.entry.tenant == tenant then rest + [last.entry] else rest
  }

  lemma EntriesInSnoc(log: seq<Stamped>, row: Stamped, tenant: string)
    ensures EntriesIn(log + [row], tenant) ==
      if row.entry.tenant == tenant then EntriesIn(log, tenant) + [row.entry] else EntriesIn(log, tenant)
  {
    assert (log + [row])[..|log|] == log;
  }

  // ---- Invariant ----------------------------------------------------------------------------

  /** A pending update was computed from the row as it still is. */
  ghost predicate Current(st: State) {
    forall t :: t in st.txs && st.txs[t].Updated? ==>
      var row := st.txs[t].row; st.txs[t].used == Applied(UsedBy(st.quotas, row.entry.tenant), row.entry)
  }

  ghost predicate Exclusive(st: State) {
    forall t, u | t in st.txs && u in st.txs && st.txs[t].Updated? && st.txs[u].Updated? ::
      st.txs[t].row.entry.tenant == st.txs[u].row.entry.tenant ==> t == u
  }

  /** The committed counter is the replay of the log in commit order. */
  ghost predicate Replays(st: State) {
    forall tenant: string :: ReplaysFor(st, tenant)
  }

  ghost predicate ReplaysFor(st: State, tenant: string) {
    UsedBy(st.quotas, tenant) == Replay(0, EntriesIn(st.log, tenant))
  }

  ghost predicate Inv(st: State) {
    Current(st) && Exclusive(st) && Replays(st)
  }

  lemma StepKeepsLocks(st: State, a: Action)
    requires Current(st) && Exclusive(st) && Enabled(st, a)
    ensures Current(Apply(st, a)) && Exclusive(Apply(st, a))
  {
    hide Applied;
  }

  lemma StepKeepsReplays(st: State, a: Action)
    requires Inv(st) && Enabled(st, a)
    ensures Replays(Apply(st, a))
  {
    hide EntriesIn, Replay, Applied;
    var t := Apply(st, a);
    forall tenant: string ensures ReplaysFor(t, tenant) {
      assert ReplaysFor(st, tenant);
      if a.Commit? {
        var row := st.txs[a.tx].row;
        EntriesInSnoc(st.log, row, tenant);
        ReplaySnoc(0, EntriesIn(st.log, tenant), row.entry);
      }
    }
  }

  lemma StepKeepsInv(st: State, a: Action)
    requires Inv(st) && Enabled(st, a)
    ensures Inv(Apply(st, a))
  {
    hide Current, Exclusive, Replays, Apply, Enabled;
    StepKeepsLocks(st, a);
    StepKeepsReplays(st, a);
  }

  predicate IsRun(st: State, acts: seq<Action>)
    decreases |acts|
  {
    acts == [] || (Enabled(st, acts[0]) && IsRun(Apply(st, acts[0]), acts[1..]))
  }

  function Final(st: State, acts: seq<Action>): State
    requires IsRun(st, acts)
    decreases |acts|
  {
    if acts == [] then st else Final(Apply(st, acts[0]), acts[1..])
  }

  lemma {:induction false} RunKeepsInv(st: State, acts: seq<Action>)
    requires Inv(st) && IsRun(st, acts)
    ensures Inv(Final(st, acts))
    decreases |acts|
  {
    hide Inv, Enabled, Apply;
    if acts != [] {
      StepKeepsInv(st, acts[0]);
      RunKeepsInv(Apply(st, acts[0]), acts[1..]);
    }
  }

  lemma EmptyInv()
    ensures Inv(EMPTY)
  {
  }

  /** After every interleaving of updates and snapshots, aborts included, each tenant's counter is the
      replay of its log rows in the order their transactions committed. */
  lemma EveryRunReplays(acts: seq<Action>, tenant: string)
    requires IsRun(EMPTY, acts)
    ensures var st := Final(EMPTY, acts); UsedBy(st.quotas, tenant) == Replay(0, EntriesIn(st.log, tenant))
  {
    hide IsRun, Final, Current, Exclusive, EntriesIn, Replay;
    EmptyInv();
    RunKeepsInv(EMPTY, acts);
    assert ReplaysFor(Final(EMPTY, acts), tenant);
  }

  // ---- The order of the stamps --------------------------------------------------------------

  predicate ByStart(rows: seq<Stamped>) {
    forall i, j :: 0 <= i < j < |rows| ==> rows[i].startedAt < rows[j].startedAt
  }

  /** Read back in the order of their stamps, log rows that committed in the order they started come
      in commit order. */
  lemma {:induction false} StartOrderIsCommitOrder(log: seq<Stamped>, listed: seq<Stamped>)
    requires ByStart(log) && ByStart(listed) && multiset(log) == multiset(listed)
    ensures listed == log
  {
    SameSize(log, listed);
    if log != [] {
      LeastFirst(log, listed);
      RestAlike(log, listed);
      StartOrderIsCommitOrder(log[1..], listed[1..]);
      assert log == [log[0]] + log[1..] && listed == [listed[0]] + listed[1..];
    }
  }

  lemma SameSize(a: seq<Stamped>, b: seq<Stamped>)
    requires multiset(a) == multiset(b)
    ensures |a| == |b|
  {
    assert |a| == |multiset(a)| == |b|;
  }

  lemma RestAlike(a: seq<Stamped>, b: seq<Stamped>)
    requires a != [] && b != [] && a[0] == b[0] && multiset(a) == multiset(b)
    ensures multiset(a[1..]) == multiset(b[1..])
  {
    assert a == [a[0]] + a[1..] && b == [b[0]] + b[1..];
    assert multiset(a[1..]) == multiset(a) - multiset([a[0]]);
    assert multiset(b[1..]) == multiset(b) - multiset([b[0]]);
  }

  lemma LeastFirst(a: seq<Stamped>, b: seq<Stamped>)
    requires a != [] && b != [] && ByStart(a) && ByStart(b) && multiset(a) == multiset(b)
    ensures a[0] == b[0]
  {
    assert a[0] in multiset(b) && b[0] in multiset(a);
    var i :| 0 <= i < |b| && b[i] == a[0];
    var j :| 0 <= j < |a| && a[j] == b[0];
  }

  /** A snapshot that starts first and commits last. */
  const LATE_SNAPSHOT: seq<Action> := [
    Begin(1, Entry("t", Snapshot, 10)), Elapse(1), Begin(2, Entry("t", Delta, 5)),
    Update(2), Commit(2), Update(1), Commit(1)]

  /** It leaves its own value; by start time the log would replay to five more. */
  lemma StartOrderDiffers()
    ensures IsRun(EMPTY, LATE_SNAPSHOT)
    ensures var st := Final(EMPTY, LATE_SNAPSHOT);
      && UsedBy(st.quotas, "t") == 10 && |st.log| == 2 && st.log[1].startedAt < st.log[0].startedAt
      && Replay(0, [st.log[1].entry, st.log[0].entry]) == 15
  {
    var snapshot, delta := Entry("t", Snapshot, 10), Entry("t", Delta, 5);
    var a := State(0, map[], map[1 := Begun(Stamped(snapshot, 0))], []);
    var b := a.(now := 1);
    var c := b.(txs := map[1 := Begun(Stamped(snapshot, 0)), 2 := Begun(Stamped(delta, 1))]);
    var d := c.(txs := map[1 := Begun(Stamped(snapshot, 0)), 2 := Updated(Stamped(delta, 1), 5)]);
    var e := State(1, map["t" := 5], map[1 := Begun(Stamped(snapshot, 0))], [Stamped(delta, 1)]);
    var f := e.(txs := map[1 := Updated(Stamped(snapshot, 0), 10)]);
    var g := State(1, map["t" := 10], map[], [Stamped(delta, 1), Stamped(snapshot, 0)]);
    hide IsRun, Final, RowFree, Applied, UsedBy;
    LateSteps(c, d, e, f, g);
    RunNothing(g);
    StepRuns(f, Commit(1), g, []);
    StepRuns(e, Update(1), f, [Commit(1)]);
    StepRuns(d, Commit(2), e, [Update(1), Commit(1)]);
    StepRuns(c, Update(2), d, [Commit(2), Update(1), Commit(1)]);
    StepRuns(b, Begin(2, delta), c, [Update(2), Commit(2), Update(1), Commit(1)]);
    StepRuns(a, Elapse(1), b, [Begin(2, delta), Update(2), Commit(2), Update(1), Commit(1)]);
    StepRuns(EMPTY, Begin(1, snapshot), a, [Elapse(1), Begin(2, delta), Update(2), Commit(2), Update(1), Commit(1)]);
    SnapshotThenDelta();
  }

  lemma SnapshotThenDelta()
    ensures Replay(0, [Entry("t", Snapshot, 10), Entry("t", Delta, 5)]) == 15
  {
    var snapshot, delta := Entry("t", Snapshot, 10), Entry("t", Delta, 5);
    assert [snapshot, delta][..1] == [snapshot] && [snapshot][..0] == [];
    assert Replay(0, [snapshot]) == 10;
  }

  lemma LateSteps(c: State, d: State, e: State, f: State, g: State)
    requires var snapshot, delta := Stamped(Entry("t", Snapshot, 10), 0), Stamped(Entry("t", Delta, 5), 1);
      && c == State(1, map[], map[1 := Begun(snapshot), 2 := Begun(delta)], [])
      && d == State(1, map[], map[1 := Begun(snapshot), 2 := Updated(delta, 5)], [])
      && e == State(1, map["t" := 5], map[1 := Begun(snapshot)], [delta])
      && f == State(1, map["t" := 5], map[1 := Updated(snapshot, 10)], [delta])
      && g == State(1, map["t" := 10], map[], [delta, snapshot])
    ensures Enabled(c, Update(2)) && Apply(c, Update(2)) == d
    ensures Enabled(d, Commit(2)) && Apply(d, Commit(2)) == e
    ensures Enabled(e, Update(1)) && Apply(e, Update(1)) == f
    ensures Enabled(f, Commit(1)) && Apply(f, Commit(1)) == g
    ensures UsedBy(g.quotas, "t") == 10
  {
  }

  lemma RunNothing(st: State)
    ensures IsRun(st, []) && Final(st, []) == st
  {
  }

  lemma StepRuns(st: State, a: Action, t: State, rest: seq<Action>)
    requires Enabled(st, a) && Apply(st, a) == t && IsRun(t, rest)
    ensures IsRun(st, [a] + rest) && Final(st, [a] + rest) == Final(t, rest)
  {
    hide Enabled, Apply;
    assert ([a] + rest)[1..] == rest;
  }
}
