/** Concurrent `Log` calls of internal/audit/audit.go as interleaved transaction steps.

    A transaction waits for the advisory lock of its tenant, reads the tail by `seq`, inserts a
    row under the next sequence number and commits, or is rolled back from any point.  Rows
    become visible at commit (READ COMMITTED); the sequence never gives a number back; the lock
    key is a hash of the tenant, so unrelated tenants may share one.
  */
module AuditProtocol {
  import opened CanonicalJson
  import opened Audit

  type TxId = nat

  datatype Environment = Environment(
    lib: Primitives, lockKey: string -> int, normalizeIP: string -> string)

  datatype Phase = Waiting | Locked | HasTail(prev: string) | Inserted(at: nat, row: Row)

  datatype Tx = Tx(entry: Entry, phase: Phase)

  /** Committed rows by `seq`, the sequence, the advisory locks held, the open transactions. */
  datatype State = State(table: map<nat, Row>, nextSeq: nat, locks: map<int, TxId>, txs: map<TxId, Tx>)

  datatype Action =
    | Begin(id: TxId, e: Entry)
    | TakeLock(id: TxId)
    | ReadTail(id: TxId)
    | InsertRow(id: TxId)
    | Commit(id: TxId)
    | Rollback(id: TxId)

  const EMPTY: State := State(map[], 0, map[], map[])

  // ---- What a tenant's queries see ------------------------------------------------------

  /** `WHERE tenant_id = t ORDER BY seq ASC`, over the sequence numbers below `n`. */
  ghost function RowsBelow(table: map<nat, Row>, t: string, n: nat): seq<Row> {
    if n == 0 then []
    else if n - 1 in table && table[n - 1].entry.tenant == t then RowsBelow(table, t, n - 1) + [table[n - 1]]
    else RowsBelow(table, t, n - 1)
  }

  /** `WHERE tenant_id = t ORDER BY seq DESC LIMIT 1`, or the empty string on no row. */
  function TailBelow(table: map<nat, Row>, t: string, n: nat): string {
    if n == 0 then ""
    else if n - 1 in table && table[n - 1].entry.tenant == t then table[n - 1].entryHash
    else TailBelow(table, t, n - 1)
  }

  ghost function Rows(st: State, t: string): seq<Row> {
    RowsBelow(st.table, t, st.nextSeq)
  }

  lemma {:induction false} TailIsLastRow(table: map<nat, Row>, t: string, n: nat)
    ensures TailBelow(table, t, n) == PrevOf(RowsBelow(table, t, n), |RowsBelow(table, t, n)|)
  {
    if n > 0 { TailIsLastRow(table, t, n - 1); }
  }

  /** A row numbered above a tenant's rows comes last among them and is invisible to others. */
  lemma {:induction false} RowsAfterInsert(table: map<nat, Row>, t: string, at: nat, row: Row, n: nat)
    requires at !in table
    requires row.entry.tenant == t ==>
      forall k :: k in table && table[k].entry.tenant == t ==> k < at
    ensures RowsBelow(table[at := row], t, n) ==
      if at < n && row.entry.tenant == t then RowsBelow(table, t, n) + [row] else RowsBelow(table, t, n)
  {
    if n > 0 { RowsAfterInsert(table, t, at, row, n - 1); }
  }

  // ---- The steps ------------------------------------------------------------------------

  /** What `Log` demands of an entry. */
  predicate Acceptable(e: Entry) {
    e.tenant != "" && e.action != "" && e.actorType != ""
  }

  /** Only the address may differ from what the caller gave, and an absent one stays absent. */
  function Normalized(env: Environment, e: Entry): (r: Entry)
    ensures r.(ip := e.ip) == e && r.ip == (if e.ip == "" then "" else env.normalizeIP(e.ip))
  {
    if e.ip == "" then e else e.(ip := env.normalizeIP(e.ip))
  }

  predicate Enabled(env: Environment, st: State, a: Action) {
    match a
    case Begin(id, e) => id !in st.txs && Acceptable(e)
    case TakeLock(id) => id in st.txs && st.txs[id].phase.Waiting? && env.lockKey(st.txs[id].entry.tenant) !in st.locks
    case ReadTail(id) => id in st.txs && st.txs[id].phase.Locked?
    case InsertRow(id) => id in st.txs && st.txs[id].phase.HasTail?
    case Commit(id) => id in st.txs && st.txs[id].phase.Inserted?
    case Rollback(id) => id in st.txs
  }

  /** The transaction ends and its locks go with it. */
  function Release(st: State, id: TxId): State {
    st.(locks := map k | k in st.locks && st.locks[k] != id :: st.locks[k], txs := st.txs - {id})
  }

  ghost function Advance(st: State, id: TxId, phase: Phase): State
    requires id in st.txs
  {
    st.(txs := st.txs[id := st.txs[id].(phase := phase)])
  }

  ghost function Apply(env: Environment, st: State, a: Action): State
    requires Enabled(env, st, a)
  {
    match a
    case Begin(id, e) => st.(txs := st.txs[id := Tx(Normalized(env, e), Waiting)])
    case TakeLock(id) =>
      Advance(st.(locks := st.locks[env.lockKey(st.txs[id].entry.tenant) := id]), id, Locked)
    case ReadTail(id) =>
      Advance(st, id, HasTail(TailBelow(st.table, st.txs[id].entry.tenant, st.nextSeq)))
    case InsertRow(id) =>
      var Tx(e, HasTail(prev)) := st.txs[id];
      Advance(st.(nextSeq := st.nextSeq + 1), id, Inserted(st.nextSeq, Row(e, prev, EntryHash(env.lib, prev, e))))
    case Commit(id) =>
      var Inserted(at, row) := st.txs[id].phase;
      Release(st.(table := st.table[at := row]), id)
    case Rollback(id) => Release(st, id)
  }

  // ---- The invariant --------------------------------------------------------------------

  ghost predicate HoldsLock(env: Environment, st: State, id: TxId)
    requires id in st.txs
  {
    var key := env.lockKey(st.txs[id].entry.tenant);
    key in st.locks && st.locks[key] == id
  }

  /** What a transaction past its lock knows stays true until it ends. */
  ghost predicate Current(env: Environment, st: State, id: TxId)
    requires id in st.txs
  {
    var e := st.txs[id].entry;
    match st.txs[id].phase
    case Waiting => true
    case Locked => HoldsLock(env, st, id)
    case HasTail(prev) => HoldsLock(env, st, id) && prev == TailBelow(st.table, e.tenant, st.nextSeq)
    case Inserted(at, row) =>
      HoldsLock(env, st, id) && at < st.nextSeq && at !in st.table &&
      row == Row(e, TailBelow(st.table, e.tenant, st.nextSeq), EntryHash(env.lib, row.prevHash, e)) &&
      forall k :: k in st.table && st.table[k].entry.tenant == e.tenant ==> k < at
  }

  ghost predicate Numbered(st: State) {
    (forall k :: k in st.table ==> k < st.nextSeq) &&
    forall i, j :: i in st.txs && j in st.txs && i != j && st.txs[i].phase.Inserted? && st.txs[j].phase.Inserted?
      ==> st.txs[i].phase.at != st.txs[j].phase.at
  }

  ghost predicate Chained(env: Environment, st: State) {
    forall t :: IsChain(env.lib, Rows(st, t))
  }

  ghost predicate Inv(env: Environment, st: State) {
    Numbered(st) && (forall id :: id in st.txs ==> Current(env, st, id)) && Chained(env, st)
  }

  /** The row a commit adds comes last for its tenant and leaves every other tenant alone. */
  lemma CommitAppends(env: Environment, st: State, id: TxId, t: string)
    requires Inv(env, st) && Enabled(env, st, Commit(id))
    ensures var st' := Apply(env, st, Commit(id));
      Rows(st', t) == if st.txs[id].entry.tenant == t then Rows(st, t) + [st.txs[id].phase.row] else Rows(st, t)
  {
    assert Current(env, st, id);
    var Inserted(at, row) := st.txs[id].phase;
    RowsAfterInsert(st.table, t, at, row, st.nextSeq);
  }

  /** No other step changes what any tenant sees. */
  lemma OthersKeepRows(env: Environment, st: State, a: Action, t: string)
    requires Inv(env, st) && Enabled(env, st, a) && !a.Commit?
    ensures Rows(Apply(env, st, a), t) == Rows(st, t)
    ensures TailBelow(Apply(env, st, a).table, t, Apply(env, st, a).nextSeq) == TailBelow(st.table, t, st.nextSeq)
  {
  }

  lemma CommitKeepsChains(env: Environment, st: State, id: TxId)
    requires Inv(env, st) && Enabled(env, st, Commit(id))
    ensures Chained(env, Apply(env, st, Commit(id)))
  {
    assert Current(env, st, id);
    var Tx(e, Inserted(at, row)) := st.txs[id];
    forall t ensures IsChain(env.lib, Rows(Apply(env, st, Commit(id)), t)) {
      CommitAppends(env, st, id, t);
      if t == e.tenant {
        TailIsLastRow(st.table, t, st.nextSeq);
        ChainExtend(env.lib, Rows(st, t), row);
      }
    }
  }

  /** Two transactions past their lock never work on one tenant. */
  lemma MutualExclusion(env: Environment, st: State, i: TxId, j: TxId)
    requires Inv(env, st) && i in st.txs && j in st.txs && i != j
    requires !st.txs[i].phase.Waiting? && !st.txs[j].phase.Waiting?
    ensures st.txs[i].entry.tenant != st.txs[j].entry.tenant
  {
    assert Current(env, st, i) && Current(env, st, j);
  }

  lemma CommitKeepsCurrent(env: Environment, st: State, id: TxId, other: TxId)
    requires Inv(env, st) && Enabled(env, st, Commit(id)) && other in st.txs && other != id
    ensures Current(env, Apply(env, st, Commit(id)), other)
  {
    assert Current(env, st, id) && Current(env, st, other);
    var Tx(e, Inserted(at, row)) := st.txs[id];
    var st' := Apply(env, st, Commit(id));
    assert st'.txs[other] == st.txs[other];
    if !st.txs[other].phase.Waiting? {
      var t := st.txs[other].entry.tenant;
      MutualExclusion(env, st, id, other);
      CommitAppends(env, st, id, t);
      TailIsLastRow(st.table, t, st.nextSeq);
      TailIsLastRow(st'.table, t, st.nextSeq);
    }
  }

  lemma StepKeepsCurrent(env: Environment, st: State, a: Action, id: TxId)
    requires Inv(env, st) && Enabled(env, st, a) && id in Apply(env, st, a).txs
    ensures Current(env, Apply(env, st, a), id)
  {
    if a.Commit? {
      CommitKeepsCurrent(env, st, a.id, id);
    } else if id in st.txs {
      assert Current(env, st, id);
      OthersKeepRows(env, st, a, st.txs[id].entry.tenant);
    }
  }

  lemma StepKeepsNumbered(env: Environment, st: State, a: Action)
    requires Inv(env, st) && Enabled(env, st, a)
    ensures Numbered(Apply(env, st, a))
  {
    if a.InsertRow? {
      forall i | i in st.txs && st.txs[i].phase.Inserted? ensures st.txs[i].phase.at < st.nextSeq {
        assert Current(env, st, i);
      }
    } else if a.Commit? {
      assert Current(env, st, a.id);
    }
  }

  /** Every step of every transaction keeps the invariant. */
  lemma StepKeepsInv(env: Environment, st: State, a: Action)
    requires Inv(env, st) && Enabled(env, st, a)
    ensures Inv(env, Apply(env, st, a))
  {
    var st' := Apply(env, st, a);
    StepKeepsNumbered(env, st, a);
    forall id | id in st'.txs ensures Current(env, st', id) { StepKeepsCurrent(env, st, a, id); }
    if a.Commit? {
      CommitKeepsChains(env, st, a.id);
    } else {
      forall t ensures IsChain(env.lib, Rows(st', t)) { OthersKeepRows(env, st, a, t); }
    }
  }

  // ---- Whole runs -----------------------------------------------------------------------

  ghost predicate CanRun(env: Environment, st: State, acts: seq<Action>)
    decreases |acts|
  {
    acts == [] || (Enabled(env, st, acts[0]) && CanRun(env, Apply(env, st, acts[0]), acts[1..]))
  }

  ghost function After(env: Environment, st: State, acts: seq<Action>): State
    requires CanRun(env, st, acts)
    decreases |acts|
  {
    if acts == [] then st else After(env, Apply(env, st, acts[0]), acts[1..])
  }

  ghost function CommittedBy(env: Environment, st: State, a: Action, t: string): seq<Entry>
    requires Enabled(env, st, a)
  {
    if a.Commit? && st.txs[a.id].entry.tenant == t then [st.txs[a.id].entry] else []
  }

  /** The entries of a tenant's committed transactions, in commit order. */
  ghost function CommittedEntries(env: Environment, st: State, acts: seq<Action>, t: string): seq<Entry>
    requires CanRun(env, st, acts)
    decreases |acts|
  {
    if acts == [] then [] else
      CommittedBy(env, st, acts[0], t) + CommittedEntries(env, Apply(env, st, acts[0]), acts[1..], t)
  }

  ghost function EntriesOf(rows: seq<Row>): seq<Entry> {
    seq(|rows|, i requires 0 <= i < |rows| => rows[i].entry)
  }

  /** A step extends what a tenant sees by exactly the entry it commits. */
  lemma StepRows(env: Environment, st: State, a: Action, t: string)
    requires Inv(env, st) && Enabled(env, st, a)
    ensures Rows(st, t) <= Rows(Apply(env, st, a), t)
    ensures EntriesOf(Rows(Apply(env, st, a), t)) == EntriesOf(Rows(st, t)) + CommittedBy(env, st, a, t)
  {
    if a.Commit? {
      CommitAppends(env, st, a.id, t);
      assert Current(env, st, a.id);
      var row := st.txs[a.id].phase.row;
      assert EntriesOf(Rows(st, t) + [row]) == EntriesOf(Rows(st, t)) + [row.entry];
    } else {
      OthersKeepRows(env, st, a, t);
    }
  }

  lemma {:induction false} RunKeepsInv(env: Environment, st: State, acts: seq<Action>)
    requires Inv(env, st) && CanRun(env, st, acts)
    ensures Inv(env, After(env, st, acts))
    decreases |acts|
  {
    hide Inv, Enabled, Apply;
    if acts != [] {
      StepKeepsInv(env, st, acts[0]);
      RunKeepsInv(env, Apply(env, st, acts[0]), acts[1..]);
    }
  }

  /** The log is append-only: a run extends each tenant's rows by its commits, in commit order. */
  lemma {:induction false} RunAppends(env: Environment, st: State, acts: seq<Action>, t: string)
    requires Inv(env, st) && CanRun(env, st, acts)
    ensures Rows(st, t) <= Rows(After(env, st, acts), t)
    ensures EntriesOf(Rows(After(env, st, acts), t)) == EntriesOf(Rows(st, t)) + CommittedEntries(env, st, acts, t)
    decreases |acts|
  {
    hide Inv, Enabled, Apply, Rows, EntriesOf, CommittedBy;
    if acts != [] {
      var st' := Apply(env, st, acts[0]);
      StepKeepsInv(env, st, acts[0]);
      StepRows(env, st, acts[0], t);
      RunAppends(env, st', acts[1..], t);
    }
  }

  /** However the transactions interleave and wherever they abort, each tenant's rows in `seq`
      order form one chain from the empty hash, and they are the committed entries in the order
      of their commits. */
  lemma EveryRunIsChained(env: Environment, acts: seq<Action>, t: string)
    requires CanRun(env, EMPTY, acts)
    ensures IsChain(env.lib, Rows(After(env, EMPTY, acts), t))
    ensures EntriesOf(Rows(After(env, EMPTY, acts), t)) == CommittedEntries(env, EMPTY, acts, t)
  {
    EmptyInv(env);
    RunKeepsInv(env, EMPTY, acts);
    RunAppends(env, EMPTY, acts, t);
  }

  lemma EmptyInv(env: Environment)
    ensures Inv(env, EMPTY)
    ensures forall t :: Rows(EMPTY, t) == []
  {
    forall t ensures Rows(EMPTY, t) == [] && IsChain(env.lib, Rows(EMPTY, t)) { }
  }

  // ---- One call, in place ---------------------------------------------------------------

  datatype LogResult = Logged(row: Row) | InvalidInput | Failed

  /** A number without a row adds nothing. */
  lemma NoRowThere(table: map<nat, Row>, t: string, n: nat)
    requires n !in table
    ensures RowsBelow(table, t, n + 1) == RowsBelow(table, t, n)
  {
  }

  /** The table and its sequence, as one `Log` call with the lock to itself updates them. */
  class AuditStore {
    var table: map<nat, Row>
    var nextSeq: nat

    ghost predicate Valid(env: Environment)
      reads this
    {
      (forall k :: k in table ==> k < nextSeq) && forall t :: IsChain(env.lib, TenantRows(t))
    }

    ghost function TenantRows(t: string): seq<Row>
      reads this
    {
      RowsBelow(table, t, nextSeq)
    }

    constructor (env: Environment)
      ensures Valid(env) && forall t :: TenantRows(t) == []
    {
      table := map[];
      nextSeq := 0;
      new;
      forall t ensures TenantRows(t) == [] && IsChain(env.lib, TenantRows(t)) { }
    }

    method Tail(t: string) returns (hash: string)
      ensures hash == PrevOf(TenantRows(t), |TenantRows(t)|)
    {
      var n := nextSeq;
      while n > 0 && !(n - 1 in table && table[n - 1].entry.tenant == t)
        invariant 0 <= n <= nextSeq && TailBelow(table, t, n) == TailBelow(table, t, nextSeq)
      {
        n := n - 1;
      }
      TailIsLastRow(table, t, nextSeq);
      hash := if n > 0 then table[n - 1].entryHash else "";
    }

    /** `Log`: a logged entry extends its tenant's chain by one row and touches no other tenant;
        a rejected or failed call changes nothing any tenant can see. */
    method Log(env: Environment, e: Entry, commits: bool) returns (r: LogResult)
      requires Valid(env)
      modifies this
      ensures Valid(env)
      ensures r.InvalidInput? <==> e.tenant == "" || e.action == "" || e.actorType == ""
      ensures r.Logged? <==> e.tenant != "" && e.action != "" && e.actorType != "" && commits
      ensures r.Logged? ==>
        && r.row.entry.(ip := e.ip) == e && r.row.entry.ip == (if e.ip == "" then "" else env.normalizeIP(e.ip))
        && TenantRows(e.tenant) == old(TenantRows(e.tenant)) + [r.row]
      ensures forall t :: !r.Logged? || t != e.tenant ==> TenantRows(t) == old(TenantRows(t))
    {
      hide RowsBelow, IsChain;
      if e.tenant == "" || e.action == "" || e.actorType == "" {
        return InvalidInput;
      }
      var prev := Tail(e.tenant);
      var stored := Normalized(env, e);
      var hash := ComputeHash(env.lib, prev, stored);
      var row := Row(stored, prev, hash);
      nextSeq := nextSeq + 1;
      ghost var before := table;
      forall t ensures RowsBelow(before, t, nextSeq) == old(TenantRows(t)) {
        NoRowThere(before, t, nextSeq - 1);
      }
      if !commits {
        return Failed;
      }
      table := table[nextSeq - 1 := row];
      forall t
        ensures TenantRows(t) == if t == e.tenant then old(TenantRows(t)) + [row] else old(TenantRows(t))
        ensures IsChain(env.lib, TenantRows(t))
      {
        RowsAfterInsert(before, t, nextSeq - 1, row, nextSeq);
        if t == e.tenant { ChainExtend(env.lib, old(TenantRows(t)), row); }
      }
      return Logged(row);
    }
  }
}
