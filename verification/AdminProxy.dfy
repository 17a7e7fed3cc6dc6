/** The support-access services over their tables (internal/approval/service.go,
    internal/adminproxy/service.go, internal/adminproxy/expiry_worker.go), while other calls and
    workers are in the middle of what they do.
  */
module AdminProxyService {
  import opened Wrappers
  import opened AdminSessions

  type Outcome<T> = Result<T, Error>

  const BATCH_LIMIT := 100

  predicate DueAt(sessions: map<Id, Session>, now: int, id: Id) {
    id in sessions && Open(sessions[id]) && sessions[id].expiresAt < now
  }

  /** `ids` holds the due sessions that ended first, at most a batch of them, in order. */
  ghost predicate IsBatch(sessions: map<Id, Session>, now: int, ids: seq<Id>) {
    |ids| <= 100 && (forall i :: 0 <= i < |ids| ==> DueAt(sessions, now, ids[i])) &&
    (forall i, j :: 0 <= i < j < |ids| ==> InOrder(sessions, ids[i], ids[j])) &&
    (forall d :: DueAt(sessions, now, d) && d !in ids ==> |ids| == 100 && NoneLater(sessions, ids, d))
  }

  /** None of the ids ends after `d`. */
  ghost predicate NoneLater(sessions: map<Id, Session>, ids: seq<Id>, d: Id) {
    forall i :: 0 <= i < |ids| ==> EndsBy(sessions, ids[i], d)
  }

  lemma {:induction false} EarliestExists(sessions: map<Id, Session>, left: set<Id>)
    requires left != {} && left <= sessions.Keys
    ensures exists id :: id in left && forall j :: j in left ==> sessions[id].expiresAt <= sessions[j].expiresAt
    decreases left
  {
    var x :| x in left;
    if left != {x} {
      EarliestExists(sessions, left - {x});
      var y :| y in left - {x} && forall j :: j in left - {x} ==> sessions[y].expiresAt <= sessions[j].expiresAt;
      var best := if sessions[x].expiresAt < sessions[y].expiresAt then x else y;
      assert best in left && forall j :: j in left ==> sessions[best].expiresAt <= sessions[j].expiresAt;
    }
  }

  /** What goes on around one pass: how it ends, how the worker it waits for ends, and whether the
      session is revoked after the wait. */
  datatype Turn = Turn(ending: Ending, other: Ending, revoked: bool)

  function TurnOf(turns: map<Id, Turn>, id: Id): Turn {
    if id in turns then turns[id] else Turn(Commits, Commits, false)
  }

  // ---- One pass, after waiting for the row ------------------------------------------------------

  /** What the worker holding a row leaves behind when it ends this way; once it has written its audit
      entry, only the commit can still fail. */
  function Finished(st: State, w: Id, e: Ending): State
    requires w in st.workers && !st.workers[w].phase.Ready? && st.workers[w].phase.id in st.sessions
  {
    var Worker(batch, phase) := st.workers[w];
    var t := Put(st, w, Worker(batch, Ready));
    if phase.Claimed? && e == LosesAudit then t
    else
      var u := if phase.Claimed? then t.(audit := st.audit + [Expiry(phase.id, st.now)]) else t;
      if e == Commits then
        u.(sessions := st.sessions[phase.id := st.sessions[phase.id].(expiredAt := Some(phase.since))])
      else u.(lost := st.lost + [phase.id])
  }

  /** The row is free: at once, or when the worker that holds it has ended this way. */
  ghost function Waited(st: State, id: Id, e: Ending): State
    requires id in st.sessions
  {
    if RowFree(st, id) then st
    else
      var w :| w in st.workers && Holds(st.workers[w], id);
      Finished(st, w, e)
  }

  /** What the claim finds: the wait is over, and a revoke may have come first. */
  ghost function Reached(st: State, id: Id, u: Turn): State
    requires id in st.sessions
  {
    var t := Waited(st, id, u.other);
    if u.revoked && Revocable(t.sessions, st.sessions[id].tenant, id)
    then t.(sessions := t.sessions[id := t.sessions[id].(revokedAt := Some(t.now))], revokes := t.revokes + [id])
    else t
  }

  /** One pass over a session: the claim takes it if it is still open. */
  ghost function Processed(st: State, me: Id, id: Id, u: Turn): State
    requires id in st.sessions
  {
    var t := Reached(st, id, u);
    if id in t.sessions && Open(t.sessions[id]) then AfterPass(t, me, id, u.ending) else t
  }

  lemma WaitedIs(st: State, id: Id, e: Ending, w: Id)
    requires Exclusive(st) && id in st.sessions && w in st.workers && Holds(st.workers[w], id)
    ensures Waited(st, id, e) == Finished(st, w, e)
  {
    hide Finished;
  }

  lemma FinishedKeepsInv(st: State, w: Id, e: Ending)
    requires Inv(st) && w in st.workers && !st.workers[w].phase.Ready? && st.workers[w].phase.id in st.sessions
    ensures Inv(Finished(st, w, e))
  {
    hide Inv, RowFree, Due, Judge, Unopened;
    var Worker(batch, phase) := st.workers[w];
    var t := st;
    if phase.Claimed? {
      if e == LosesAudit {
        StepKeepsInv(st, AuditFails(w));
        return;
      }
      StepKeepsInv(st, WriteAudit(w));
      t := Apply(st, WriteAudit(w));
      PutAgain(st, w, Worker(batch, Audited(phase.id, phase.since)), Worker(batch, Ready));
    }
    StepKeepsInv(t, if e == Commits then CommitClaim(w) else CommitFails(w));
  }

  /** After the wait the row is free and ended, and nobody else's row has changed. */
  lemma WaitedLeaves(st: State, id: Id, e: Ending, me: Id)
    requires Inv(st) && Ended(st, id) && Idle(st, me)
    ensures var t := Waited(st, id, e);
      && Inv(t) && RowFree(t, id) && Ended(t, id) && Idle(t, me) && t.sessions.Keys == st.sessions.Keys
      && (t.sessions[id].expiredAt.Some? <==> st.sessions[id].expiredAt.Some? || (!RowFree(st, id) && e == Commits))
      && t.sessions[id].revokedAt == st.sessions[id].revokedAt && t.sessions[id].tenant == st.sessions[id].tenant
  {
    if !RowFree(st, id) {
      var w :| w in st.workers && Holds(st.workers[w], id);
      WaitedIs(st, id, e, w);
      FinishedKeepsInv(st, w, e);
      HolderLeaves(st, id, e, w);
    }
  }

  /** A revoke after the wait closes the session and changes nothing else. */
  lemma ReachedLeaves(st: State, id: Id, u: Turn, me: Id)
    requires Inv(st) && Ended(st, id) && Idle(st, me)
    ensures var t, row := Reached(st, id, u), st.sessions[id];
      && Inv(t) && RowFree(t, id) && Ended(t, id) && Idle(t, me) && t.now == st.now
      && t.sessions.Keys == st.sessions.Keys
      && (t.sessions[id].expiredAt.Some? <==> row.expiredAt.Some? || (!RowFree(st, id) && u.other == Commits))
      && (t.sessions[id].revokedAt.Some? <==> row.revokedAt.Some? || u.revoked)
  {
    hide Inv, Waited;
    WaitedLeaves(st, id, u.other, me);
    WaitedNow(st, id, u.other);
    if u.revoked && st.sessions[id].revokedAt.None? {
      RevokeKeepsInv(Waited(st, id, u.other), id);
    }
  }

  lemma RevokeKeepsInv(st: State, id: Id)
    requires Inv(st) && RowFree(st, id) && id in st.sessions && st.sessions[id].revokedAt.None?
    ensures Inv(st.(sessions := st.sessions[id := st.sessions[id].(revokedAt := Some(st.now))],
                    revokes := st.revokes + [id]))
  {
    hide Inv, RowFree;
    StepKeepsInv(st, Action.Revoke(id, st.sessions[id].tenant));
  }

  lemma HolderLeaves(st: State, id: Id, e: Ending, w: Id)
    requires Exclusive(st) && Ended(st, id) && w in st.workers && Holds(st.workers[w], id)
    ensures var t := Finished(st, w, e);
      && RowFree(t, id) && t.now == st.now && t.sessions.Keys == st.sessions.Keys
      && t.sessions[id].(expiredAt := None) == st.sessions[id].(expiredAt := None)
      && (t.sessions[id].expiredAt.Some? <==> st.sessions[id].expiredAt.Some? || e == Commits)
      && t.workers == st.workers[w := Worker(st.workers[w].batch, Ready)]
  {
    hide RowFree, Exclusive;
    FinishedFrees(st, id, w, Finished(st, w, e));
  }

  lemma FinishedFrees(st: State, id: Id, w: Id, t: State)
    requires Exclusive(st) && w in st.workers && Holds(st.workers[w], id)
    requires t.workers == st.workers[w := Worker(st.workers[w].batch, Ready)]
    ensures RowFree(t, id) && forall other :: other != id ==> (RowFree(t, other) <==> RowFree(st, other))
  {
    forall other | other != id ensures RowFree(t, other) <==> RowFree(st, other) {
      assert forall v :: v in st.workers && v != w ==> t.workers[v] == st.workers[v];
    }
  }

  lemma OthersUntouched(st: State, id: Id, e: Ending, other: Id)
    requires Exclusive(st) && id in st.sessions && other != id
    ensures var t := Waited(st, id, e);
      && (other in st.sessions ==> other in t.sessions && t.sessions[other] == st.sessions[other])
      && (RowFree(t, other) <==> RowFree(st, other)) && (HeldClaimed(t, other) <==> HeldClaimed(st, other))
      && Entries(t.audit, other) == Entries(st.audit, other)
  {
    hide Entries, Exclusive, HeldClaimed, Finished;
    if !RowFree(st, id) {
      var w :| w in st.workers && Holds(st.workers[w], id);
      WaitedIs(st, id, e, w);
      HolderOthers(st, id, e, w, other);
    }
  }

  lemma HolderOthers(st: State, id: Id, e: Ending, w: Id, other: Id)
    requires Exclusive(st) && id in st.sessions && other != id && w in st.workers && Holds(st.workers[w], id)
    ensures var t := Finished(st, w, e);
      && (other in st.sessions ==> other in t.sessions && t.sessions[other] == st.sessions[other])
      && (RowFree(t, other) <==> RowFree(st, other)) && (HeldClaimed(t, other) <==> HeldClaimed(st, other))
      && Entries(t.audit, other) == Entries(st.audit, other)
  {
    hide Entries, Losses, RowFree, Exclusive, HeldClaimed;
    CountSnoc(st.audit, Expiry(id, st.now), [], "", other);
    FinishedFrees(st, id, w, Finished(st, w, e));
    HeldElsewhere(st, Finished(st, w, e), w, id, other);
  }

  /** The row is held by a worker that has not written its audit entry yet. */
  ghost predicate HeldClaimed(st: State, id: Id) {
    exists w :: w in st.workers && Holds(st.workers[w], id) && st.workers[w].phase.Claimed?
  }

  /** The pass finds the session closed: marked by the worker waited for, or revoked. */
  ghost predicate Closed(st: State, id: Id, u: Turn) {
    (!RowFree(st, id) && u.other == Commits) || u.revoked
  }

  /** How many entries a pass over a due session adds: the waited-for worker's, and its own unless it
      finds the session closed. */
  ghost function Writes(st: State, id: Id, u: Turn): nat {
    (if HeldClaimed(st, id) && u.other != LosesAudit then 1 else 0) +
    (if Closed(st, id, u) || u.ending == LosesAudit then 0 else 1)
  }

  lemma WaitedWrites(st: State, id: Id, e: Ending)
    requires Exclusive(st) && id in st.sessions
    ensures Entries(Waited(st, id, e).audit, id) == Entries(st.audit, id) +
      if HeldClaimed(st, id) && e != LosesAudit then 1 else 0
  {
    hide Entries, Losses;
    if !RowFree(st, id) {
      var w :| w in st.workers && Holds(st.workers[w], id);
      WaitedIs(st, id, e, w);
      assert HeldClaimed(st, id) <==> st.workers[w].phase.Claimed?;
      CountSnoc(st.audit, Expiry(id, st.now), [], "", id);
    }
  }

  lemma ProcessedWrites(st: State, me: Id, id: Id, u: Turn)
    requires Inv(st) && Due(st, id) && Idle(st, me)
    ensures Entries(Processed(st, me, id, u).audit, id) == Entries(st.audit, id) + Writes(st, id, u)
  {
    hide Inv, Waited, Entries, Losses, HeldClaimed, RowFree, Idle;
    InvExclusive(st);
    ReachedLeaves(st, id, u, me);
    WaitedWrites(st, id, u.other);
    var t := Reached(st, id, u);
    CountSnoc(t.audit, Expiry(id, t.now), [], "", id);
  }

  lemma HeldElsewhere(st: State, t: State, w: Id, id: Id, other: Id)
    requires other != id && w in t.workers && t.workers == st.workers[w := t.workers[w]] && t.workers[w].phase.Ready?
    requires w in st.workers ==> st.workers[w].phase.Ready? || Holds(st.workers[w], id)
    ensures HeldClaimed(t, other) <==> HeldClaimed(st, other)
  {
    assert forall v :: v in st.workers && v != w ==> v in t.workers && t.workers[v] == st.workers[v];
  }

  // ---- A batch of passes ------------------------------------------------------------------------

  /** The passes over a batch, one after another. */
  ghost function Ticked(st: State, me: Id, ids: seq<Id>, turns: map<Id, Turn>): State {
    if ids == [] then st
    else
      var id := ids[|ids| - 1];
      var before := Ticked(st, me, ids[..|ids| - 1], turns);
      if id in before.sessions then Processed(before, me, id, TurnOf(turns, id)) else before
  }

  /** The session is marked by the end of its pass: by the worker waited for, or by this one. */
  ghost predicate Marks(st: State, id: Id, u: Turn) {
    (!RowFree(st, id) && u.other == Commits) || (u.ending == Commits && !u.revoked)
  }

  /** The pass reports no error: it commits, or there is nothing left to claim. */
  ghost predicate Succeeds(st: State, id: Id, u: Turn) {
    u.ending == Commits || Closed(st, id, u)
  }

  /** How many of a batch do. */
  ghost function SucceedIn(st: State, ids: seq<Id>, turns: map<Id, Turn>): nat {
    if ids == [] then 0
    else
      var id := ids[|ids| - 1];
      SucceedIn(st, ids[..|ids| - 1], turns) + (if Succeeds(st, id, TurnOf(turns, id)) then 1 else 0)
  }

  ghost predicate Batch(st: State, ids: seq<Id>) {
    (forall i :: 0 <= i < |ids| ==> Due(st, ids[i])) && forall i, j :: 0 <= i < j < |ids| ==> ids[i] != ids[j]
  }

  /** What a pass does to its own session and to the others. */
  lemma ProcessedLeaves(st: State, me: Id, id: Id, u: Turn)
    requires Inv(st) && Due(st, id) && Idle(st, me)
    ensures var t := Processed(st, me, id, u);
      && Inv(t) && Idle(t, me) && t.now == st.now && t.sessions.Keys == st.sessions.Keys
      && (t.sessions[id].expiredAt.Some? <==> Marks(st, id, u)) && RowFree(t, id)
      && (t.sessions[id].revokedAt.Some? <==> u.revoked)
  {
    hide Inv, Reached, AfterPass;
    ReachedLeaves(st, id, u, me);
    var t := Reached(st, id, u);
    if Open(t.sessions[id]) {
      PassKeepsInv(t, me, id, u.ending);
      PassLeaves(t, me, id, u.ending);
    }
  }

  lemma WaitedNow(st: State, id: Id, e: Ending)
    requires id in st.sessions
    ensures Waited(st, id, e).now == st.now
  {
  }

  lemma PassLeaves(st: State, me: Id, id: Id, e: Ending)
    requires Due(st, id) && RowFree(st, id) && Idle(st, me)
    ensures var t := AfterPass(st, me, id, e);
      && Idle(t, me) && t.now == st.now && t.sessions.Keys == st.sessions.Keys && RowFree(t, id)
      && (t.sessions[id].expiredAt.Some? <==> e == Commits) && t.sessions[id].revokedAt == st.sessions[id].revokedAt
  {
  }

  lemma ReachedOthers(st: State, id: Id, u: Turn, x: Id)
    requires Exclusive(st) && id in st.sessions && x != id
    ensures var t := Reached(st, id, u);
      && (x in st.sessions ==> x in t.sessions && t.sessions[x] == st.sessions[x])
      && (RowFree(t, x) <==> RowFree(st, x)) && (HeldClaimed(t, x) <==> HeldClaimed(st, x))
      && Entries(t.audit, x) == Entries(st.audit, x)
  {
    hide Waited, Entries, Exclusive;
    OthersUntouched(st, id, u.other, x);
  }

  lemma ProcessedOthers(st: State, me: Id, id: Id, u: Turn, x: Id)
    requires Inv(st) && Due(st, id) && Idle(st, me) && x != id
    ensures var t := Processed(st, me, id, u);
      && (x in st.sessions ==> x in t.sessions && t.sessions[x] == st.sessions[x])
      && (RowFree(t, x) <==> RowFree(st, x)) && (HeldClaimed(t, x) <==> HeldClaimed(st, x))
      && Entries(t.audit, x) == Entries(st.audit, x)
  {
    hide Inv, Reached, AfterPass, Entries, RowFree, HeldClaimed;
    InvExclusive(st);
    ReachedLeaves(st, id, u, me);
    ReachedOthers(st, id, u, x);
    var t := Reached(st, id, u);
    if Open(t.sessions[id]) {
      PassOthers(t, me, id, u.ending, x);
    }
  }

  lemma InvExclusive(st: State)
    requires Inv(st)
    ensures Exclusive(st)
  {
  }

  lemma PassOthers(st: State, me: Id, id: Id, e: Ending, x: Id)
    requires id in st.sessions && x != id && Idle(st, me)
    ensures var t := AfterPass(st, me, id, e);
      && (x in st.sessions ==> x in t.sessions && t.sessions[x] == st.sessions[x])
      && (RowFree(t, x) <==> RowFree(st, x)) && (HeldClaimed(t, x) <==> HeldClaimed(st, x))
      && Entries(t.audit, x) == Entries(st.audit, x)
  {
    hide Entries, Losses, HeldClaimed;
    CountSnoc(st.audit, Expiry(id, st.now), [], "", x);
    var t := AfterPass(st, me, id, e);
    HeldElsewhere(st, t, me, id, x);
    assert forall v :: v in st.workers && v != me ==> v in t.workers && t.workers[v] == st.workers[v];
  }

  /** A batch of passes marks exactly the sessions whose pass, or the pass waited for, commits before
      they are revoked; each session's entries stay accounted for, and no session outside the batch
      is touched. */
  lemma {:induction false} TickSettles(st: State, me: Id, ids: seq<Id>, turns: map<Id, Turn>, id: Id)
    requires Inv(st) && Idle(st, me) && Batch(st, ids) && id in st.sessions
    ensures var t, u := Ticked(st, me, ids, turns), TurnOf(turns, id);
      && Inv(t) && Idle(t, me) && t.now == st.now && id in t.sessions
      && (id !in ids ==> t.sessions[id] == st.sessions[id] && Entries(t.audit, id) == Entries(st.audit, id))
      && (id !in ids ==> (RowFree(t, id) <==> RowFree(st, id)) && (HeldClaimed(t, id) <==> HeldClaimed(st, id)))
      && (id in ids ==> Entries(t.audit, id) == Entries(st.audit, id) + Writes(st, id, u))
      && (id in ids ==> (t.sessions[id].expiredAt.Some? <==> Marks(st, id, u)))
      && (id in ids ==> (t.sessions[id].revokedAt.Some? <==> u.revoked) && RowFree(t, id))
  {
    hide Inv, Processed, RowFree, Idle, Entries, HeldClaimed, TurnOf;
    if ids != [] {
      var n := |ids| - 1;
      var x := ids[n];
      var before := Ticked(st, me, ids[..n], turns);
      BatchPrefix(st, ids);
      TickSettles(st, me, ids[..n], turns, id);
      TickSettles(st, me, ids[..n], turns, x);
      assert Due(before, x);
      ProcessedLeaves(before, me, x, TurnOf(turns, x));
      ProcessedWrites(before, me, x, TurnOf(turns, x));
      if id != x {
        ProcessedOthers(before, me, x, TurnOf(turns, x), id);
        assert id in ids <==> id in ids[..n];
      }
    }
  }

  lemma BatchPrefix(st: State, ids: seq<Id>)
    requires Batch(st, ids) && ids != []
    ensures var n := |ids| - 1; Batch(st, ids[..n]) && ids[n] !in ids[..n] && Due(st, ids[n])
  {
    hide Due;
  }

  class AdminProxy {
    var approvals: map<Id, Approval>
    var sessions: map<Id, Session>
    var audit: seq<Expiry>
    ghost var calls: map<Id, Call>
    var workers: map<Id, Worker>
    ghost var lost: seq<Id>
    ghost var revokes: seq<Id>
    ghost var answers: seq<Answer>

    /** The tables, and everyone in the middle of something, as a state of the protocol. */
    ghost function Now(now: int): State
      reads this
    {
      State(now, approvals, sessions, calls, workers, audit, lost, revokes, answers)
    }

    ghost predicate Valid(now: int)
      reads this
    {
      Inv(Now(now))
    }

    constructor ()
      ensures Now(0) == EMPTY && Valid(0)
    {
      approvals, sessions, audit := map[], map[], [];
      calls, workers, lost, revokes, answers := map[], map[], [], [], [];
      new;
      EmptyInv();
    }

    method CreateRequest(id: Id, tenant: Id, requester: string, action: string, proxyAction: string, now: int,
        commits: bool)
      returns (r: Outcome<()>)
      requires Valid(now) && id !in approvals
      modifies this`approvals
      ensures Valid(now)
      ensures r == Err(MissingArgument) <==> tenant == "" || requester == "" || action == ""
      ensures r == Err(NotStored) <==> tenant != "" && requester != "" && action != "" && !commits
      ensures r.Ok? || r.error in {MissingArgument, NotStored}
      ensures approvals ==
        if r.Ok? then old(approvals)[id := Approval(tenant, action == proxyAction, Pending)] else old(approvals)
    {
      hide Inv;
      if tenant == "" || requester == "" || action == "" {
        return Err(MissingArgument);
      }
      if !commits {
        return Err(NotStored);
      }
      StepKeepsInv(Now(now), Action.CreateRequest(id, tenant, action == proxyAction));
      approvals := approvals[id := Approval(tenant, action == proxyAction, Pending)];
      r := Ok(());
    }

    method Resolve(tenant: Id, id: Id, status: Status, now: int, commits: bool) returns (r: Outcome<Approval>)
      requires Valid(now) && status != Pending
      modifies this`approvals
      ensures Valid(now)
      ensures r.Ok? <==>
        && tenant != "" && id in old(approvals)
        && old(approvals)[id].tenant == tenant && old(approvals)[id].status == Pending && commits
      ensures r.Ok? ==> approvals == old(approvals)[id := r.value] && r.value == old(approvals)[id].(status := status)
      ensures r.Err? ==> approvals == old(approvals)
    {
      hide Inv;
      if tenant == "" {
        return Err(MissingArgument);
      }
      if id !in approvals || approvals[id].tenant != tenant || approvals[id].status != Pending {
        return Err(NotPending);
      }
      if !commits {
        return Err(NotStored);
      }
      StepKeepsInv(Now(now), Action.Resolve(id, tenant, status));
      approvals := approvals[id := approvals[id].(status := status)];
      r := Ok(approvals[id]);
    }

    /** The update waits until no worker holds the row. */
    method RevokeSession(tenant: Id, id: Id, now: int, commits: bool) returns (r: Outcome<()>)
      requires Valid(now) && RowFree(Now(now), id)
      modifies this`sessions, this`revokes
      ensures Valid(now)
      ensures r == if commits then Ok(()) else Err(NotStored)
      ensures r.Ok? && Revocable(old(sessions), tenant, id) ==>
        sessions == old(sessions)[id := old(sessions)[id].(revokedAt := Some(now))] && revokes == old(revokes) + [id]
      ensures !(r.Ok? && Revocable(old(sessions), tenant, id)) ==> sessions == old(sessions) && revokes == old(revokes)
    {
      hide Inv, RowFree;
      if !commits {
        return Err(NotStored);
      }
      if id in sessions && sessions[id].tenant == tenant && sessions[id].revokedAt.None? {
        RevokeKeepsInv(Now(now), id);
        sessions := sessions[id := sessions[id].(revokedAt := Some(now))];
        revokes := revokes + [id];
      }
      r := Ok(());
    }

    ghost predicate ApprovedFor(tenant: Id, ap: Id)
      reads this
    {
      ap in approvals && approvals[ap] == Approval(tenant, true, Approved)
    }

    /** The session opened under an approval. */
    ghost predicate OpenedUnder(tenant: Id, ap: Id, id: Id)
      reads this
    {
      id in sessions && sessions[id].approval == ap && sessions[id].tenant == tenant
    }

    /** Opens a session under an approved request, or finds the one already there, and never hands
        out one that is revoked or past its end.  `clock` is read to date a new session, `later` to
        judge the result.  The answer is recorded as the protocol's. */
    method EnsureSession(tenant: Id, ap: Id, newId: Id, clock: int, later: int, now: int, commits: bool,
        ghost call: Id)
      returns (r: Outcome<Access>)
      requires Valid(now) && newId !in sessions && call !in calls
      modifies this`sessions, this`answers
      ensures Valid(now)
      ensures r == Err(MissingArgument) <==> tenant == "" || ap == ""
      ensures r == Err(NotApproved) <==> tenant != "" && ap != "" && !ApprovedFor(tenant, ap)
      ensures r == Err(NotStored) <==> tenant != "" && ap != "" && ApprovedFor(tenant, ap) && !commits
      ensures r.Ok? ==>
        ApprovedFor(tenant, ap) && OpenedUnder(tenant, ap, r.value.id) && r.value.session == sessions[r.value.id]
      ensures r.Ok? ==> r.value.session.revokedAt.None? && later <= r.value.session.expiresAt
      ensures sessions != old(sessions) ==>
        && sessions == old(sessions)[newId := Session(tenant, ap, clock + 4 * 3600, None, None)]
        && ApprovedFor(tenant, ap) && forall id :: !old(OpenedUnder(tenant, ap, id))
      ensures r.Err? && r.error in {MissingArgument, NotApproved, NotStored} ==>
        sessions == old(sessions) && answers == old(answers)
      ensures !(r.Err? && r.error in {MissingArgument, NotApproved, NotStored}) ==>
        exists id :: OpenedUnder(tenant, ap, id) &&
          answers == old(answers) + [Answer(tenant, ap, id, sessions[id], |revokes|, later, r)] &&
          (r == Err(SessionRevoked) <==> sessions[id].revokedAt.Some?) &&
          (r == Err(SessionExpired) <==> sessions[id].revokedAt.None? && sessions[id].expiresAt < later) &&
          (r.Ok? ==> r.value == Access(id, sessions[id]))
    {
      hide Inv, Judge;
      if tenant == "" || ap == "" {
        return Err(MissingArgument);
      }
      if ap !in approvals || approvals[ap] != Approval(tenant, true, Approved) {
        return Err(NotApproved);
      }
      if !commits {
        return Err(NotStored);
      }
      var id := newId;
      if found :| found in sessions && sessions[found].approval == ap && sessions[found].tenant == tenant {
        id := found;
        AnswerFound(Now(now), call, tenant, ap, id, later);
      } else {
        forall s | s in sessions ensures sessions[s].approval != ap {
          OpenedByTenant(Now(now), tenant, ap, s);
        }
        AnswerOpened(Now(now), call, tenant, ap, newId, clock, later);
        sessions := sessions[newId := Session(tenant, ap, clock + SESSION_DURATION, None, None)];
      }
      assert OpenedUnder(tenant, ap, id);
      answers := answers + [Answer(tenant, ap, id, sessions[id], |revokes|, later, Judge(id, sessions[id], later))];
      r := Verdict(id, sessions[id], later);
    }

    static method Verdict(id: Id, row: Session, later: int) returns (r: Outcome<Access>)
      ensures r == Judge(id, row, later)
      ensures r.Ok? ==> r.value == Access(id, row) && row.revokedAt.None? && later <= row.expiresAt
      ensures r == Err(SessionRevoked) <==> row.revokedAt.Some?
      ensures r == Err(SessionExpired) <==> row.revokedAt.None? && row.expiresAt < later
      ensures r.Err? ==> r.error in {SessionRevoked, SessionExpired}
    {
      if row.revokedAt.Some? {
        return Err(SessionRevoked);
      }
      if later > row.expiresAt {
        return Err(SessionExpired);
      }
      r := Ok(Access(id, row));
    }

    /** Waits for the worker that holds the row, if one does. */
    method AwaitRow(id: Id, now: int, other: Ending)
      requires Valid(now) && Ended(Now(now), id)
      modifies this`sessions, this`audit, this`workers, this`lost
      ensures Valid(now) && Now(now) == Waited(old(Now(now)), id, other)
    {
      hide Inv;
      InvExclusive(Now(now));
      if w :| w in workers && Holds(workers[w], id) {
        WaitedIs(Now(now), id, other, w);
        FinishedKeepsInv(Now(now), w, other);
        var phase := workers[w].phase;
        workers := workers[w := Worker(workers[w].batch, Ready)];
        if phase.Claimed? && other == LosesAudit {
          return;
        }
        if phase.Claimed? {
          audit := audit + [Expiry(id, now)];
        }
        if other == Commits {
          sessions := sessions[id := sessions[id].(expiredAt := Some(phase.since))];
        } else {
          lost := lost + [id];
        }
      }
    }

    /** Claims one session once no other worker holds it, audits it and commits; the session may be
        revoked first, and the audit write or the commit may fail. */
    method ProcessOne(id: Id, now: int, u: Turn, me: Id) returns (ok: bool)
      requires Valid(now) && Ended(Now(now), id) && Idle(Now(now), me)
      modifies this`sessions, this`audit, this`workers, this`lost, this`revokes
      ensures Valid(now)
      ensures Now(now) == Processed(old(Now(now)), me, id, u)
      ensures ok <==> u.ending == Commits || !Open(Reached(old(Now(now)), id, u).sessions[id])
    {
      hide Inv, RowFree, Idle, Waited;
      ReachedLeaves(Now(now), id, u, me);
      WaitedLeaves(Now(now), id, u.other, me);
      WaitedNow(Now(now), id, u.other);
      AwaitRow(id, now, u.other);
      if u.revoked {
        var _ := RevokeSession(sessions[id].tenant, id, now, true);
      }
      if !Open(sessions[id]) {
        return true;
      }
      PassKeepsInv(Now(now), me, id, u.ending);
      workers := workers[me := Worker([], Ready)];
      var row := sessions[id].(expiredAt := Some(now));
      if u.ending == LosesAudit {
        return false;
      }
      audit := audit + [Expiry(id, now)];
      if u.ending == LosesCommit {
        lost := lost + [id];
        return false;
      }
      sessions := sessions[id := row];
      return true;
    }

    /** The worker's query: due sessions, the earliest end first, at most a batch. */
    method SelectBatch(now: int) returns (batch: seq<Id>)
      ensures IsBatch(sessions, now, batch)
    {
      hide Inv;
      var left := set id | id in sessions && Open(sessions[id]) && sessions[id].expiresAt < now;
      batch := [];
      while left != {} && |batch| < BATCH_LIMIT
        invariant Selecting(sessions, now, left, batch)
        decreases left
      {
        EarliestExists(sessions, left);
        var id :| id in left && forall j :: j in left ==> sessions[id].expiresAt <= sessions[j].expiresAt;
        SelectNext(sessions, now, left, batch, id);
        batch := batch + [id];
        left := left - {id};
      }
    }

    /** A whole tick, whoever holds what rows and whichever are revoked meanwhile.  Of the batch, the
        sessions whose pass, or the pass waited for, commits are marked; the passes without an error
        are counted; no session outside the batch is touched; and every session's entries stay
        accounted for. */
    method Tick(now: int, turns: map<Id, Turn>, me: Id)
      returns (n: nat, ghost batch: seq<Id>)
      requires Valid(now) && Idle(Now(now), me)
      modifies this`sessions, this`audit, this`workers, this`lost, this`revokes
      ensures Valid(now) && IsBatch(old(sessions), now, batch)
      ensures Now(now) == Ticked(old(Now(now)), me, batch, turns)
      ensures n == SucceedIn(old(Now(now)), batch, turns)
      ensures forall id :: id in old(sessions) ==> id in sessions
      ensures forall id :: id in old(sessions) && id !in batch ==> sessions[id] == old(sessions)[id]
      ensures forall id :: id in batch && id in sessions ==>
        (sessions[id].expiredAt.Some? <==> Marks(old(Now(now)), id, TurnOf(turns, id))) &&
        (sessions[id].revokedAt.Some? <==> TurnOf(turns, id).revoked)
      ensures forall id :: id in old(sessions) && id !in batch ==> Entries(audit, id) == Entries(old(audit), id)
      ensures forall id :: id in old(sessions) && id in batch ==>
        Entries(audit, id) == Entries(old(audit), id) + Writes(old(Now(now)), id, TurnOf(turns, id))
    {
      hide Entries, Writes, TurnOf;
      hide Inv, RowFree, Idle, Processed, Marks, Ticked, SucceedIn, Batch, Due, Reached;
      ghost var st := Now(now);
      var ids := SelectBatch(now);
      batch, n := ids, 0;
      BatchOf(st, ids);
      NothingTicked(st, me, turns);
      assert ids[..0] == [];
      for i := 0 to |ids|
        invariant Now(now) == Ticked(st, me, ids[..i], turns) && Valid(now) && Idle(Now(now), me)
        invariant n == SucceedIn(st, ids[..i], turns)
      {
        var id := ids[i];
        TickNext(st, me, ids, i, turns);
        var ok := ProcessOne(id, now, TurnOf(turns, id), me);
        if ok {
          n := n + 1;
        }
      }
      assert ids[..|ids|] == ids;
      forall id | id in st.sessions
        ensures id in sessions && (id !in ids ==> sessions[id] == st.sessions[id])
        ensures id in ids ==>
          (sessions[id].expiredAt.Some? <==> Marks(st, id, TurnOf(turns, id))) &&
          (sessions[id].revokedAt.Some? <==> TurnOf(turns, id).revoked)
        ensures Entries(audit, id) == Entries(st.audit, id) + if id in ids then Writes(st, id, TurnOf(turns, id)) else 0
      {
        TickSettles(st, me, ids, turns, id);
      }
    }
  }

  predicate Revocable(sessions: map<Id, Session>, tenant: Id, id: Id) {
    id in sessions && sessions[id].tenant == tenant && sessions[id].revokedAt.None?
  }

  // ---- Steps of the protocol behind the methods -----------------------------------------------

  /** A session under an approval belongs to the approval's tenant. */
  lemma OpenedByTenant(st: State, tenant: Id, ap: Id, s: Id)
    requires Inv(st) && IsApproved(st, tenant, ap) && s in st.sessions
    ensures st.sessions[s].approval == ap ==> st.sessions[s].tenant == tenant
  {
    hide Accounted, ClaimsDue, Exclusive, BatchesEnded, EntriesSound, Served;
    assert IsApproved(st, st.sessions[s].tenant, st.sessions[s].approval);
  }

  lemma AnswerFound(st: State, call: Id, tenant: Id, ap: Id, id: Id, later: int)
    requires Inv(st) && call !in st.calls && IsApproved(st, tenant, ap)
    requires id in st.sessions && st.sessions[id].approval == ap && st.sessions[id].tenant == tenant
    ensures Inv(st.(answers := st.answers +
      [Answer(tenant, ap, id, st.sessions[id], |st.revokes|, later, Judge(id, st.sessions[id], later))]))
  {
    hide Inv, Judge, RowFree, Due, Unopened;
    var a := Apply(st, SeeApproval(call, tenant, ap));
    StepKeepsInv(st, SeeApproval(call, tenant, ap));
    var b := Apply(a, ReadSession(call, id));
    StepKeepsInv(a, ReadSession(call, id));
    StepKeepsInv(b, Return(call, later));
    assert b.calls - {call} == st.calls;
  }

  lemma AnswerOpened(st: State, call: Id, tenant: Id, ap: Id, id: Id, clock: int, later: int)
    requires Inv(st) && call !in st.calls && IsApproved(st, tenant, ap)
    requires id !in st.sessions && forall s :: s in st.sessions ==> st.sessions[s].approval != ap
    ensures var row := Session(tenant, ap, clock + SESSION_DURATION, None, None);
      Inv(st.(sessions := st.sessions[id := row],
              answers := st.answers + [Answer(tenant, ap, id, row, |st.revokes|, later, Judge(id, row, later))]))
  {
    hide Inv, Judge, RowFree, Due;
    var a := Apply(st, SeeApproval(call, tenant, ap));
    StepKeepsInv(st, SeeApproval(call, tenant, ap));
    var b := Apply(a, OpenSession(call, id, clock));
    StepKeepsInv(a, OpenSession(call, id, clock));
    StepKeepsInv(b, Return(call, later));
    assert b.calls - {call} == st.calls;
  }

  lemma PassKeepsInv(st: State, w: Id, id: Id, e: Ending)
    requires Inv(st) && Due(st, id) && RowFree(st, id) && Idle(st, w)
    ensures Inv(AfterPass(st, w, id, e))
  {
    hide Inv, IsRun, Final, Due, RowFree, Idle, AfterPass, Pass;
    PassRuns(st, w, id, e);
    RunKeepsInv(st, Pass(w, id, e));
  }

  // ---- Loop steps -----------------------------------------------------------------------------

  ghost predicate Selecting(sessions: map<Id, Session>, now: int, left: set<Id>, batch: seq<Id>) {
    |batch| <= BATCH_LIMIT &&
    (forall i :: 0 <= i < |batch| ==> DueAt(sessions, now, batch[i]) && batch[i] !in left) &&
    (forall d :: d in left ==> DueAt(sessions, now, d)) &&
    (forall d :: DueAt(sessions, now, d) ==> d in left || d in batch) &&
    (forall i, j :: 0 <= i < j < |batch| ==> InOrder(sessions, batch[i], batch[j])) &&
    (forall i, d :: 0 <= i < |batch| && d in left ==> EndsBy(sessions, batch[i], d))
  }

  predicate EndsBy(sessions: map<Id, Session>, i: Id, j: Id) {
    i in sessions && j in sessions && sessions[i].expiresAt <= sessions[j].expiresAt
  }

  predicate InOrder(sessions: map<Id, Session>, i: Id, j: Id) {
    i != j && EndsBy(sessions, i, j)
  }

  lemma SelectNext(sessions: map<Id, Session>, now: int, left: set<Id>, batch: seq<Id>, id: Id)
    requires Selecting(sessions, now, left, batch) && id in left && |batch| < BATCH_LIMIT && left <= sessions.Keys
    requires forall j :: j in left ==> sessions[id].expiresAt <= sessions[j].expiresAt
    ensures Selecting(sessions, now, left - {id}, batch + [id])
  {
  }

  lemma BatchOf(st: State, ids: seq<Id>)
    requires IsBatch(st.sessions, st.now, ids)
    ensures Batch(st, ids) && forall i :: 0 <= i < |ids| ==> ids[i] in st.sessions
  {
  }

  lemma NothingTicked(st: State, me: Id, turns: map<Id, Turn>)
    ensures Ticked(st, me, [], turns) == st && SucceedIn(st, [], turns) == 0
  {
  }

  /** The next session of a batch is as it was when its turn comes, and its pass is the next of the tick. */
  lemma TickNext(st: State, me: Id, ids: seq<Id>, i: nat, turns: map<Id, Turn>)
    requires Inv(st) && Idle(st, me) && Batch(st, ids) && i < |ids|
    ensures var t, id := Ticked(st, me, ids[..i], turns), ids[i];
      var u := TurnOf(turns, id);
      && Ended(t, id) && id in Reached(t, id, u).sessions
      && Ticked(st, me, ids[..i + 1], turns) == Processed(t, me, id, u)
      && Idle(Processed(t, me, id, u), me)
      && SucceedIn(st, ids[..i + 1], turns) == SucceedIn(st, ids[..i], turns) +
        if u.ending == Commits || !Open(Reached(t, id, u).sessions[id]) then 1 else 0
  {
    hide Inv, RowFree, Idle, Entries, Processed, Reached;
    var t, id := Ticked(st, me, ids[..i], turns), ids[i];
    assert Due(st, id) && id !in ids[..i] && Batch(st, ids[..i]);
    TickSettles(st, me, ids[..i], turns, id);
    assert Due(t, id);
    ReachedLeaves(t, id, TurnOf(turns, id), me);
    ProcessedLeaves(t, me, id, TurnOf(turns, id));
    assert ids[..i + 1][..i] == ids[..i] && ids[..i + 1][i] == id;
  }
}
