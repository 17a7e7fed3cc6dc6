/** Support access to a tenant: approvals (internal/approval/service.go), proxy sessions
    (internal/adminproxy/service.go) and the workers that expire them
    (internal/adminproxy/expiry_worker.go), as interleaved transaction steps.

    A worker selects a batch, claims a row with an UPDATE that holds the row lock, writes the
    audit entry in a transaction of its own, and commits the claim.  The commit may still fail
    after the audit write; `lost` counts those.
  */
module AdminSessions {
  import opened Wrappers

  type Id = string

  datatype Status = Pending | Approved | Rejected

  datatype Approval = Approval(tenant: Id, forProxy: bool, status: Status)

  datatype Session = Session(tenant: Id, approval: Id, expiresAt: int, revokedAt: Option<int>, expiredAt: Option<int>)

  /** A `session_expired` entry and when it was written. */
  datatype Expiry = Expiry(session: Id, at: int)

  datatype Phase = Ready | Claimed(id: Id, since: int) | Audited(id: Id, since: int)

  datatype Worker = Worker(batch: seq<Id>, phase: Phase)

  datatype Error = MissingArgument | NotApproved | SessionRevoked | SessionExpired | NotPending | NotStored

  datatype Access = Access(id: Id, session: Session)

  /** What EnsureSession says of the row it read or inserted, by its own clock. */
  function Judge(id: Id, row: Session, clock: int): Result<Access, Error> {
    if row.revokedAt.Some? then Err(SessionRevoked)
    else if clock > row.expiresAt then Err(SessionExpired)
    else Ok(Access(id, row))
  }

  /** An EnsureSession call: past its approval check, then holding the row it read or inserted.
      `seen` counts the revokes committed before that. */
  datatype Call =
    | Cleared(tenant: Id, approval: Id)
    | Judging(tenant: Id, approval: Id, id: Id, row: Session, seen: nat)

  /** A call's answer, with what it was based on. */
  datatype Answer = Answer(tenant: Id, approval: Id, id: Id, row: Session, seen: nat, clock: int,
      outcome: Result<Access, Error>)

  datatype State = State(
    now: int, approvals: map<Id, Approval>, sessions: map<Id, Session>, calls: map<Id, Call>,
    workers: map<Id, Worker>, audit: seq<Expiry>, lost: seq<Id>, revokes: seq<Id>, answers: seq<Answer>)

  datatype Action =
    | Elapse(ticks: nat)
    | CreateRequest(id: Id, tenant: Id, forProxy: bool)
    | Resolve(id: Id, tenant: Id, status: Status)
    | SeeApproval(call: Id, tenant: Id, approval: Id)
    | ReadSession(call: Id, id: Id)
    | OpenSession(call: Id, id: Id, clock: int)
    | Return(call: Id, clock: int)
    | AbandonCall(call: Id)
    | Revoke(id: Id, tenant: Id)
    | Select(w: Id, batch: seq<Id>)
    | Claim(w: Id)
    | WriteAudit(w: Id)
    | AuditFails(w: Id)
    | CommitClaim(w: Id)
    | CommitFails(w: Id)

  /** Four hours, in seconds. */
  const SESSION_DURATION := 14400

  const EMPTY: State := State(0, map[], map[], map[], map[], [], [], [], [])

  // ---- Steps ----------------------------------------------------------------------------

  /** The id a worker's open transaction has locked. */
  predicate Holds(w: Worker, id: Id) {
    !w.phase.Ready? && w.phase.id == id
  }

  predicate RowFree(st: State, id: Id) {
    forall w :: w in st.workers ==> !Holds(st.workers[w], id)
  }

  /** `revoked_at IS NULL AND expired_at IS NULL`. */
  predicate Open(s: Session) {
    s.revokedAt.None? && s.expiredAt.None?
  }

  /** What the worker's query selects. */
  predicate Due(st: State, id: Id) {
    id in st.sessions && Open(st.sessions[id]) && st.sessions[id].expiresAt < st.now
  }

  /** No session was opened under this approval. */
  predicate Unopened(st: State, ap: Id) {
    forall s :: s in st.sessions ==> st.sessions[s].approval != ap
  }

  predicate Enabled(st: State, a: Action) {
    match a
    case Elapse(_) => true
    case CreateRequest(id, _, _) => id !in st.approvals
    case Resolve(id, tenant, status) =>
      id in st.approvals && st.approvals[id].tenant == tenant && st.approvals[id].status == Pending && status != Pending
    case SeeApproval(call, tenant, ap) =>
      call !in st.calls && ap in st.approvals && st.approvals[ap].tenant == tenant &&
      st.approvals[ap].forProxy && st.approvals[ap].status == Approved
    case ReadSession(call, id) =>
      call in st.calls && st.calls[call].Cleared? && id in st.sessions &&
      st.sessions[id].approval == st.calls[call].approval && st.sessions[id].tenant == st.calls[call].tenant
    case OpenSession(call, id, _) =>
      call in st.calls && st.calls[call].Cleared? && id !in st.sessions && Unopened(st, st.calls[call].approval)
    case Return(call, _) => call in st.calls && st.calls[call].Judging?
    case AbandonCall(call) => call in st.calls
    case Revoke(id, tenant) => id in st.sessions && st.sessions[id].tenant == tenant && RowFree(st, id)
    case Select(w, batch) =>
      (w in st.workers ==> st.workers[w] == Worker([], Ready)) && forall id :: id in batch ==> Due(st, id)
    case Claim(w) =>
      w in st.workers && st.workers[w].phase.Ready? && st.workers[w].batch != [] && RowFree(st, st.workers[w].batch[0])
    case WriteAudit(w) => w in st.workers && st.workers[w].phase.Claimed?
    case AuditFails(w) => w in st.workers && st.workers[w].phase.Claimed?
    case CommitClaim(w) => w in st.workers && st.workers[w].phase.Audited?
    case CommitFails(w) => w in st.workers && st.workers[w].phase.Audited?
  }

  function Put(st: State, w: Id, worker: Worker): State {
    st.(workers := st.workers[w := worker])
  }

  /** The claim is over, one way or the other; the worker goes on with its batch. */
  function Release(st: State, w: Id): State
    requires w in st.workers
  {
    Put(st, w, Worker(st.workers[w].batch, Ready))
  }

  function Apply(st: State, a: Action): State
    requires Enabled(st, a)
  {
    match a
    case Elapse(ticks) => st.(now := st.now + ticks)
    case CreateRequest(id, tenant, forProxy) =>
      st.(approvals := st.approvals[id := Approval(tenant, forProxy, Pending)])
    case Resolve(id, _, status) => st.(approvals := st.approvals[id := st.approvals[id].(status := status)])
    case SeeApproval(call, tenant, ap) => st.(calls := st.calls[call := Cleared(tenant, ap)])
    case ReadSession(call, id) =>
      var Cleared(tenant, ap) := st.calls[call];
      st.(calls := st.calls[call := Judging(tenant, ap, id, st.sessions[id], |st.revokes|)])
    case OpenSession(call, id, clock) =>
      var Cleared(tenant, ap) := st.calls[call];
      var row := Session(tenant, ap, clock + SESSION_DURATION, None, None);
      st.(sessions := st.sessions[id := row], calls := st.calls[call := Judging(tenant, ap, id, row, |st.revokes|)])
    case Return(call, clock) =>
      var Judging(tenant, ap, id, row, seen) := st.calls[call];
      st.(calls := st.calls - {call},
          answers := st.answers + [Answer(tenant, ap, id, row, seen, clock, Judge(id, row, clock))])
    case AbandonCall(call) => st.(calls := st.calls - {call})
    case Revoke(id, _) =>
      var s := st.sessions[id];
      if s.revokedAt.None?
      then st.(sessions := st.sessions[id := s.(revokedAt := Some(st.now))], revokes := st.revokes + [id])
      else st
    case Select(w, batch) => Put(st, w, Worker(batch, Ready))
    case Claim(w) =>
      var Worker(batch, _) := st.workers[w];
      if batch[0] in st.sessions && Open(st.sessions[batch[0]])
      then Put(st, w, Worker(batch[1..], Claimed(batch[0], st.now)))
      else Put(st, w, Worker(batch[1..], Ready))
    case WriteAudit(w) =>
      var Worker(batch, Claimed(id, since)) := st.workers[w];
      Put(st, w, Worker(batch, Audited(id, since))).(audit := st.audit + [Expiry(id, st.now)])
    case AuditFails(w) => Release(st, w)
    case CommitClaim(w) =>
      var Audited(id, since) := st.workers[w].phase;
      if id in st.sessions
      then Release(st, w).(sessions := st.sessions[id := st.sessions[id].(expiredAt := Some(since))])
      else Release(st, w)
    case CommitFails(w) => Release(st, w).(lost := st.lost + [st.workers[w].phase.id])
  }

  // ---- Counting -------------------------------------------------------------------------

  function Entries(audit: seq<Expiry>, id: Id): nat {
    if audit == [] then 0 else Entries(audit[..|audit| - 1], id) + (if audit[|audit| - 1].session == id then 1 else 0)
  }

  function Losses(lost: seq<Id>, id: Id): nat {
    if lost == [] then 0 else Losses(lost[..|lost| - 1], id) + (if lost[|lost| - 1] == id then 1 else 0)
  }

  lemma CountSnoc(audit: seq<Expiry>, e: Expiry, lost: seq<Id>, l: Id, id: Id)
    ensures Entries(audit + [e], id) == Entries(audit, id) + (if e.session == id then 1 else 0)
    ensures Losses(lost + [l], id) == Losses(lost, id) + (if l == id then 1 else 0)
  {
    assert (audit + [e])[..|audit|] == audit && (lost + [l])[..|lost|] == lost;
  }

  // ---- Invariant ------------------------------------------------------------------------

  predicate AuditedOn(w: Worker, id: Id) {
    w.phase.Audited? && w.phase.id == id
  }

  ghost predicate InFlight(st: State, id: Id) {
    exists w :: w in st.workers && AuditedOn(st.workers[w], id)
  }

  /** The entries a session should have: one for its committed expiry, one for a transaction now
      between audit write and commit, and one for each commit lost after the audit write. */
  ghost function Expected(st: State, id: Id): nat {
    (if id in st.sessions && st.sessions[id].expiredAt.Some? then 1 else 0) +
    (if InFlight(st, id) then 1 else 0) + Losses(st.lost, id)
  }

  ghost predicate Accounted(st: State) {
    forall id :: Entries(st.audit, id) == Expected(st, id)
  }

  /** A claimed session is open and past its end. */
  ghost predicate ClaimsDue(st: State) {
    forall w :: w in st.workers && !st.workers[w].phase.Ready? ==> Due(st, st.workers[w].phase.id)
  }

  /** No two workers hold one row. */
  ghost predicate Exclusive(st: State) {
    forall v, w | v in st.workers && w in st.workers && !st.workers[v].phase.Ready? ::
      Holds(st.workers[w], st.workers[v].phase.id) ==> v == w
  }

  ghost predicate Ended(st: State, id: Id) {
    id in st.sessions && st.sessions[id].expiresAt < st.now
  }

  ghost predicate BatchEnded(st: State, batch: seq<Id>) {
    forall i :: 0 <= i < |batch| ==> Ended(st, batch[i])
  }

  ghost predicate BatchesEnded(st: State) {
    forall w :: w in st.workers ==> BatchEnded(st, st.workers[w].batch)
  }

  ghost predicate EntrySound(st: State, e: Expiry) {
    e.session in st.sessions && st.sessions[e.session].expiresAt < e.at <= st.now
  }

  ghost predicate EntriesSound(st: State) {
    forall i :: 0 <= i < |st.audit| ==> EntrySound(st, st.audit[i])
  }

  ghost predicate IsApproved(st: State, tenant: Id, ap: Id) {
    ap in st.approvals && st.approvals[ap] == Approval(tenant, true, Approved)
  }

  ghost predicate Gated(st: State) {
    (forall id :: id in st.sessions ==> IsApproved(st, st.sessions[id].tenant, st.sessions[id].approval)) &&
    OnePerApproval(st)
  }

  ghost predicate OnePerApproval(st: State) {
    forall i, j :: i in st.sessions && j in st.sessions && st.sessions[i].approval == st.sessions[j].approval ==> i == j
  }

  /** The log of revokes is the revoked sessions. */
  ghost predicate RevokesKnown(st: State) {
    (forall id :: id in st.sessions && st.sessions[id].revokedAt.Some? ==> id in st.revokes) &&
    forall i :: 0 <= i < |st.revokes| ==> st.revokes[i] in st.sessions && st.sessions[st.revokes[i]].revokedAt.Some?
  }

  /** A row read after `seen` revokes: of that session, under an approved request, and revoked
      exactly when one of those revokes was its own. */
  ghost predicate Trusted(st: State, tenant: Id, ap: Id, id: Id, row: Session, seen: nat) {
    id in st.sessions && IsApproved(st, tenant, ap) &&
    row.tenant == tenant && row.approval == ap && row.expiresAt == st.sessions[id].expiresAt &&
    st.sessions[id].tenant == tenant && st.sessions[id].approval == ap &&
    seen <= |st.revokes| && (row.revokedAt.Some? <==> id in st.revokes[..seen])
  }

  ghost predicate CallSound(st: State, c: Call) {
    match c
    case Cleared(tenant, ap) => IsApproved(st, tenant, ap)
    case Judging(tenant, ap, id, row, seen) => Trusted(st, tenant, ap, id, row, seen)
  }

  ghost predicate CallsSound(st: State) {
    forall c :: c in st.calls ==> CallSound(st, st.calls[c])
  }

  ghost predicate AnswerSound(st: State, a: Answer) {
    Trusted(st, a.tenant, a.approval, a.id, a.row, a.seen) && a.outcome == Judge(a.id, a.row, a.clock)
  }

  ghost predicate AnswersSound(st: State) {
    forall i :: 0 <= i < |st.answers| ==> AnswerSound(st, st.answers[i])
  }

  ghost predicate Served(st: State) {
    RevokesKnown(st) && CallsSound(st) && AnswersSound(st)
  }

  ghost predicate Inv(st: State) {
    Accounted(st) && ClaimsDue(st) && Exclusive(st) && BatchesEnded(st) && EntriesSound(st) && Gated(st) && Served(st)
  }

  // ---- What a step leaves alone ---------------------------------------------------------

  predicate OnWorkers(a: Action) {
    a.Select? || a.Claim? || a.WriteAudit? || a.AuditFails? || a.CommitClaim? || a.CommitFails?
  }

  predicate OnSessions(a: Action) {
    a.OpenSession? || a.Revoke? || a.CommitClaim?
  }

  lemma Frame(st: State, a: Action)
    requires Enabled(st, a)
    ensures !OnWorkers(a) ==> Apply(st, a).workers == st.workers
    ensures !OnSessions(a) ==> Apply(st, a).sessions == st.sessions
    ensures !a.CreateRequest? && !a.Resolve? ==> Apply(st, a).approvals == st.approvals
    ensures !a.Revoke? ==> Apply(st, a).revokes == st.revokes
    ensures st.now <= Apply(st, a).now
  {
    hide RowFree, Due, Judge, Unopened;
  }

  // ---- Preservation ---------------------------------------------------------------------

  /** Only a pending request can be resolved, so an approved one is approved for good. */
  lemma StepKeepsApproved(st: State, a: Action, tenant: Id, ap: Id)
    requires Enabled(st, a) && IsApproved(st, tenant, ap)
    ensures IsApproved(Apply(st, a), tenant, ap)
  {
    hide RowFree, Due;
  }

  lemma StepKeepsGated(st: State, a: Action)
    requires Gated(st) && CallsSound(st) && Enabled(st, a)
    ensures Gated(Apply(st, a))
  {
    hide IsApproved, Judge, Apply, Enabled;
    Frame(st, a);
    var t := Apply(st, a);
    forall id | id in t.sessions ensures IsApproved(t, t.sessions[id].tenant, t.sessions[id].approval) {
      if OnSessions(a) {
        SessionsGated(st, a, id);
      }
      StepKeepsApproved(st, a, t.sessions[id].tenant, t.sessions[id].approval);
    }
    if OnSessions(a) {
      SessionsApart(st, a);
    }
  }

  lemma SessionsGated(st: State, a: Action, id: Id)
    requires Gated(st) && CallsSound(st) && Enabled(st, a) && OnSessions(a) && id in Apply(st, a).sessions
    ensures IsApproved(st, Apply(st, a).sessions[id].tenant, Apply(st, a).sessions[id].approval)
  {
    hide RowFree, Due, IsApproved, Judge;
    if a.OpenSession? && id == a.id {
      assert CallSound(st, st.calls[a.call]);
    }
  }

  lemma SessionsApart(st: State, a: Action)
    requires Gated(st) && Enabled(st, a) && OnSessions(a)
    ensures OnePerApproval(Apply(st, a))
  {
    hide RowFree, Due, IsApproved, Judge;
  }

  lemma StepKeepsRevokes(st: State, a: Action)
    requires RevokesKnown(st) && Enabled(st, a)
    ensures RevokesKnown(Apply(st, a)) && st.revokes <= Apply(st, a).revokes
  {
    hide Apply, Enabled;
    Frame(st, a);
    if OnSessions(a) {
      SessionsKeepRevokes(st, a);
    }
  }

  lemma SessionsKeepRevokes(st: State, a: Action)
    requires RevokesKnown(st) && Enabled(st, a) && OnSessions(a)
    ensures RevokesKnown(Apply(st, a)) && st.revokes <= Apply(st, a).revokes
  {
    hide RowFree, Due, Judge, Unopened;
  }

  lemma StepKeepsTrusted(st: State, a: Action, tenant: Id, ap: Id, id: Id, row: Session, seen: nat)
    requires RevokesKnown(st) && Enabled(st, a) && Trusted(st, tenant, ap, id, row, seen)
    ensures Trusted(Apply(st, a), tenant, ap, id, row, seen)
  {
    hide Enabled, Apply, IsApproved, RevokesKnown;
    StepKeepsRevokes(st, a);
    StepKeepsApproved(st, a, tenant, ap);
    StepKeepsRow(st, a, id);
    assert Apply(st, a).revokes[..seen] == st.revokes[..seen];
  }

  lemma StepKeepsCall(st: State, a: Action, c: Call)
    requires RevokesKnown(st) && Enabled(st, a) && CallSound(st, c)
    ensures CallSound(Apply(st, a), c)
  {
    hide Enabled, Apply, IsApproved, RevokesKnown, Trusted;
    if c.Cleared? {
      StepKeepsApproved(st, a, c.tenant, c.approval);
    } else {
      StepKeepsTrusted(st, a, c.tenant, c.approval, c.id, c.row, c.seen);
    }
  }

  /** The row a call has just read or inserted. */
  lemma FreshRead(st: State, a: Action)
    requires Inv(st) && Enabled(st, a) && (a.ReadSession? || a.OpenSession?)
    ensures CallSound(Apply(st, a), Apply(st, a).calls[a.call])
  {
    hide Accounted, ClaimsDue, Exclusive, BatchesEnded, EntriesSound, Gated, RowFree, Due, Judge, IsApproved, Unopened;
    assert CallSound(st, st.calls[a.call]);
    StepKeepsApproved(st, a, st.calls[a.call].tenant, st.calls[a.call].approval);
    assert st.revokes[..|st.revokes|] == st.revokes;
  }

  lemma StepKeepsCalls(st: State, a: Action)
    requires Inv(st) && Enabled(st, a)
    ensures CallsSound(Apply(st, a))
  {
    hide Accounted, ClaimsDue, Exclusive, BatchesEnded, EntriesSound, Gated, CallSound, RevokesKnown;
    var t := Apply(st, a);
    forall c | c in t.calls ensures CallSound(t, t.calls[c]) {
      if (a.ReadSession? || a.OpenSession?) && c == a.call {
        FreshRead(st, a);
      } else {
        if a.SeeApproval? && c == a.call {
          ClearedIsSound(st, a);
        } else {
          OtherCalls(st, a, c);
        }
        StepKeepsCall(st, a, t.calls[c]);
      }
    }
  }

  lemma ClearedIsSound(st: State, a: Action)
    requires a.SeeApproval? && Enabled(st, a)
    ensures CallSound(st, Apply(st, a).calls[a.call])
  {
  }

  lemma OtherCalls(st: State, a: Action, c: Id)
    requires CallsSound(st) && Enabled(st, a) && c in Apply(st, a).calls
    requires a.SeeApproval? || a.ReadSession? || a.OpenSession? ==> c != a.call
    ensures c in st.calls && Apply(st, a).calls[c] == st.calls[c] && CallSound(st, st.calls[c])
  {
    hide CallSound, RowFree, Due, Judge, Unopened;
  }

  lemma StepKeepsAnswers(st: State, a: Action)
    requires Served(st) && Enabled(st, a)
    ensures AnswersSound(Apply(st, a))
  {
    hide RevokesKnown, Trusted, RowFree, Due, Judge, Unopened;
    var t := Apply(st, a);
    forall i | 0 <= i < |t.answers| ensures AnswerSound(t, t.answers[i]) {
      var x := t.answers[i];
      if i < |st.answers| {
        assert AnswerSound(st, st.answers[i]);
      } else {
        assert CallSound(st, st.calls[a.call]);
      }
      StepKeepsTrusted(st, a, x.tenant, x.approval, x.id, x.row, x.seen);
    }
  }

  lemma StepKeepsServed(st: State, a: Action)
    requires Inv(st) && Enabled(st, a)
    ensures Served(Apply(st, a))
  {
    hide Accounted, ClaimsDue, Exclusive, BatchesEnded, EntriesSound, Gated;
    hide CallsSound, RevokesKnown, AnswersSound, Enabled, Apply;
    StepKeepsRevokes(st, a);
    StepKeepsCalls(st, a);
    StepKeepsAnswers(st, a);
  }

  lemma StepKeepsEnded(st: State, a: Action, id: Id)
    requires Enabled(st, a) && Ended(st, id)
    ensures Ended(Apply(st, a), id)
    ensures st.sessions[id].expiresAt == Apply(st, a).sessions[id].expiresAt
  {
    hide Apply, Enabled;
    Frame(st, a);
    StepKeepsRow(st, a, id);
  }

  lemma StepKeepsBatches(st: State, a: Action)
    requires BatchesEnded(st) && Enabled(st, a)
    ensures BatchesEnded(Apply(st, a))
  {
    hide Apply, Enabled, Ended;
    Frame(st, a);
    var t := Apply(st, a);
    forall w | w in t.workers ensures BatchEnded(t, t.workers[w].batch) {
      var batch := t.workers[w].batch;
      if OnWorkers(a) {
        WorkersBatch(st, a, w);
      }
      forall i | 0 <= i < |batch| ensures Ended(t, batch[i]) {
        StepKeepsEnded(st, a, batch[i]);
      }
    }
  }

  lemma WorkersBatch(st: State, a: Action, w: Id)
    requires BatchesEnded(st) && Enabled(st, a) && OnWorkers(a) && w in Apply(st, a).workers
    ensures BatchEnded(st, Apply(st, a).workers[w].batch)
  {
    hide RowFree;
    var batch := Apply(st, a).workers[w].batch;
    forall i | 0 <= i < |batch| ensures Ended(st, batch[i]) {
      if a.Select? && w == a.w {
        assert Due(st, batch[i]);
      } else {
        assert BatchEnded(st, st.workers[w].batch);
        assert batch == st.workers[w].batch || batch[i] == st.workers[w].batch[i + 1];
      }
    }
  }

  lemma StepKeepsClaims(st: State, a: Action)
    requires ClaimsDue(st) && Exclusive(st) && BatchesEnded(st) && Enabled(st, a)
    ensures ClaimsDue(Apply(st, a)) && Exclusive(Apply(st, a))
  {
    hide Apply, Enabled, Due;
    if OnWorkers(a) {
      WorkersKeepClaims(st, a);
      WorkersKeepExclusive(st, a);
    } else {
      Frame(st, a);
      var t := Apply(st, a);
      forall w | w in t.workers && !t.workers[w].phase.Ready? ensures Due(t, t.workers[w].phase.id) {
        OthersKeepDue(st, a, w);
      }
    }
  }

  lemma WorkersKeepClaims(st: State, a: Action)
    requires ClaimsDue(st) && Exclusive(st) && BatchesEnded(st) && Enabled(st, a) && OnWorkers(a)
    ensures ClaimsDue(Apply(st, a))
  {
    if a.Claim? {
      assert BatchEnded(st, st.workers[a.w].batch);
    }
  }

  lemma WorkersKeepExclusive(st: State, a: Action)
    requires Exclusive(st) && Enabled(st, a) && OnWorkers(a)
    ensures Exclusive(Apply(st, a))
  {
    hide Due;
  }

  lemma OthersKeepDue(st: State, a: Action, w: Id)
    requires ClaimsDue(st) && Enabled(st, a) && !OnWorkers(a) && w in st.workers && !st.workers[w].phase.Ready?
    ensures Due(Apply(st, a), st.workers[w].phase.id)
  {
    hide Judge, Unopened;
  }

  lemma StepKeepsEntries(st: State, a: Action)
    requires ClaimsDue(st) && EntriesSound(st) && Enabled(st, a)
    ensures EntriesSound(Apply(st, a))
  {
    var t := Apply(st, a);
    forall i | 0 <= i < |t.audit| ensures EntrySound(t, t.audit[i]) {
      if i < |st.audit| {
        assert EntrySound(st, st.audit[i]);
        StepKeepsEnded(st, a, st.audit[i].session);
      }
    }
  }

  /** Moving one worker changes what is in flight by that worker's part only. */
  lemma InFlightAfter(st: State, t: State, w: Id, id: Id)
    requires Exclusive(st) && w in t.workers && t.workers == st.workers[w := t.workers[w]]
    requires w in st.workers && Holds(st.workers[w], id)
    ensures InFlight(st, id) <==> AuditedOn(st.workers[w], id)
    ensures InFlight(t, id) <==> AuditedOn(t.workers[w], id)
  {
  }

  lemma InFlightElsewhere(st: State, t: State, w: Id, id: Id)
    requires w in t.workers && t.workers == st.workers[w := t.workers[w]]
    requires w in st.workers ==> !AuditedOn(st.workers[w], id)
    requires !AuditedOn(t.workers[w], id)
    ensures InFlight(t, id) <==> InFlight(st, id)
  {
    assert forall v :: v in st.workers && v != w ==> v in t.workers && t.workers[v] == st.workers[v];
  }

  /** The two ends of the window between audit write and commit. */
  lemma WindowKeepsAccount(st: State, a: Action, id: Id)
    requires ClaimsDue(st) && Exclusive(st) && Enabled(st, a)
    requires a.WriteAudit? || a.CommitClaim? || a.CommitFails?
    requires Entries(st.audit, id) == Expected(st, id)
    ensures Entries(Apply(st, a).audit, id) == Expected(Apply(st, a), id)
  {
    hide InFlight, RowFree, Entries, Losses;
    var t := Apply(st, a);
    var row := st.workers[a.w].phase.id;
    CountSnoc(st.audit, Expiry(row, st.now), st.lost, row, id);
    if id == row {
      InFlightAfter(st, t, a.w, id);
    } else {
      InFlightElsewhere(st, t, a.w, id);
    }
  }

  lemma StepKeepsAccount(st: State, a: Action, id: Id)
    requires ClaimsDue(st) && Exclusive(st) && Enabled(st, a)
    requires Entries(st.audit, id) == Expected(st, id)
    ensures Entries(Apply(st, a).audit, id) == Expected(Apply(st, a), id)
  {
    hide Apply, Enabled, Entries, Losses, ClaimsDue, Exclusive, Due;
    if a.WriteAudit? || a.CommitClaim? || a.CommitFails? {
      WindowKeepsAccount(st, a, id);
    } else if OnWorkers(a) {
      OutsideKeepsAccount(st, a, id);
    } else {
      Frame(st, a);
      OthersKeepAccount(st, a, id);
    }
  }

  lemma OutsideKeepsAccount(st: State, a: Action, id: Id)
    requires Enabled(st, a) && (a.Select? || a.Claim? || a.AuditFails?) && Entries(st.audit, id) == Expected(st, id)
    ensures Entries(Apply(st, a).audit, id) == Expected(Apply(st, a), id)
  {
    hide RowFree, Entries, Losses, Due, InFlight;
    InFlightElsewhere(st, Apply(st, a), a.w, id);
  }

  lemma OthersKeepAccount(st: State, a: Action, id: Id)
    requires Enabled(st, a) && !OnWorkers(a) && Entries(st.audit, id) == Expected(st, id)
    requires Apply(st, a).workers == st.workers
    ensures Entries(Apply(st, a).audit, id) == Expected(Apply(st, a), id)
  {
    hide RowFree, Entries, Losses, Due, Judge, Unopened;
  }

  lemma StepKeepsAccounts(st: State, a: Action)
    requires ClaimsDue(st) && Exclusive(st) && Accounted(st) && Enabled(st, a)
    ensures Accounted(Apply(st, a))
  {
    forall id ensures Entries(Apply(st, a).audit, id) == Expected(Apply(st, a), id) {
      StepKeepsAccount(st, a, id);
    }
  }

  lemma StepKeepsInv(st: State, a: Action)
    requires Inv(st) && Enabled(st, a)
    ensures Inv(Apply(st, a))
  {
    hide Accounted, ClaimsDue, Exclusive, BatchesEnded, EntriesSound, Gated;
    hide CallsSound, RevokesKnown, AnswersSound, Enabled, Apply;
    StepKeepsGated(st, a);
    StepKeepsBatches(st, a);
    StepKeepsClaims(st, a);
    StepKeepsEntries(st, a);
    StepKeepsAccounts(st, a);
    StepKeepsServed(st, a);
  }

  // ---- Runs -----------------------------------------------------------------------------

  predicate IsRun(st: State, acts: seq<Action>)
    decreases |acts|
  {
    acts == [] || (Enabled(st, acts[0]) && IsRun(Apply(st, acts[0]), acts[1..]))
  }

  function Final(st: State, acts: seq<Action>): State
    requires IsRun(st, acts)
    decreases |acts|
  {
    if acts == [] then st else Final(Apply(st, acts[0]), acts[1..])
  }

  lemma {:induction false} RunKeepsInv(st: State, acts: seq<Action>)
    requires Inv(st) && IsRun(st, acts)
    ensures Inv(Final(st, acts))
    decreases |acts|
  {
    hide Inv, Enabled, Apply;
    if acts != [] {
      StepKeepsInv(st, acts[0]);
      RunKeepsInv(Apply(st, acts[0]), acts[1..]);
    }
  }

  /** How often a commit on the session is lost after its audit write, over a run. */
  function LostCommits(st: State, acts: seq<Action>, id: Id): nat
    requires IsRun(st, acts)
    decreases |acts|
  {
    if acts == [] then 0
    else
      var lost := acts[0].CommitFails? && st.workers[acts[0].w].phase.id == id;
      (if lost then 1 else 0) + LostCommits(Apply(st, acts[0]), acts[1..], id)
  }

  lemma {:induction false} LossesAreLostCommits(st: State, acts: seq<Action>, id: Id)
    requires IsRun(st, acts)
    ensures Losses(Final(st, acts).lost, id) == Losses(st.lost, id) + LostCommits(st, acts, id)
    decreases |acts|
  {
    hide Losses, RowFree, Due, Judge, Unopened;
    if acts != [] {
      if acts[0].CommitFails? {
        CountSnoc([], Expiry("", 0), st.lost, st.workers[acts[0].w].phase.id, id);
      }
      LossesAreLostCommits(Apply(st, acts[0]), acts[1..], id);
    }
  }

  /** In every interleaving a session's entries are its committed expiry, the transaction between
      audit write and commit, and its lost commits: at most one besides the lost commits.  Each was
      written after the session's end. */
  lemma EntriesOfRun(acts: seq<Action>, id: Id)
    requires IsRun(EMPTY, acts)
    ensures var st := Final(EMPTY, acts);
      && Entries(st.audit, id) == Expected(st, id) <= 1 + LostCommits(EMPTY, acts, id)
      && EntriesSound(st)
  {
    hide IsRun, Final, Gated, Served, EntriesSound, BatchesEnded, Exclusive, Losses, LostCommits;
    EmptyInv();
    RunKeepsInv(EMPTY, acts);
    LossesAreLostCommits(EMPTY, acts, id);
    NoLosses(id);
    if InFlight(Final(EMPTY, acts), id) {
      OpenOrExpired(Final(EMPTY, acts), id);
    }
  }

  lemma NoLosses(id: Id)
    ensures Losses([], id) == 0
  {
  }

  /** An expired row cannot also be in flight. */
  lemma OpenOrExpired(st: State, id: Id)
    requires ClaimsDue(st) && InFlight(st, id)
    ensures id in st.sessions && st.sessions[id].expiredAt.None?
  {
  }

  /** So a session none of whose commits is lost has at most one entry. */
  lemma AtMostOneEntry(acts: seq<Action>, id: Id)
    requires IsRun(EMPTY, acts) && LostCommits(EMPTY, acts, id) == 0
    ensures Entries(Final(EMPTY, acts).audit, id) <= 1
  {
    hide IsRun, Final, LostCommits;
    EntriesOfRun(acts, id);
  }

  lemma EmptyInv()
    ensures Inv(EMPTY)
  {
  }

  // ---- Answers --------------------------------------------------------------------------

  /** In every interleaving, an access granted is to a session under an approved request of its
      tenant, read when no revoke of it had committed, and judged by a clock not past its end; and a
      call that read the session after a revoke of it committed is refused. */
  lemma EveryAnswerIsSound(acts: seq<Action>, i: nat)
    requires IsRun(EMPTY, acts) && i < |Final(EMPTY, acts).answers|
    ensures var st := Final(EMPTY, acts);
      var a := st.answers[i];
      && a.id in st.sessions && IsApproved(st, a.tenant, a.approval)
      && st.sessions[a.id].tenant == a.tenant && st.sessions[a.id].approval == a.approval && a.seen <= |st.revokes|
      && (a.outcome.Ok? <==> a.id !in st.revokes[..a.seen] && a.clock <= st.sessions[a.id].expiresAt)
      && (a.outcome == Err(SessionRevoked) <==> a.id in st.revokes[..a.seen])
  {
    hide IsRun, Final, Accounted, ClaimsDue, Exclusive, BatchesEnded, EntriesSound, Gated;
    hide CallsSound, RevokesKnown, IsApproved;
    EmptyInv();
    RunKeepsInv(EMPTY, acts);
    var st := Final(EMPTY, acts);
    assert AnswerSound(st, st.answers[i]);
  }

  /** A row never leaves the table, and its tenant, approval and end never change. */
  ghost predicate SameRow(st: State, t: State, id: Id) {
    id in st.sessions && id in t.sessions && t.sessions[id].tenant == st.sessions[id].tenant &&
    t.sessions[id].approval == st.sessions[id].approval && t.sessions[id].expiresAt == st.sessions[id].expiresAt
  }

  lemma StepKeepsRow(st: State, a: Action, id: Id)
    requires Enabled(st, a) && id in st.sessions
    ensures SameRow(st, Apply(st, a), id)
  {
    hide RowFree, Due;
  }

  /** At every reachable state, each session's approval is approved, and it stays approved however
      the run goes on. */
  lemma {:induction false} ApprovedForGood(st: State, acts: seq<Action>, id: Id)
    requires Inv(st) && IsRun(st, acts) && id in st.sessions
    ensures SameRow(st, Final(st, acts), id)
    ensures IsApproved(st, st.sessions[id].tenant, st.sessions[id].approval)
    ensures IsApproved(Final(st, acts), st.sessions[id].tenant, st.sessions[id].approval)
    decreases |acts|
  {
    hide Accounted, ClaimsDue, Exclusive, BatchesEnded, EntriesSound, IsApproved, Enabled, Apply, Served;
    if acts != [] {
      StepKeepsInv(st, acts[0]);
      StepKeepsRow(st, acts[0], id);
      ApprovedForGood(Apply(st, acts[0]), acts[1..], id);
    }
  }

  ghost predicate RevokedUnexpired(st: State, id: Id) {
    id in st.sessions && st.sessions[id].revokedAt.Some? && st.sessions[id].expiredAt.None?
  }

  lemma StepKeepsSilent(st: State, a: Action, id: Id)
    requires ClaimsDue(st) && Enabled(st, a) && RevokedUnexpired(st, id)
    ensures RevokedUnexpired(Apply(st, a), id)
    ensures Apply(st, a).sessions[id] == st.sessions[id]
    ensures Entries(Apply(st, a).audit, id) == Entries(st.audit, id)
  {
    hide RowFree, Entries, Losses;
    if a.WriteAudit? {
      CountSnoc(st.audit, Expiry(st.workers[a.w].phase.id, st.now), [], "", id);
    }
  }

  /** Once a session is revoked before being expired, no run ever adds an entry for it or marks
      it expired. */
  lemma {:induction false} RevokedStaysSilent(st: State, acts: seq<Action>, id: Id)
    requires Inv(st) && IsRun(st, acts) && RevokedUnexpired(st, id)
    ensures RevokedUnexpired(Final(st, acts), id) && Final(st, acts).sessions[id] == st.sessions[id]
    ensures Entries(Final(st, acts).audit, id) == Entries(st.audit, id)
    decreases |acts|
  {
    hide Accounted, ClaimsDue, Exclusive, BatchesEnded, EntriesSound, Gated, Enabled, Apply, Entries;
    if acts != [] {
      StepKeepsInv(st, acts[0]);
      StepKeepsSilent(st, acts[0], id);
      RevokedStaysSilent(Apply(st, acts[0]), acts[1..], id);
    }
  }

  /** Revoking a session no worker holds leaves its committed entries final: one if it had already
      been expired, plus one per lost commit. */
  lemma RevokeFreezes(st: State, tenant: Id, id: Id, acts: seq<Action>)
    requires Inv(st) && Enabled(st, Revoke(id, tenant)) && st.sessions[id].expiredAt.None?
    requires IsRun(Apply(st, Revoke(id, tenant)), acts)
    ensures Entries(Final(Apply(st, Revoke(id, tenant)), acts).audit, id) == Losses(st.lost, id)
  {
    hide BatchesEnded, EntriesSound, Gated, Entries, Losses, IsRun, Final;
    var t := Apply(st, Revoke(id, tenant));
    StepKeepsInv(st, Revoke(id, tenant));
    RevokedStaysSilent(t, acts, id);
    assert Entries(st.audit, id) == Expected(st, id);
    assert !InFlight(st, id);
  }

  // ---- Passes --------------------------------------------------------------------

  lemma {:induction false} RunConcat(st: State, first: seq<Action>, second: seq<Action>)
    requires IsRun(st, first) && IsRun(Final(st, first), second)
    ensures IsRun(st, first + second) && Final(st, first + second) == Final(Final(st, first), second)
    decreases |first|
  {
    hide Enabled, Apply;
    if first == [] {
      assert first + second == second;
    } else {
      assert (first + second)[1..] == first[1..] + second;
      RunConcat(Apply(st, first[0]), first[1..], second);
    }
  }

  /** How a worker's pass over a session ends once the row is claimed. */
  datatype Ending = Commits | LosesCommit | LosesAudit

  function Ends(w: Id, e: Ending): seq<Action> {
    match e
    case Commits => [WriteAudit(w), CommitClaim(w)]
    case LosesCommit => [WriteAudit(w), CommitFails(w)]
    case LosesAudit => [AuditFails(w)]
  }

  /** One worker's whole pass over one session. */
  function Pass(w: Id, id: Id, e: Ending): seq<Action> {
    [Select(w, [id]), Claim(w)] + Ends(w, e)
  }

  predicate Idle(st: State, w: Id) {
    w in st.workers ==> st.workers[w] == Worker([], Ready)
  }

  /** What that pass leaves behind. */
  function AfterPass(st: State, w: Id, id: Id, e: Ending): State
    requires id in st.sessions
  {
    var t := Put(st, w, Worker([], Ready));
    match e
    case Commits =>
      t.(audit := st.audit + [Expiry(id, st.now)],
         sessions := st.sessions[id := st.sessions[id].(expiredAt := Some(st.now))])
    case LosesCommit => t.(audit := st.audit + [Expiry(id, st.now)], lost := st.lost + [id])
    case LosesAudit => t
  }

  lemma OneStep(st: State, a: Action)
    requires Enabled(st, a)
    ensures IsRun(st, [a]) && Final(st, [a]) == Apply(st, a)
  {
    hide Enabled, Apply;
    assert [a][1..] == [] && IsRun(Apply(st, a), []);
  }

  lemma TwoSteps(st: State, a: Action, b: Action)
    requires Enabled(st, a) && Enabled(Apply(st, a), b)
    ensures IsRun(st, [a, b]) && Final(st, [a, b]) == Apply(Apply(st, a), b)
  {
    hide Enabled, Apply;
    OneStep(Apply(st, a), b);
    assert [a, b][1..] == [b];
  }

  lemma PassClaims(st: State, w: Id, id: Id)
    requires Due(st, id) && RowFree(st, id) && Idle(st, w)
    ensures IsRun(st, [Select(w, [id]), Claim(w)])
    ensures Final(st, [Select(w, [id]), Claim(w)]) == Put(st, w, Worker([], Claimed(id, st.now)))
  {
    hide IsRun, Final, Judge, Unopened;
    var mid := Apply(st, Select(w, [id]));
    assert RowFree(mid, id);
    TwoSteps(st, Select(w, [id]), Claim(w));
    assert [id][1..] == [];
    PutAgain(st, w, Worker([id], Ready), Worker([], Claimed(id, st.now)));
  }

  lemma PutAgain(st: State, w: Id, x: Worker, y: Worker)
    ensures Put(Put(st, w, x), w, y) == Put(st, w, y)
  {
    assert st.workers[w := x][w := y] == st.workers[w := y];
  }

  lemma PassEnds(st: State, w: Id, id: Id, e: Ending)
    requires id in st.sessions
    ensures var mid := Put(st, w, Worker([], Claimed(id, st.now)));
      IsRun(mid, Ends(w, e)) && Final(mid, Ends(w, e)) == AfterPass(st, w, id, e)
  {
    hide IsRun, Final, Apply, Enabled, Put;
    var mid := Put(st, w, Worker([], Claimed(id, st.now)));
    if e == LosesAudit {
      LosingAudit(st, w, id);
      OneStep(mid, AuditFails(w));
    } else {
      WritingAudit(st, w, id);
      EndingWindow(st, w, id);
      TwoSteps(mid, WriteAudit(w), if e == Commits then CommitClaim(w) else CommitFails(w));
    }
  }

  lemma LosingAudit(st: State, w: Id, id: Id)
    ensures var mid := Put(st, w, Worker([], Claimed(id, st.now)));
      Enabled(mid, AuditFails(w)) && Apply(mid, AuditFails(w)) == Put(st, w, Worker([], Ready))
  {
    PutAgain(st, w, Worker([], Claimed(id, st.now)), Worker([], Ready));
  }

  /** The state between audit write and commit. */
  function Window(st: State, w: Id, id: Id): State {
    Put(st, w, Worker([], Audited(id, st.now))).(audit := st.audit + [Expiry(id, st.now)])
  }

  lemma WritingAudit(st: State, w: Id, id: Id)
    ensures var mid := Put(st, w, Worker([], Claimed(id, st.now)));
      Enabled(mid, WriteAudit(w)) && Apply(mid, WriteAudit(w)) == Window(st, w, id)
  {
    PutAgain(st, w, Worker([], Claimed(id, st.now)), Worker([], Audited(id, st.now)));
  }

  lemma EndingWindow(st: State, w: Id, id: Id)
    requires id in st.sessions
    ensures var t := Window(st, w, id);
      && Enabled(t, CommitClaim(w)) && Apply(t, CommitClaim(w)) == AfterPass(st, w, id, Commits)
      && Enabled(t, CommitFails(w)) && Apply(t, CommitFails(w)) == AfterPass(st, w, id, LosesCommit)
  {
    PutAgain(st, w, Worker([], Audited(id, st.now)), Worker([], Ready));
  }

  /** A pass is a run of the protocol, whoever else is in the middle of what. */
  lemma PassRuns(st: State, w: Id, id: Id, e: Ending)
    requires Due(st, id) && RowFree(st, id) && Idle(st, w)
    ensures IsRun(st, Pass(w, id, e)) && Final(st, Pass(w, id, e)) == AfterPass(st, w, id, e)
  {
    hide IsRun, Final, RowFree, Ends, AfterPass;
    PassClaims(st, w, id);
    PassEnds(st, w, id, e);
    RunConcat(st, [Select(w, [id]), Claim(w)], Ends(w, e));
  }

  /** With a commit lost after the audit write the guarantee fails, on every due session: the next
      pass writes a second entry. */
  lemma LostCommitDuplicates(st: State, w: Id, id: Id)
    requires Due(st, id) && RowFree(st, id) && Idle(st, w)
    ensures var acts := Pass(w, id, LosesCommit) + Pass(w, id, Commits);
      IsRun(st, acts) && Entries(Final(st, acts).audit, id) == Entries(st.audit, id) + 2
  {
    hide IsRun, Final, Pass, Entries, Losses;
    PassRuns(st, w, id, LosesCommit);
    var t := Final(st, Pass(w, id, LosesCommit));
    assert Due(t, id) && RowFree(t, id) && Idle(t, w);
    PassRuns(t, w, id, Commits);
    RunConcat(st, Pass(w, id, LosesCommit), Pass(w, id, Commits));
    CountSnoc(st.audit, Expiry(id, st.now), [], "", id);
    CountSnoc(t.audit, Expiry(id, t.now), [], "", id);
  }
}
