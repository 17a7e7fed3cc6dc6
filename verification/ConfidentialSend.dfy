/** Confidential-send links (internal/confidentialsend/service.go).

    One link served one request at a time is `Serve` and `ReplyTo`; a history of such requests is
    replayed by `Replay`.  `ConfidentialSendProtocol` interleaves the transactions that implement
    the requests and shows that every run is such a history.
  */
module ConfidentialSend {
  import opened Wrappers
  import opened Text

  datatype Link = Link(
    tenant: string, token: string, blobRef: string, passwordHash: string, expiresAt: int, maxViews: int,
    viewCount: nat, revoked: bool, wrappingKey: string, senderLeaf: string, participants: seq<string>, epoch: nat)

  /** What the portal returns for a link. */
  datatype Message = Message(
    id: string, tenant: string, token: string, blobRef: string, expiresAt: int, maxViews: int, viewCount: nat,
    hasPassword: bool, wrapped: bool, wrappingKey: string, epoch: nat)

  datatype Error =
    LinkNotFound | LinkRevoked | LinkExpired | ViewsExceeded | InvalidPassword |
    MissingField | ExpiryTooLong | NegativeViews | PartialMLS | MLSDisabled | DeriveFailed |
    InvalidRekey | TokenFailed | HashFailed | NotStored

  type Outcome<T> = Result<T, Error>

  /** `clock` is the time the serving process reads while it holds the row. */
  datatype Op = Open(password: string, clock: int) | Revoke | Rekey(key: string, participants: seq<string>)

  datatype Reply = Opened(message: Message) | Done | Refused(error: Error)

  /** The bcrypt comparison of a stored hash and a password. */
  type PasswordTest = (string, string) -> bool

  // ---- One request at a time --------------------------------------------------------------

  function Judge(matches: PasswordTest, row: Link, op: Op): Outcome<()> {
    match op
    case Open(password, clock) =>
      if row.revoked then Err(LinkRevoked)
      else if clock > row.expiresAt then Err(LinkExpired)
      else if row.maxViews > 0 && row.viewCount >= row.maxViews then Err(ViewsExceeded)
      else if row.passwordHash != "" && !matches(row.passwordHash, password) then Err(InvalidPassword)
      else Ok(())
    case Revoke => Ok(())
    case Rekey(_, _) => if row.senderLeaf == "" then Err(LinkNotFound) else Ok(())
  }

  function Updated(row: Link, op: Op): Link {
    match op
    case Open(_, _) => row.(viewCount := row.viewCount + 1)
    case Revoke => row.(revoked := true)
    case Rekey(key, participants) => row.(wrappingKey := key, participants := participants, epoch := row.epoch + 1)
  }

  /** The message for an opened row: its new view count, and never its wrapping key. */
  function Portal(id: string, row: Link): Message {
    Message(id, row.tenant, row.token, row.blobRef, row.expiresAt, row.maxViews, row.viewCount + 1,
            row.passwordHash != "", row.wrappingKey != "", "", row.epoch)
  }

  function Serve(matches: PasswordTest, row: Link, op: Op): Link {
    if Judge(matches, row, op).Ok? then Updated(row, op) else row
  }

  function ReplyTo(matches: PasswordTest, id: string, row: Link, op: Op): Reply {
    match Judge(matches, row, op)
    case Err(e) => Refused(e)
    case Ok(_) => if op.Open? then Opened(Portal(id, row)) else Done
  }

  // ---- Histories of one link ----------------------------------------------------------------

  datatype Event = Event(op: Op, reply: Reply)

  function Replay(matches: PasswordTest, row: Link, events: seq<Event>): Link {
    if events == [] then row
    else Serve(matches, Replay(matches, row, events[..|events| - 1]), events[|events| - 1].op)
  }

  /** Every reply is the one the row gives after all earlier events. */
  ghost predicate Faithful(matches: PasswordTest, id: string, row: Link, events: seq<Event>) {
    forall i :: 0 <= i < |events| ==>
      events[i].reply == ReplyTo(matches, id, Replay(matches, row, events[..i]), events[i].op)
  }

  function Opens(events: seq<Event>): nat {
    if events == [] then 0 else Opens(events[..|events| - 1]) + (if events[|events| - 1].reply.Opened? then 1 else 0)
  }

  function Rekeys(events: seq<Event>): nat {
    if events == [] then 0
    else Rekeys(events[..|events| - 1]) +
         (if events[|events| - 1].op.Rekey? && events[|events| - 1].reply.Done? then 1 else 0)
  }

  predicate IsFresh(row: Link) {
    row.viewCount == 0 && !row.revoked && row.epoch == 0 && 0 <= row.maxViews
  }

  lemma FaithfulPrefix(matches: PasswordTest, id: string, row: Link, events: seq<Event>, n: nat)
    requires Faithful(matches, id, row, events) && n <= |events|
    ensures Faithful(matches, id, row, events[..n])
  {
    forall i | 0 <= i < n
      ensures events[..n][i].reply == ReplyTo(matches, id, Replay(matches, row, events[..n][..i]), events[..n][i].op)
    {
      assert events[..n][..i] == events[..i];
    }
  }

  /** The counters count: views are the successful opens and epochs the committed rekeys; the
      view limit holds; and what a link is made of never changes. */
  lemma {:induction false} CountersCount(matches: PasswordTest, id: string, row: Link, events: seq<Event>)
    requires IsFresh(row) && Faithful(matches, id, row, events)
    ensures Replay(matches, row, events).viewCount == Opens(events)
    ensures Replay(matches, row, events).epoch == Rekeys(events)
    ensures row.maxViews > 0 ==> Opens(events) <= row.maxViews
    ensures var r := Replay(matches, row, events);
      r.(viewCount := 0, revoked := false, wrappingKey := "", participants := [], epoch := 0) ==
      row.(viewCount := 0, revoked := false, wrappingKey := "", participants := [], epoch := 0)
  {
    if events != [] {
      var n := |events| - 1;
      FaithfulPrefix(matches, id, row, events, n);
      CountersCount(matches, id, row, events[..n]);
    }
  }

  lemma {:induction false} RevokedStays(matches: PasswordTest, row: Link, events: seq<Event>, i: nat)
    requires i < |events| && events[i].op.Revoke?
    ensures Replay(matches, row, events).revoked
  {
    var n := |events| - 1;
    if i < n {
      RevokedStays(matches, row, events[..n], i);
    }
  }

  /** A successful open comes after no revoke, reads a clock at or before the end and gives the right
      password. */
  ghost predicate AllowedOpen(matches: PasswordTest, row: Link, events: seq<Event>, j: nat)
    requires j < |events|
  {
    events[j].op.Open? && events[j].reply.Opened? &&
    (forall i :: 0 <= i < j ==> !events[i].op.Revoke?) &&
    events[j].op.clock <= row.expiresAt &&
    (row.passwordHash != "" ==> matches(row.passwordHash, events[j].op.password))
  }

  /** Its message is the link as created, under its id; it carries its own number in `viewCount`, the
      number of rekeys so far in `epoch`, whether the newest key is one, and no wrapping key. */
  ghost predicate SoundMessage(id: string, row: Link, events: seq<Event>, j: nat)
    requires j < |events| && events[j].reply.Opened?
  {
    var m := events[j].reply.message;
    && m.id == id && m.tenant == row.tenant && m.token == row.token && m.blobRef == row.blobRef
    && m.expiresAt == row.expiresAt && m.maxViews == row.maxViews
    && (m.hasPassword <==> row.passwordHash != "")
    && m.viewCount == Opens(events[..j + 1]) && m.epoch == Rekeys(events[..j])
    && (m.wrapped <==> NewestKey(row, events[..j]).0 != "") && m.wrappingKey == ""
  }

  ghost predicate SoundOpen(matches: PasswordTest, id: string, row: Link, events: seq<Event>, j: nat)
    requires j < |events|
  {
    AllowedOpen(matches, row, events, j) && SoundMessage(id, row, events, j)
  }

  lemma OpensAreSound(matches: PasswordTest, id: string, row: Link, events: seq<Event>, j: nat)
    requires IsFresh(row) && Faithful(matches, id, row, events)
    requires j < |events| && events[j].reply.Opened?
    ensures SoundOpen(matches, id, row, events, j)
  {
    FaithfulPrefix(matches, id, row, events, j);
    CountersCount(matches, id, row, events[..j]);
    StoredKeyIsNewest(matches, id, row, events[..j]);
    assert events[..j + 1][..j] == events[..j];
    forall i | 0 <= i < j ensures !events[i].op.Revoke? {
      if events[i].op.Revoke? {
        RevokedStays(matches, row, events[..j], i);
        assert false;
      }
    }
  }

  ghost predicate RevokedBefore(events: seq<Event>, j: nat)
    requires j <= |events|
  {
    exists i :: 0 <= i < j && events[i].op.Revoke?
  }

  /** Conversely, an open is refused for the first of its reasons: a revoke before it, a clock past the
      end, as many successful opens before it as the link allows, a wrong password; and with none of
      them it is granted. */
  lemma RefusalsAreSound(matches: PasswordTest, id: string, row: Link, events: seq<Event>, j: nat)
    requires IsFresh(row) && Faithful(matches, id, row, events)
    requires j < |events| && events[j].op.Open?
    ensures var Event(op, reply) := events[j];
      if RevokedBefore(events, j) then reply == Refused(LinkRevoked)
      else if op.clock > row.expiresAt then reply == Refused(LinkExpired)
      else if row.maxViews > 0 && Opens(events[..j]) == row.maxViews then reply == Refused(ViewsExceeded)
      else if row.passwordHash != "" && !matches(row.passwordHash, op.password) then reply == Refused(InvalidPassword)
      else reply.Opened?
  {
    FaithfulPrefix(matches, id, row, events, j);
    CountersCount(matches, id, row, events[..j]);
    RevokedIff(matches, row, events[..j]);
    if i :| 0 <= i < j && events[i].op.Revoke? {
      assert events[..j][i].op.Revoke?;
    }
  }

  lemma RevokedIff(matches: PasswordTest, row: Link, events: seq<Event>)
    requires !row.revoked
    ensures Replay(matches, row, events).revoked <==> RevokedBefore(events, |events|)
  {
    hide Replay;
    if Replay(matches, row, events).revoked {
      RevokedBySomeone(matches, row, events);
    }
    if i: nat :| i < |events| && events[i].op.Revoke? {
      RevokedStays(matches, row, events, i);
    }
  }

  /** A rekey is refused exactly on a link made without MLS; a revoke never is. */
  lemma RekeyRefusedIff(matches: PasswordTest, id: string, row: Link, events: seq<Event>, j: nat)
    requires IsFresh(row) && Faithful(matches, id, row, events) && j < |events| && !events[j].op.Open?
    ensures events[j].reply ==
      if events[j].op.Rekey? && row.senderLeaf == "" then Refused(LinkNotFound) else Done
  {
    FaithfulPrefix(matches, id, row, events, j);
    CountersCount(matches, id, row, events[..j]);
  }

  lemma {:induction false} RevokedBySomeone(matches: PasswordTest, row: Link, events: seq<Event>)
    requires !row.revoked && Replay(matches, row, events).revoked
    ensures exists i :: 0 <= i < |events| && events[i].op.Revoke?
  {
    var n := |events| - 1;
    if !events[n].op.Revoke? {
      RevokedBySomeone(matches, row, events[..n]);
      var i :| 0 <= i < n && events[..n][i].op.Revoke?;
      assert events[i].op.Revoke?;
    }
  }

  /** The key and participants of the newest rekey that was not refused, or of the creation. */
  function NewestKey(row: Link, events: seq<Event>): (string, seq<string>) {
    if events == [] then (row.wrappingKey, row.participants)
    else
      var last := events[|events| - 1];
      if last.op.Rekey? && last.reply.Done? then (last.op.key, last.op.participants)
      else NewestKey(row, events[..|events| - 1])
  }

  lemma {:induction false} StoredKeyIsNewest(matches: PasswordTest, id: string, row: Link, events: seq<Event>)
    requires Faithful(matches, id, row, events)
    ensures var r := Replay(matches, row, events); (r.wrappingKey, r.participants) == NewestKey(row, events)
  {
    if events != [] {
      var n := |events| - 1;
      FaithfulPrefix(matches, id, row, events, n);
      StoredKeyIsNewest(matches, id, row, events[..n]);
    }
  }
}

/** The transactions behind the requests, interleaved step by step. */
module ConfidentialSendProtocol {
  import opened Wrappers
  import opened ConfidentialSend

  /** A transaction holding its row's lock: as it read the row, then as it is about to commit. */
  datatype Tx = Locked(link: string, op: Op, row: Link) | Written(link: string, op: Op, row: Link)

  /** A finished request, in the order the row lock served them. */
  datatype Entry = Entry(link: string, event: Event)

  /** A rekey call with the MLS service's answer in hand, before its transaction. */
  datatype Fetched = Fetched(link: string, op: Op)

  datatype State = State(
    created: map<string, Link>, links: map<string, Link>, fetched: map<nat, Fetched>,
    txs: map<nat, Tx>, log: seq<Entry>)

  datatype Action =
    | Create(link: string, row: Link)
    | Fetch(tx: nat, link: string, key: string, participants: seq<string>)
    | Lock(tx: nat, link: string, op: Op)
    | Decide(tx: nat)
    | Commit(tx: nat)
    | Abort(tx: nat)

  const EMPTY: State := State(map[], map[], map[], map[], [])

  predicate RowFree(st: State, link: string) {
    forall t :: t in st.txs ==> st.txs[t].link != link
  }

  predicate Enabled(st: State, a: Action) {
    match a
    case Create(link, row) => link !in st.links && IsFresh(row)
    case Fetch(tx, _, _, _) => tx !in st.fetched
    case Lock(tx, link, op) =>
      tx !in st.txs && link in st.links && RowFree(st, link) &&
      (op.Rekey? ==> tx in st.fetched && st.fetched[tx] == Fetched(link, op))
    case Decide(tx) => tx in st.txs && st.txs[tx].Locked?
    case Commit(tx) => tx in st.txs && st.txs[tx].Written?
    case Abort(tx) => tx in st.txs
  }

  function Record(st: State, link: string, op: Op, reply: Reply): State {
    st.(log := st.log + [Entry(link, Event(op, reply))])
  }

  /** `Decide` runs the checks against the row as locked.  A refusal rolls back and is answered at
      once; otherwise the update waits, under the lock, for commit or abort. */
  function Apply(matches: PasswordTest, st: State, a: Action): State
    requires Enabled(st, a)
  {
    match a
    case Create(link, row) => st.(created := st.created[link := row], links := st.links[link := row])
    case Fetch(tx, link, key, participants) =>
      st.(fetched := st.fetched[tx := Fetched(link, Rekey(key, participants))])
    case Lock(tx, link, op) =>
      st.(txs := st.txs[tx := Locked(link, op, st.links[link])],
          fetched := if op.Rekey? then st.fetched - {tx} else st.fetched)
    case Decide(tx) =>
      var Locked(link, op, row) := st.txs[tx];
      (match Judge(matches, row, op)
       case Err(e) => Record(st, link, op, Refused(e)).(txs := st.txs - {tx})
       case Ok(_) => st.(txs := st.txs[tx := Written(link, op, row)]))
    case Commit(tx) =>
      var Written(link, op, row) := st.txs[tx];
      Record(st, link, op, if op.Open? then Opened(Portal(link, row)) else Done)
        .(txs := st.txs - {tx}, links := st.links[link := Updated(row, op)])
    case Abort(tx) => st.(txs := st.txs - {tx})
  }

  function EventsOf(log: seq<Entry>, link: string): seq<Event> {
    if log == [] then []
    else
      var rest := EventsOf(log[..|log| - 1], link);
      if log[|log| - 1].link == link then rest + [log[|log| - 1].event] else rest
  }

  // ---- Invariant ------------------------------------------------------------------------

  ghost predicate Current(matches: PasswordTest, st: State) {
    forall t :: t in st.txs ==>
      st.txs[t].link in st.links && st.txs[t].row == st.links[st.txs[t].link] &&
      (st.txs[t].Written? ==> Judge(matches, st.txs[t].row, st.txs[t].op).Ok?)
  }

  ghost predicate Exclusive(st: State) {
    forall t, u :: t in st.txs && u in st.txs && st.txs[t].link == st.txs[u].link ==> t == u
  }

  /** The link is exactly what serving its finished requests one at a time would give, and each
      was answered as that would answer it. */
  ghost predicate Serial(matches: PasswordTest, st: State, link: string) {
    link in st.created && link in st.links && IsFresh(st.created[link]) &&
    st.links[link] == Replay(matches, st.created[link], EventsOf(st.log, link)) &&
    Faithful(matches, link, st.created[link], EventsOf(st.log, link))
  }

  ghost predicate AllSerial(matches: PasswordTest, st: State) {
    (forall link :: link in st.links ==> Serial(matches, st, link)) &&
    forall i :: 0 <= i < |st.log| ==> st.log[i].link in st.links
  }

  ghost predicate Inv(matches: PasswordTest, st: State) {
    Current(matches, st) && Exclusive(st) && AllSerial(matches, st)
  }

  lemma StepKeepsLocks(matches: PasswordTest, st: State, a: Action)
    requires Current(matches, st) && Exclusive(st) && Enabled(st, a)
    ensures Current(matches, Apply(matches, st, a)) && Exclusive(Apply(matches, st, a))
  {
    hide Judge, Updated, Portal;
  }

  lemma EventsOfSnoc(log: seq<Entry>, e: Entry, link: string)
    ensures EventsOf(log + [e], link) == if e.link == link then EventsOf(log, link) + [e.event] else EventsOf(log, link)
  {
    assert (log + [e])[..|log|] == log;
  }

  lemma {:induction false} NoEvents(log: seq<Entry>, link: string)
    requires forall i :: 0 <= i < |log| ==> log[i].link != link
    ensures EventsOf(log, link) == []
  {
    if log != [] {
      NoEvents(log[..|log| - 1], link);
    }
  }

  lemma Served(matches: PasswordTest, id: string, row: Link, events: seq<Event>, op: Op)
    requires Faithful(matches, id, row, events)
    ensures var now := Replay(matches, row, events);
      var more := events + [Event(op, ReplyTo(matches, id, now, op))];
      Faithful(matches, id, row, more) && Replay(matches, row, more) == Serve(matches, now, op)
  {
    hide Serve, ReplyTo;
    var more := events + [Event(op, ReplyTo(matches, id, Replay(matches, row, events), op))];
    assert more[..|events|] == events;
    forall i | 0 <= i < |more|
      ensures more[i].reply == ReplyTo(matches, id, Replay(matches, row, more[..i]), more[i].op)
    {
      assert i < |events| ==> more[..i] == events[..i];
    }
  }

  /** Answering a request from the row its transaction holds. */
  lemma AnswerKeepsSerial(matches: PasswordTest, st: State, t: State, link: string, op: Op)
    requires AllSerial(matches, st) && link in st.links && t.created == st.created
    requires t.links == st.links[link := Serve(matches, st.links[link], op)]
    requires t.log == st.log + [Entry(link, Event(op, ReplyTo(matches, link, st.links[link], op)))]
    ensures AllSerial(matches, t)
  {
    hide Serve, ReplyTo, Faithful, Replay, IsFresh, EventsOf;
    forall l | l in t.links ensures Serial(matches, t, l) {
      assert Serial(matches, st, l);
      EventsOfSnoc(st.log, t.log[|st.log|], l);
      if l == link {
        Served(matches, l, st.created[l], EventsOf(st.log, l), op);
      }
    }
  }

  lemma StepKeepsSerial(matches: PasswordTest, st: State, a: Action)
    requires Inv(matches, st) && Enabled(st, a)
    ensures AllSerial(matches, Apply(matches, st, a))
  {
    hide Faithful, Replay, EventsOf, Portal, Updated;
    var t := Apply(matches, st, a);
    if a.Create? {
      forall l | l in t.links ensures Serial(matches, t, l) {
        if l == a.link {
          FreshSerial(matches, st, t, l);
        } else {
          assert Serial(matches, st, l);
        }
      }
    } else if (a.Decide? && Judge(matches, st.txs[a.tx].row, st.txs[a.tx].op).Err?) || a.Commit? {
      var link := st.txs[a.tx].link;
      assert t.links == st.links[link := Serve(matches, st.links[link], st.txs[a.tx].op)];
      AnswerKeepsSerial(matches, st, t, link, st.txs[a.tx].op);
    } else {
      forall l | l in t.links ensures Serial(matches, t, l) {
        assert Serial(matches, st, l);
      }
    }
  }

  lemma FreshSerial(matches: PasswordTest, st: State, t: State, link: string)
    requires AllSerial(matches, st) && link !in st.links && t.log == st.log
    requires link in t.links && link in t.created && t.links[link] == t.created[link] && IsFresh(t.links[link])
    ensures Serial(matches, t, link)
  {
    hide IsFresh;
    NoEvents(st.log, link);
  }

  lemma StepKeepsInv(matches: PasswordTest, st: State, a: Action)
    requires Inv(matches, st) && Enabled(st, a)
    ensures Inv(matches, Apply(matches, st, a))
  {
    StepKeepsLocks(matches, st, a);
    StepKeepsSerial(matches, st, a);
  }

  // ---- Runs -----------------------------------------------------------------------------

  predicate IsRun(matches: PasswordTest, st: State, acts: seq<Action>)
    decreases |acts|
  {
    acts == [] || (Enabled(st, acts[0]) && IsRun(matches, Apply(matches, st, acts[0]), acts[1..]))
  }

  function Final(matches: PasswordTest, st: State, acts: seq<Action>): State
    requires IsRun(matches, st, acts)
    decreases |acts|
  {
    if acts == [] then st else Final(matches, Apply(matches, st, acts[0]), acts[1..])
  }

  lemma {:induction false} RunKeepsInv(matches: PasswordTest, st: State, acts: seq<Action>)
    requires Inv(matches, st) && IsRun(matches, st, acts)
    ensures Inv(matches, Final(matches, st, acts))
    decreases |acts|
  {
    hide Inv, Enabled, Apply;
    if acts != [] {
      StepKeepsInv(matches, st, acts[0]);
      RunKeepsInv(matches, Apply(matches, st, acts[0]), acts[1..]);
    }
  }

  /** Every interleaving of opens, revokes and rekeys, with aborts anywhere, leaves each link as if
      its finished requests had been served one at a time in the order they finished. */
  lemma EveryRunIsSerial(matches: PasswordTest, acts: seq<Action>, link: string)
    requires IsRun(matches, EMPTY, acts) && link in Final(matches, EMPTY, acts).links
    ensures Serial(matches, Final(matches, EMPTY, acts), link)
  {
    hide IsRun, Final, Serial;
    RunKeepsInv(matches, EMPTY, acts);
  }

  /** What that means for a link, in every interleaving: its counters count, its limit holds, and
      every successful open is sound. */
  lemma EveryRunCounts(matches: PasswordTest, acts: seq<Action>, link: string)
    requires IsRun(matches, EMPTY, acts) && link in Final(matches, EMPTY, acts).links
    ensures var st := Final(matches, EMPTY, acts);
      var events := EventsOf(st.log, link);
      && st.links[link].viewCount == Opens(events)
      && st.links[link].epoch == Rekeys(events)
      && (st.links[link].maxViews > 0 ==> Opens(events) <= st.links[link].maxViews)
      && link in st.created
      && forall j :: 0 <= j < |events| && events[j].reply.Opened? ==>
           SoundOpen(matches, link, st.created[link], events, j)
  {
    hide IsRun, Final, Replay, Faithful, Opens, Rekeys, EventsOf;
    EveryRunIsSerial(matches, acts, link);
    var st := Final(matches, EMPTY, acts);
    var events := EventsOf(st.log, link);
    var row := st.created[link];
    CountersCount(matches, link, row, events);
    forall j | 0 <= j < |events| && events[j].reply.Opened? ensures SoundOpen(matches, link, row, events, j) {
      OpensAreSound(matches, link, row, events, j);
    }
  }

  /** In every interleaving the stored key is that of the last rekey to commit. */
  lemma EveryRunStoresLastCommitted(matches: PasswordTest, acts: seq<Action>, link: string)
    requires IsRun(matches, EMPTY, acts) && link in Final(matches, EMPTY, acts).links
    ensures var st := Final(matches, EMPTY, acts);
      link in st.created && (st.links[link].wrappingKey, st.links[link].participants) ==
        NewestKey(st.created[link], EventsOf(st.log, link))
  {
    hide IsRun, Final, Replay, Faithful, NewestKey, EventsOf;
    EveryRunIsSerial(matches, acts, link);
    var st := Final(matches, EMPTY, acts);
    StoredKeyIsNewest(matches, link, st.created[link], EventsOf(st.log, link));
  }

  // ---- Commit order is not issue order ----------------------------------------------------

  lemma RunCons(matches: PasswordTest, st: State, a: Action, rest: seq<Action>)
    requires Enabled(st, a) && IsRun(matches, Apply(matches, st, a), rest)
    ensures IsRun(matches, st, [a] + rest)
    ensures Final(matches, st, [a] + rest) == Final(matches, Apply(matches, st, a), rest)
  {
    hide Enabled, Apply;
    assert ([a] + rest)[1..] == rest;
  }

  lemma RunNothing(matches: PasswordTest, st: State)
    ensures IsRun(matches, st, []) && Final(matches, st, []) == st
  {
  }

  /** The transaction of a rekey call. */
  function RekeySteps(tx: nat, link: string, op: Op): seq<Action> {
    [Lock(tx, link, op)] + ([Decide(tx)] + [Commit(tx)])
  }

  function AfterRekey(st: State, tx: nat, link: string, op: Op): State
    requires link in st.links
  {
    Record(st, link, op, Done).(links := st.links[link := Updated(st.links[link], op)], fetched := st.fetched - {tx})
  }

  lemma RekeyRuns(matches: PasswordTest, st: State, tx: nat, link: string, op: Op)
    requires op.Rekey? && link in st.links && st.links[link].senderLeaf != "" && RowFree(st, link)
    requires tx !in st.txs && tx in st.fetched && st.fetched[tx] == Fetched(link, op)
    ensures IsRun(matches, st, RekeySteps(tx, link, op))
    ensures Final(matches, st, RekeySteps(tx, link, op)) == AfterRekey(st, tx, link, op)
  {
    hide IsRun, Final, RowFree;
    var row := st.links[link];
    var a := Apply(matches, st, Lock(tx, link, op));
    var b := Apply(matches, a, Decide(tx));
    assert b == a.(txs := a.txs[tx := Written(link, op, row)]);
    var c := Apply(matches, b, Commit(tx));
    assert b.txs - {tx} == st.txs;
    RunNothing(matches, c);
    RunCons(matches, b, Commit(tx), []);
    assert [Commit(tx)] + [] == [Commit(tx)];
    RunCons(matches, a, Decide(tx), [Commit(tx)]);
    RunCons(matches, st, Lock(tx, link, op), [Decide(tx)] + [Commit(tx)]);
  }

  lemma {:induction false} RunConcat(matches: PasswordTest, st: State, first: seq<Action>, second: seq<Action>)
    requires IsRun(matches, st, first) && IsRun(matches, Final(matches, st, first), second)
    ensures IsRun(matches, st, first + second)
    ensures Final(matches, st, first + second) == Final(matches, Final(matches, st, first), second)
    decreases |first|
  {
    hide Enabled, Apply;
    if first == [] {
      assert first + second == second;
    } else {
      assert (first + second)[1..] == first[1..] + second;
      RunConcat(matches, Apply(matches, st, first[0]), first[1..], second);
    }
  }

  /** Two rekey calls fetch their keys, the second after the first; the second's transaction goes first. */
  function Overtaking(link: string, older: string, newer: string, participants: seq<string>): seq<Action> {
    [Fetch(1, link, older, participants)] + ([Fetch(2, link, newer, participants)] +
      (RekeySteps(2, link, Rekey(newer, participants)) + RekeySteps(1, link, Rekey(older, participants))))
  }

  /** Then the link is left with the key issued first, whatever the link and the keys. */
  lemma OvertakenRekeyStoresOlderKey(matches: PasswordTest, st: State, link: string, older: string, newer: string,
      participants: seq<string>)
    requires link in st.links && st.links[link].senderLeaf != "" && RowFree(st, link)
    requires 1 !in st.txs && 2 !in st.txs && 1 !in st.fetched && 2 !in st.fetched
    ensures var acts := Overtaking(link, older, newer, participants);
      && IsRun(matches, st, acts) && link in Final(matches, st, acts).links
      && Final(matches, st, acts).links[link].wrappingKey == older
  {
    hide IsRun, Final, RekeySteps;
    var one, two := Rekey(older, participants), Rekey(newer, participants);
    var a := Apply(matches, st, Fetch(1, link, older, participants));
    var b := Apply(matches, a, Fetch(2, link, newer, participants));
    RekeyRuns(matches, b, 2, link, two);
    var c := AfterRekey(b, 2, link, two);
    assert RowFree(c, link);
    RekeyRuns(matches, c, 1, link, one);
    RunConcat(matches, b, RekeySteps(2, link, two), RekeySteps(1, link, one));
    RunCons(matches, a, Fetch(2, link, newer, participants), RekeySteps(2, link, two) + RekeySteps(1, link, one));
    RunCons(matches, st, Fetch(1, link, older, participants),
      [Fetch(2, link, newer, participants)] + (RekeySteps(2, link, two) + RekeySteps(1, link, one)));
  }
}

/** The service over its table, one request at a time. */
module ConfidentialSendService {
  import opened Wrappers
  import opened ConfidentialSend
  import opened ConfidentialSendProtocol
  import opened Text

  datatype Request = Request(
    tenant: string, sender: string, blobRef: string, password: string, expiresIn: int, maxViews: int,
    senderLeaf: string, recipients: seq<string>)

  const HOUR := 3600
  const DEFAULT_LIFETIME := 24 * HOUR
  const MAX_LIFETIME := 30 * 24 * HOUR

  /** What creating a link needs from outside: the clock, the random id and token, the password's
      hash, the answer of the MLS service when there is one, and whether the insert commits. */
  datatype Supplies = Supplies(clock: int, id: string, token: Outcome<string>, hash: Outcome<string>,
      mlsEnabled: bool, derived: Outcome<string>, commits: bool)

  /** The supplies a request needs were all there. */
  predicate Supplied(req: Request, s: Supplies) {
    s.token.Ok? && (req.password != "" ==> s.hash.Ok?) && (WantsMLS(req) ==> s.mlsEnabled && s.derived.Ok?) && s.commits
  }

  predicate Blank(s: string) {
    TrimSpace(s) == ""
  }

  /** The caller asked for MLS wrapping. */
  predicate WantsMLS(req: Request) {
    !Blank(req.senderLeaf) && req.recipients != []
  }

  predicate PartialRequest(req: Request) {
    Blank(req.senderLeaf) != (req.recipients == [])
  }

  /** The request was served from the row alone, and recorded. */
  ghost predicate Answers(matches: PasswordTest, before: State, after: State, id: string, op: Op, reply: Reply) {
    id in before.links && reply == ReplyTo(matches, id, before.links[id], op) &&
    after == before.(links := before.links[id := Serve(matches, before.links[id], op)],
                     log := before.log + [Entry(id, Event(op, reply))])
  }

  /** An open was served; or it was granted and its transaction did not commit, so that no view is spent. */
  ghost predicate OpenAnswers(matches: PasswordTest, before: State, after: State, id: string, op: Op, commits: bool,
      r: Outcome<Message>)
    requires id in before.links
  {
    if !commits && Judge(matches, before.links[id], op).Ok? then r == Err(NotStored) && after == before
    else Answers(matches, before, after, id, op, if r.Ok? then Opened(r.value) else Refused(r.error))
  }

  /** The message of a granted open is about the link, field by field. */
  predicate Shows(m: Message, id: string, row: Link) {
    m.id == id && m.tenant == row.tenant && m.token == row.token && m.blobRef == row.blobRef &&
    m.expiresAt == row.expiresAt && m.maxViews == row.maxViews && m.viewCount == row.viewCount + 1 &&
    (m.hasPassword <==> row.passwordHash != "") && (m.wrapped <==> row.wrappingKey != "") &&
    m.wrappingKey == "" && m.epoch == row.epoch
  }

  predicate Names(links: map<string, Link>, token: string, id: string) {
    id in links && links[id].token == token
  }

  lemma BlankEmpty()
    ensures Blank("")
  {
  }

  class SecureLinks {
    const matches: PasswordTest
    var links: map<string, Link>
    ghost var created: map<string, Link>
    ghost var log: seq<Entry>

    ghost function Quiet(): State
      reads this
    {
      State(created, links, map[], map[], log)
    }

    ghost predicate TokensUnique()
      reads this
    {
      forall i, j :: i in links && j in links && links[i].token == links[j].token ==> i == j
    }

    ghost predicate Valid()
      reads this
    {
      AllSerial(matches, Quiet()) && TokensUnique()
    }

    constructor (matches: PasswordTest)
      ensures Valid() && links == map[] && this.matches == matches
    {
      this.matches := matches;
      links, created, log := map[], map[], [];
    }

    /** Serving a request keeps the table serial. */
    lemma AnswerKeepsValid(after: State, id: string, op: Op, reply: Reply)
      requires Valid() && Answers(matches, Quiet(), after, id, op, reply)
      ensures AllSerial(matches, after)
    {
      hide AllSerial, Serve, ReplyTo;
      AnswerKeepsSerial(matches, Quiet(), after, id, op);
    }

    method CreateSecureMessage(request: Request, s: Supplies) returns (r: Outcome<Message>)
      requires Valid() && (s.hash.Ok? ==> s.hash.value != "")
      modifies this
      ensures Valid()
      ensures r.Ok? <==>
        && !Blank(request.tenant) && !Blank(request.sender) && !Blank(request.blobRef)
        && request.expiresIn <= 30 * 24 * 3600 && 0 <= request.maxViews && !PartialRequest(request)
        && Supplied(request, s)
        && s.id !in old(links) && forall i :: i in old(links) ==> old(links)[i].token != s.token.value
      ensures r.Err? ==> links == old(links)
      ensures r.Ok? ==> s.id in links && links == old(links)[s.id := links[s.id]] && IsFresh(links[s.id])
      ensures r.Ok? ==>
        links[s.id].token == s.token.value && links[s.id].tenant == request.tenant &&
        links[s.id].blobRef == request.blobRef
      ensures r.Ok? ==>
        s.clock < links[s.id].expiresAt <= s.clock + 30 * 24 * 3600 && links[s.id].maxViews == request.maxViews
      ensures r.Ok? ==>
        links[s.id].expiresAt == s.clock + (if request.expiresIn <= 0 then 24 * 3600 else request.expiresIn)
      ensures r.Ok? ==>
        (links[s.id].senderLeaf != "" <==> WantsMLS(request)) &&
        links[s.id].passwordHash == if request.password == "" then "" else s.hash.value
      ensures r.Ok? && WantsMLS(request) ==>
        links[s.id].wrappingKey == s.derived.value && links[s.id].participants == request.recipients
      ensures r.Ok? ==>
        && r.value.id == s.id && r.value.tenant == request.tenant && r.value.token == s.token.value
        && r.value.blobRef == request.blobRef && r.value.expiresAt == links[s.id].expiresAt
        && r.value.maxViews == request.maxViews && r.value.viewCount == 0 && r.value.epoch == 0
        && (r.value.hasPassword <==> request.password != "") && (r.value.wrapped <==> WantsMLS(request))
        && r.value.wrappingKey == if WantsMLS(request) then s.derived.value else ""
    {
      hide AllSerial, Blank;
      if Blank(request.tenant) || Blank(request.sender) || Blank(request.blobRef) {
        return Err(MissingField);
      }
      var expiresIn := request.expiresIn;
      if expiresIn <= 0 {
        expiresIn := DEFAULT_LIFETIME;
      }
      if expiresIn > MAX_LIFETIME {
        return Err(ExpiryTooLong);
      }
      if request.maxViews < 0 {
        return Err(NegativeViews);
      }
      var hasLeaf := !Blank(request.senderLeaf);
      var hasRecipients := |request.recipients| > 0;
      if hasLeaf != hasRecipients {
        return Err(PartialMLS);
      }
      var key, leaf, participants := "", "", [];
      if hasLeaf {
        if !s.mlsEnabled {
          return Err(MLSDisabled);
        }
        if s.derived.Err? {
          return Err(DeriveFailed);
        }
        BlankEmpty();
        key, leaf, participants := s.derived.value, request.senderLeaf, request.recipients;
      }
      if s.token.Err? {
        return Err(TokenFailed);
      }
      var token := s.token.value;
      var passwordHash := "";
      if request.password != "" {
        if s.hash.Err? {
          return Err(HashFailed);
        }
        passwordHash := s.hash.value;
      }
      var expiresAt := s.clock + expiresIn;
      if !s.commits || s.id in links || exists i :: i in links && links[i].token == token {
        return Err(NotStored);
      }
      var row := Link(request.tenant, token, request.blobRef, passwordHash, expiresAt, request.maxViews, 0, false,
                      key, leaf, participants, 0);
      CreateKeepsValid(s.id, row);
      links := links[s.id := row];
      created := created[s.id := row];
      r := Ok(Message(s.id, row.tenant, row.token, row.blobRef, row.expiresAt, row.maxViews, 0,
                      passwordHash != "", hasLeaf, key, 0));
    }

    lemma CreateKeepsValid(id: string, row: Link)
      requires Valid() && id !in links && IsFresh(row)
      ensures AllSerial(matches, State(created[id := row], links[id := row], map[], map[], log))
    {
      hide AllSerial, Faithful, Replay;
      StepKeepsSerial(matches, Quiet(), Create(id, row));
    }

    /** The checks and the update under the row lock. */
    method OpenRow(id: string, password: string, clock: int, commits: bool) returns (r: Outcome<Message>)
      requires Valid() && id in links
      modifies this
      ensures Valid()
      ensures OpenAnswers(matches, old(Quiet()), Quiet(), id, Open(password, clock), commits, r)
      ensures r.Ok? ==> Shows(r.value, id, old(links)[id])
    {
      hide AllSerial;
      var row := links[id];
      if row.revoked {
        r := Err(LinkRevoked);
      } else if clock > row.expiresAt {
        r := Err(LinkExpired);
      } else if row.maxViews > 0 && row.viewCount >= row.maxViews {
        r := Err(ViewsExceeded);
      } else if row.passwordHash != "" && !matches(row.passwordHash, password) {
        r := Err(InvalidPassword);
      } else if !commits {
        return Err(NotStored);
      } else {
        var m := Message(id, row.tenant, row.token, row.blobRef, row.expiresAt, row.maxViews, row.viewCount + 1,
                         row.passwordHash != "", row.wrappingKey != "", row.wrappingKey, row.epoch);
        m := m.(wrappingKey := "");
        r := Ok(m);
      }
      ghost var reply := if r.Ok? then Opened(r.value) else Refused(r.error);
      assert reply == ReplyTo(matches, id, row, Open(password, clock));
      ghost var after := Quiet().(links := links[id := Serve(matches, row, Open(password, clock))],
                                  log := log + [Entry(id, Event(Open(password, clock), reply))]);
      AnswerKeepsValid(after, id, Open(password, clock), reply);
      if r.Ok? {
        links := links[id := row.(viewCount := row.viewCount + 1)];
      }
      log := log + [Entry(id, Event(Open(password, clock), reply))];
      assert links == after.links;
    }

    /** OpenAnswers a link by its token. */
    method GetSecureMessage(token: string, password: string, clock: int, commits: bool)
      returns (r: Outcome<Message>)
      requires Valid()
      modifies this
      ensures Valid()
      ensures Blank(token) || (forall id :: !Names(old(links), token, id)) ==>
        r == Err(LinkNotFound) && Quiet() == old(Quiet())
      ensures forall id :: !Blank(token) && Names(old(links), token, id) ==>
        OpenAnswers(matches, old(Quiet()), Quiet(), id, Open(password, clock), commits, r) &&
        (r.Ok? ==> Shows(r.value, id, old(links)[id]))
    {
      hide AllSerial, OpenAnswers, Shows;
      if Blank(token) {
        return Err(LinkNotFound);
      }
      if id :| id in links && links[id].token == token {
        assert forall j :: Names(links, token, j) ==> j == id;
        assert Names(links, token, id);
        r := OpenRow(id, password, clock, commits);
      } else {
        r := Err(LinkNotFound);
      }
    }

    method RevokeLink(tenant: string, id: string, commits: bool) returns (r: Outcome<()>)
      requires Valid()
      modifies this
      ensures Valid()
      ensures r.Ok? <==> tenant != "" && id != "" && commits
      ensures r.Ok? && id in old(links) && old(links)[id].tenant == tenant ==>
        Answers(matches, old(Quiet()), Quiet(), id, Revoke, Done)
      ensures !(r.Ok? && id in old(links) && old(links)[id].tenant == tenant) ==> Quiet() == old(Quiet())
    {
      hide AllSerial;
      if tenant == "" || id == "" {
        return Err(MissingField);
      }
      if !commits {
        return Err(NotStored);
      }
      if id in links && links[id].tenant == tenant {
        ghost var after := Quiet().(links := links[id := links[id].(revoked := true)],
                   log := log + [Entry(id, Event(Revoke, Done))]);
        AnswerKeepsValid(after, id, Revoke, Done);
        links := links[id := links[id].(revoked := true)];
        log := log + [Entry(id, Event(Revoke, Done))];
      }
      r := Ok(());
    }

    /** `answer` is the MLS service's answer. */
    method RekeyConfidentialMessage(tenant: string, id: string, participants: seq<string>, mlsEnabled: bool,
        answer: Outcome<string>, commits: bool)
      returns (r: Outcome<string>)
      requires Valid()
      modifies this
      ensures Valid()
      ensures r.Ok? <==>
        && mlsEnabled && !Blank(tenant) && !Blank(id) && participants != [] && answer.Ok?
        && id in old(links) && old(links)[id].tenant == tenant && old(links)[id].senderLeaf != "" && commits
      ensures r.Ok? ==>
        r.value == answer.value && Answers(matches, old(Quiet()), Quiet(), id, Rekey(r.value, participants), Done)
      ensures r.Ok? ==> links[id].epoch == old(links)[id].epoch + 1 && links[id].wrappingKey == r.value
      ensures r.Err? ==> Quiet() == old(Quiet())
    {
      hide AllSerial, Blank;
      if !mlsEnabled {
        return Err(MLSDisabled);
      }
      if Blank(tenant) || Blank(id) || |participants| == 0 {
        return Err(InvalidRekey);
      }
      if answer.Err? {
        return Err(DeriveFailed);
      }
      if id !in links || links[id].tenant != tenant || links[id].senderLeaf == "" {
        return Err(LinkNotFound);
      }
      if !commits {
        return Err(NotStored);
      }
      var op := Rekey(answer.value, participants);
      ghost var after := Quiet().(links := links[id := Updated(links[id], op)],
                 log := log + [Entry(id, Event(op, Done))]);
      AnswerKeepsValid(after, id, op, Done);
      links := links[id := links[id].(wrappingKey := answer.value, participants := participants,
        epoch := links[id].epoch + 1)];
      log := log + [Entry(id, Event(op, Done))];
      r := Ok(answer.value);
    }
  }
}
