/** The reminder scheduler (internal/calendarbridge/reminder_worker.go).

    A run is a sequence of visits to an account; each visit lists the account's events and makes
    one attempt per event and window.  Time is in seconds.
  */
module Reminders {
  import opened Wrappers

  const MINUTE := 60
  const DAY := 86400

  /** Minutes before the start at which reminders are due. */
  const WINDOWS: seq<int> := [15, 5]

  /** A listed event; `start` is `None` when its start time does not parse. */
  datatype Event = Event(uid: string, start: Option<int>)

  /** A calendar as fetched; the fetch may fail. */
  datatype Calendar = Unavailable | Listed(events: seq<Event>)

  /** What goes wrong during a visit, by event and window: the mark cannot be read, the notice
      cannot be sent, the mark cannot be written. */
  datatype Faults = Faults(unread: set<(string, int)>, unsent: set<(string, int)>, unmarked: set<(string, int)>)

  datatype Visit = Visit(tenant: string, account: string, now: int, calendars: seq<Calendar>, faults: Faults)

  datatype Reminder = Reminder(tenant: string, uid: string, win: int)

  /** A reminder as sent: for which start, and when. */
  datatype Notice = Notice(reminder: Reminder, start: int, at: int)

  /** Marks in Valkey, by key, with the time each was set; and the reminders sent. */
  datatype World = World(marks: map<string, int>, sent: seq<Notice>)

  const EMPTY: World := World(map[], [])

  // ---- Keys -------------------------------------------------------------------------------

  function Digits(n: nat): string {
    if n < 10 then [('0' as int + n) as char] else Digits(n / 10) + [('0' as int + n % 10) as char]
  }

  function Itoa(n: int): string {
    if n < 0 then "-" + Digits(-n) else Digits(n)
  }

  function ReminderKey(tenant: string, uid: string, win: int): string {
    "reminder:" + tenant + ":" + uid + ":" + Itoa(win)
  }

  predicate ColonFree(s: string) {
    forall i :: 0 <= i < |s| ==> s[i] != ':'
  }

  lemma {:induction false} DigitsAreDigits(n: nat)
    ensures |Digits(n)| >= 1 && forall i :: 0 <= i < |Digits(n)| ==> '0' <= Digits(n)[i] <= '9'
  {
    if n >= 10 {
      DigitsAreDigits(n / 10);
    }
  }

  lemma {:induction false} DigitsInjective(m: nat, n: nat)
    requires Digits(m) == Digits(n)
    ensures m == n
  {
    DigitsAreDigits(m / 10);
    DigitsAreDigits(n / 10);
    if m >= 10 && n >= 10 {
      var a, b := Digits(m / 10), Digits(n / 10);
      var x, y := ('0' as int + m % 10) as char, ('0' as int + n % 10) as char;
      assert a + [x] == b + [y];
      assert a == (a + [x])[..|a|] && b == (b + [y])[..|b|];
      DigitsInjective(m / 10, n / 10);
    }
  }

  lemma ItoaInjective(m: int, n: int)
    requires Itoa(m) == Itoa(n)
    ensures m == n
  {
    hide Digits;
    var a, b := if m < 0 then -m else m, if n < 0 then -n else n;
    DigitsAreDigits(a);
    DigitsAreDigits(b);
    assert m < 0 <==> Itoa(m)[0] == '-';
    assert n < 0 <==> Itoa(n)[0] == '-';
    assert m < 0 ==> Digits(a) == Itoa(m)[1..] && Digits(b) == Itoa(n)[1..];
    DigitsInjective(a, b);
  }

  lemma ItoaColonFree(n: int)
    ensures ColonFree(Itoa(n))
  {
    hide Digits;
    DigitsAreDigits(if n < 0 then -n else n);
  }

  /** A string splits in one way at its first colon. */
  lemma FirstColon(a: string, b: string, x: string, y: string)
    requires ColonFree(a) && ColonFree(b) && a + ":" + x == b + ":" + y
    ensures a == b && x == y
  {
    var s := a + ":" + x;
    assert s[|a|] == ':' && s[|b|] == ':';
    assert |a| == |b|;
    assert a == s[..|a|] && b == s[..|b|];
    assert x == s[|a| + 1..] && y == s[|b| + 1..];
  }

  /** And in one way at its last. */
  lemma LastColon(x: string, y: string, a: string, b: string)
    requires ColonFree(a) && ColonFree(b) && x + ":" + a == y + ":" + b
    ensures a == b && x == y
  {
    var s := x + ":" + a;
    assert s[|x|] == ':' && s[|y|] == ':';
    assert |x| == |y|;
    assert x == s[..|x|] && y == s[..|y|];
    assert a == s[|x| + 1..] && b == s[|y| + 1..];
  }

  /** Tenant ids without a colon keep keys apart, whatever the event ids hold. */
  lemma KeyInjective(t: string, u: string, m: int, t': string, u': string, m': int)
    requires ColonFree(t) && ColonFree(t') && ReminderKey(t, u, m) == ReminderKey(t', u', m')
    ensures t == t' && u == u' && m == m'
  {
    hide Itoa, ColonFree;
    var k, k' := ReminderKey(t, u, m), ReminderKey(t', u', m');
    assert k[9..] == t + ":" + (u + ":" + Itoa(m));
    assert k'[9..] == t' + ":" + (u' + ":" + Itoa(m'));
    FirstColon(t, t', u + ":" + Itoa(m), u' + ":" + Itoa(m'));
    ItoaColonFree(m);
    ItoaColonFree(m');
    LastColon(u, u', Itoa(m), Itoa(m'));
    ItoaInjective(m, m');
  }

  /** With a colon in a tenant id two reminders can share one mark. */
  lemma ColonTenantsCollide()
    ensures ReminderKey("a:b", "c", 5) == ReminderKey("a", "b:c", 5)
  {
    hide Itoa;
    assert "reminder:" + "a:b" + ":" + "c" == "reminder:" + "a" + ":" + "b:c";
  }

  // ---- Attempts ---------------------------------------------------------------------------

  datatype Attempt = Attempt(reminder: Reminder, now: int, start: int, readable: bool, sends: bool, marks: bool)

  predicate InWindow(poll: int, a: Attempt) {
    a.reminder.win * MINUTE - poll <= a.start - a.now <= a.reminder.win * MINUTE
  }

  function KeyOf(r: Reminder): string {
    ReminderKey(r.tenant, r.uid, r.win)
  }

  /** A mark lives for a day. */
  predicate Marked(w: World, r: Reminder, now: int) {
    KeyOf(r) in w.marks && now < w.marks[KeyOf(r)] + DAY
  }

  function Attempted(w: World, poll: int, a: Attempt): World {
    if !InWindow(poll, a) || (a.readable && Marked(w, a.reminder, a.now)) || !a.sends then w
    else World(if a.marks then w.marks[KeyOf(a.reminder) := a.now] else w.marks,
               w.sent + [Notice(a.reminder, a.start, a.now)])
  }

  function After(w: World, poll: int, attempts: seq<Attempt>): World {
    if attempts == [] then w else Attempted(After(w, poll, attempts[..|attempts| - 1]), poll, attempts[|attempts| - 1])
  }

  lemma {:induction false} AfterConcat(w: World, poll: int, xs: seq<Attempt>, ys: seq<Attempt>)
    ensures After(w, poll, xs + ys) == After(After(w, poll, xs), poll, ys)
  {
    hide Attempted;
    if ys == [] {
      assert xs + ys == xs;
    } else {
      assert (xs + ys)[..|xs + ys| - 1] == xs + ys[..|ys| - 1];
      AfterConcat(w, poll, xs, ys[..|ys| - 1]);
    }
  }

  function AttemptFor(v: Visit, uid: string, start: int, win: int): Attempt {
    Attempt(Reminder(v.tenant, uid, win), v.now, start,
            (uid, win) !in v.faults.unread, (uid, win) !in v.faults.unsent, (uid, win) !in v.faults.unmarked)
  }

  function WindowAttempts(v: Visit, uid: string, start: int, n: nat): seq<Attempt>
    requires n <= |WINDOWS|
  {
    if n == 0 then [] else WindowAttempts(v, uid, start, n - 1) + [AttemptFor(v, uid, start, WINDOWS[n - 1])]
  }

  function EventAttempts(v: Visit, e: Event): seq<Attempt> {
    if e.start.None? then [] else WindowAttempts(v, e.uid, e.start.value, |WINDOWS|)
  }

  function ListAttempts(v: Visit, events: seq<Event>): seq<Attempt> {
    if events == [] then [] else ListAttempts(v, events[..|events| - 1]) + EventAttempts(v, events[|events| - 1])
  }

  function CalendarAttempts(v: Visit, calendars: seq<Calendar>): seq<Attempt> {
    if calendars == [] then []
    else
      var rest, last := CalendarAttempts(v, calendars[..|calendars| - 1]), calendars[|calendars| - 1];
      if last.Unavailable? then rest else rest + ListAttempts(v, last.events)
  }

  function RunAttempts(visits: seq<Visit>): seq<Attempt> {
    if visits == [] then []
    else
      var v := visits[|visits| - 1];
      RunAttempts(visits[..|visits| - 1]) + CalendarAttempts(v, v.calendars)
  }

  // ---- The worker -------------------------------------------------------------------------

  class ReminderWorker {
    const pollInterval: int
    var marks: map<string, int>
    var sent: seq<Notice>

    ghost function State(): World
      reads this
    {
      World(marks, sent)
    }

    constructor (poll: int)
      ensures pollInterval == poll && State() == EMPTY
    {
      pollInterval := poll;
      marks, sent := map[], [];
    }

    method Try(v: Visit, uid: string, start: int, win: int)
      modifies this
      ensures State() == Attempted(old(State()), pollInterval, AttemptFor(v, uid, start, win))
    {
      var delta := start - v.now;
      var lo, hi := win * MINUTE - pollInterval, win * MINUTE;
      if delta < lo || delta > hi {
        return;
      }
      var key := ReminderKey(v.tenant, uid, win);
      if (uid, win) !in v.faults.unread && key in marks && v.now < marks[key] + DAY {
        return;
      }
      if (uid, win) in v.faults.unsent {
        return;
      }
      sent := sent + [Notice(Reminder(v.tenant, uid, win), start, v.now)];
      if (uid, win) !in v.faults.unmarked {
        marks := marks[key := v.now];
      }
    }

    method TryEvent(v: Visit, e: Event)
      modifies this
      ensures State() == After(old(State()), pollInterval, EventAttempts(v, e))
    {
      hide Attempted;
      if e.start.None? {
        return;
      }
      for k := 0 to |WINDOWS|
        invariant State() == After(old(State()), pollInterval, WindowAttempts(v, e.uid, e.start.value, k))
      {
        Try(v, e.uid, e.start.value, WINDOWS[k]);
        ghost var done := WindowAttempts(v, e.uid, e.start.value, k);
        assert (done + [AttemptFor(v, e.uid, e.start.value, WINDOWS[k])])[..|done|] == done;
      }
    }

    method TryList(v: Visit, events: seq<Event>)
      modifies this
      ensures State() == After(old(State()), pollInterval, ListAttempts(v, events))
    {
      hide After, EventAttempts;
      ghost var was := State();
      AfterNothing(was, pollInterval);
      for i := 0 to |events|
        invariant State() == After(was, pollInterval, ListAttempts(v, events[..i]))
      {
        TryEvent(v, events[i]);
        assert events[..i + 1][..i] == events[..i];
        AfterConcat(was, pollInterval, ListAttempts(v, events[..i]), EventAttempts(v, events[i]));
      }
      assert events[..|events|] == events;
    }

    /** One visit is exactly its attempts, in calendar, event and window order. */
    method TickTenant(v: Visit)
      modifies this
      ensures State() == After(old(State()), pollInterval, CalendarAttempts(v, v.calendars))
    {
      hide After, ListAttempts;
      ghost var was := State();
      AfterNothing(was, pollInterval);
      for i := 0 to |v.calendars|
        invariant State() == After(was, pollInterval, CalendarAttempts(v, v.calendars[..i]))
      {
        assert v.calendars[..i + 1][..i] == v.calendars[..i];
        if v.calendars[i].Unavailable? {
          continue;
        }
        TryList(v, v.calendars[i].events);
        AfterConcat(was, pollInterval, CalendarAttempts(v, v.calendars[..i]), ListAttempts(v, v.calendars[i].events));
      }
      assert v.calendars[..|v.calendars|] == v.calendars;
    }

    /** A whole run of visits. */
    method Run(visits: seq<Visit>)
      modifies this
      ensures State() == After(old(State()), pollInterval, RunAttempts(visits))
    {
      hide After, CalendarAttempts;
      ghost var was := State();
      AfterNothing(was, pollInterval);
      for i := 0 to |visits|
        invariant State() == After(was, pollInterval, RunAttempts(visits[..i]))
      {
        TickTenant(visits[i]);
        assert visits[..i + 1][..i] == visits[..i];
        AfterConcat(was, pollInterval, RunAttempts(visits[..i]), CalendarAttempts(visits[i], visits[i].calendars));
      }
      assert visits[..|visits|] == visits;
    }
  }

  lemma AfterNothing(w: World, poll: int)
    ensures After(w, poll, []) == w
  {
  }

  // ---- One reminder a day -------------------------------------------------------------------

  /** An in-window attempt at the reminder that can be sent. */
  predicate Delivers(poll: int, a: Attempt, r: Reminder) {
    a.reminder == r && InWindow(poll, a) && a.sends
  }

  /** Attempts at `r` can use its mark, and tenant ids have no colon. */
  predicate WellMarked(attempts: seq<Attempt>, r: Reminder) {
    forall i :: 0 <= i < |attempts| ==> AttemptFits(attempts[i], r)
  }

  predicate AttemptFits(a: Attempt, r: Reminder) {
    ColonFree(a.reminder.tenant) && (a.reminder == r ==> a.readable && a.marks)
  }

  /** When the reminder was last sent. */
  function LastSent(sent: seq<Notice>, r: Reminder): Option<int> {
    if sent == [] then None
    else if sent[|sent| - 1].reminder == r then Some(sent[|sent| - 1].at)
    else LastSent(sent[..|sent| - 1], r)
  }

  /** Two notices of the reminder are at least a day apart. */
  predicate Spaced(sent: seq<Notice>, r: Reminder) {
    forall i, j :: 0 <= i < j < |sent| && sent[i].reminder == r && sent[j].reminder == r ==>
      sent[i].at + 86400 <= sent[j].at
  }

  /** The mark is the last notice. */
  predicate MarkIsLast(w: World, r: Reminder) {
    match LastSent(w.sent, r)
    case None => KeyOf(r) !in w.marks
    case Some(at) => KeyOf(r) in w.marks && w.marks[KeyOf(r)] == at
  }

  /** Sent as many minutes before the start as the window says, or less by a poll interval. */
  predicate NoticeInWindow(poll: int, n: Notice) {
    n.start - n.reminder.win * 60 <= n.at <= n.start - n.reminder.win * 60 + poll
  }

  predicate Kept(w: World, poll: int, r: Reminder) {
    MarkIsLast(w, r) && Spaced(w.sent, r) && forall i :: 0 <= i < |w.sent| ==> NoticeInWindow(poll, w.sent[i])
  }

  /** A notice of the reminder less than a day before `now`. */
  ghost predicate Recent(sent: seq<Notice>, r: Reminder, now: int) {
    exists i :: 0 <= i < |sent| && sent[i].reminder == r && now < sent[i].at + DAY
  }

  lemma {:induction false} LastSentIs(sent: seq<Notice>, r: Reminder)
    requires Spaced(sent, r)
    ensures LastSent(sent, r).None? <==> forall i :: 0 <= i < |sent| ==> sent[i].reminder != r
    ensures forall now :: Recent(sent, r, now) <==> LastSent(sent, r).Some? && now < LastSent(sent, r).value + DAY
  {
    if sent != [] {
      var n := |sent| - 1;
      LastSentIs(sent[..n], r);
      assert forall i :: 0 <= i < n ==> sent[..n][i] == sent[i];
      forall now
        ensures Recent(sent, r, now) <==> Recent(sent[..n], r, now) || (sent[n].reminder == r && now < sent[n].at + DAY)
      {
        if Recent(sent[..n], r, now) {
          var i :| 0 <= i < n && sent[..n][i].reminder == r && now < sent[..n][i].at + DAY;
          assert sent[i].reminder == r && now < sent[i].at + DAY;
        }
      }
      if sent[n].reminder == r {
        forall now | Recent(sent[..n], r, now) ensures now < sent[n].at + DAY {
          var i :| 0 <= i < n && sent[..n][i].reminder == r && now < sent[..n][i].at + DAY;
          assert sent[i].at + DAY <= sent[n].at;
        }
      }
    }
  }

  /** A deliverable attempt goes out exactly when the reminder was not sent less than a day before,
      whatever the start it was sent for. */
  lemma SilencedIff(w: World, poll: int, a: Attempt, r: Reminder)
    requires Kept(w, poll, r) && AttemptFits(a, r) && Delivers(poll, a, r)
    ensures Attempted(w, poll, a).sent ==
      if Recent(w.sent, r, a.now) then w.sent else w.sent + [Notice(r, a.start, a.now)]
  {
    hide ReminderKey, Recent, LastSent, Spaced;
    LastSentIs(w.sent, r);
  }

  lemma SpacedSnoc(sent: seq<Notice>, n: Notice, r: Reminder)
    requires Spaced(sent, r) && (n.reminder == r ==> !Recent(sent, r, n.at))
    ensures Spaced(sent + [n], r)
    ensures LastSent(sent + [n], r) == if n.reminder == r then Some(n.at) else LastSent(sent, r)
  {
    var more := sent + [n];
    assert more[..|sent|] == sent;
    forall i, j | 0 <= i < j < |more| && more[i].reminder == r && more[j].reminder == r
      ensures more[i].at + DAY <= more[j].at
    {
      assert more[i] == sent[i];
      assert j == |sent| ==> !(n.at < sent[i].at + DAY);
    }
  }

  lemma AttemptKeeps(w: World, poll: int, a: Attempt, r: Reminder)
    requires ColonFree(r.tenant) && AttemptFits(a, r) && Kept(w, poll, r)
    ensures Kept(Attempted(w, poll, a), poll, r)
  {
    hide ReminderKey, Recent, LastSent, Spaced, ColonFree;
    var n := Notice(a.reminder, a.start, a.now);
    LastSentIs(w.sent, r);
    if KeyOf(a.reminder) == KeyOf(r) {
      KeyInjective(a.reminder.tenant, a.reminder.uid, a.reminder.win, r.tenant, r.uid, r.win);
    }
    if Attempted(w, poll, a) != w {
      SpacedSnoc(w.sent, n, r);
    }
  }

  lemma NothingKept(poll: int, r: Reminder)
    ensures Kept(EMPTY, poll, r)
  {
  }

  /** Whatever fails and however events move, notices of one reminder stay a day apart and inside the
      windows of their starts. */
  lemma {:induction false} AttemptsKeep(poll: int, attempts: seq<Attempt>, r: Reminder)
    requires ColonFree(r.tenant) && WellMarked(attempts, r)
    ensures Kept(After(EMPTY, poll, attempts), poll, r)
  {
    hide Kept, Attempted, AttemptFits;
    if attempts == [] {
      NothingKept(poll, r);
    } else {
      var n := |attempts| - 1;
      AttemptsKeep(poll, attempts[..n], r);
      AttemptKeeps(After(EMPTY, poll, attempts[..n]), poll, attempts[n], r);
    }
  }

  // ---- One reminder for each start ----------------------------------------------------------

  predicate IsFor(n: Notice, r: Reminder, start: int) {
    n.reminder == r && n.start == start
  }

  function Count(sent: seq<Notice>, r: Reminder, start: int): nat {
    if sent == [] then 0
    else Count(sent[..|sent| - 1], r, start) + (if IsFor(sent[|sent| - 1], r, start) then 1 else 0)
  }

  lemma CountSnoc(sent: seq<Notice>, n: Notice, r: Reminder, start: int)
    ensures Count(sent + [n], r, start) == Count(sent, r, start) + (if IsFor(n, r, start) then 1 else 0)
  {
    assert (sent + [n])[..|sent|] == sent;
  }

  lemma {:induction false} CountUnique(sent: seq<Notice>, r: Reminder, start: int)
    requires forall i, j :: 0 <= i < j < |sent| ==> !(IsFor(sent[i], r, start) && IsFor(sent[j], r, start))
    ensures Count(sent, r, start) == if exists i :: 0 <= i < |sent| && IsFor(sent[i], r, start) then 1 else 0
  {
    if sent != [] {
      var n := |sent| - 1;
      CountUnique(sent[..n], r, start);
      assert forall i :: 0 <= i < n ==> sent[..n][i] == sent[i];
    }
  }

  /** Windows are shorter than a day, so no start gets two. */
  lemma KeptCounts(w: World, poll: int, r: Reminder, start: int)
    requires poll < DAY && Kept(w, poll, r)
    ensures Count(w.sent, r, start) == if exists i :: 0 <= i < |w.sent| && IsFor(w.sent[i], r, start) then 1 else 0
  {
    hide LastSent, ReminderKey;
    forall i, j | 0 <= i < j < |w.sent| ensures !(IsFor(w.sent[i], r, start) && IsFor(w.sent[j], r, start)) {
      assert NoticeInWindow(poll, w.sent[i]) && NoticeInWindow(poll, w.sent[j]);
    }
    CountUnique(w.sent, r, start);
  }

  /** Attempt `i` is for that start, and the reminder was not sent less than a day before it. */
  ghost predicate GoesOut(poll: int, attempts: seq<Attempt>, i: nat, r: Reminder, start: int) {
    i < |attempts| && Delivers(poll, attempts[i], r) && attempts[i].start == start &&
    !Recent(After(EMPTY, poll, attempts[..i]).sent, r, attempts[i].now)
  }

  ghost predicate SomeGoesOut(poll: int, attempts: seq<Attempt>, r: Reminder, start: int) {
    exists i: nat :: GoesOut(poll, attempts, i, r, start)
  }

  lemma GoesOutSnoc(poll: int, attempts: seq<Attempt>, r: Reminder, start: int)
    requires attempts != []
    ensures var n := |attempts| - 1;
      SomeGoesOut(poll, attempts, r, start) <==>
        SomeGoesOut(poll, attempts[..n], r, start) || GoesOut(poll, attempts, n, r, start)
  {
    hide Delivers, Recent, After;
    var n := |attempts| - 1;
    forall i: nat | i < n ensures GoesOut(poll, attempts[..n], i, r, start) <==> GoesOut(poll, attempts, i, r, start) {
      assert attempts[..n][..i] == attempts[..i];
    }
    if i: nat :| GoesOut(poll, attempts[..n], i, r, start) {
      assert GoesOut(poll, attempts, i, r, start);
    }
    if i: nat :| GoesOut(poll, attempts, i, r, start) {
      assert i < n ==> GoesOut(poll, attempts[..n], i, r, start);
    }
  }

  lemma AttemptCounts(w: World, poll: int, a: Attempt, r: Reminder, start: int)
    requires Kept(w, poll, r) && AttemptFits(a, r)
    ensures Count(Attempted(w, poll, a).sent, r, start) == Count(w.sent, r, start) +
      if Delivers(poll, a, r) && a.start == start && !Recent(w.sent, r, a.now) then 1 else 0
  {
    hide Kept, Recent, Count, Marked, KeyOf;
    CountSnoc(w.sent, Notice(a.reminder, a.start, a.now), r, start);
    if Delivers(poll, a, r) {
      SilencedIff(w, poll, a, r);
    }
  }

  lemma {:induction false} CountedOnlyIf(poll: int, attempts: seq<Attempt>, r: Reminder, start: int)
    requires ColonFree(r.tenant) && WellMarked(attempts, r)
    ensures Count(After(EMPTY, poll, attempts).sent, r, start) > 0 <==> SomeGoesOut(poll, attempts, r, start)
  {
    hide Attempted, AttemptFits, Count, GoesOut, Kept;
    if attempts == [] {
      NothingGoesOut(poll, r, start);
    } else {
      var n := |attempts| - 1;
      var w := After(EMPTY, poll, attempts[..n]);
      CountedOnlyIf(poll, attempts[..n], r, start);
      AttemptsKeep(poll, attempts[..n], r);
      AttemptCounts(w, poll, attempts[n], r, start);
      GoesOutSnoc(poll, attempts, r, start);
      LastGoesOut(poll, attempts, r, start);
    }
  }

  lemma NothingGoesOut(poll: int, r: Reminder, start: int)
    ensures Count(After(EMPTY, poll, []).sent, r, start) == 0 && !SomeGoesOut(poll, [], r, start)
  {
  }

  lemma LastGoesOut(poll: int, attempts: seq<Attempt>, r: Reminder, start: int)
    requires attempts != []
    ensures var n := |attempts| - 1;
      GoesOut(poll, attempts, n, r, start) <==>
        Delivers(poll, attempts[n], r) && attempts[n].start == start &&
        !Recent(After(EMPTY, poll, attempts[..n]).sent, r, attempts[n].now)
  {
  }

  /** Over any attempts, however events move, each start gets one reminder if some deliverable attempt
      for it finds no reminder less than a day old, and none otherwise. */
  lemma AttemptsSettle(poll: int, attempts: seq<Attempt>, r: Reminder, start: int)
    requires poll < DAY && ColonFree(r.tenant) && WellMarked(attempts, r)
    ensures Count(After(EMPTY, poll, attempts).sent, r, start) == if SomeGoesOut(poll, attempts, r, start) then 1 else 0
  {
    hide Kept, Count, WellMarked, SomeGoesOut;
    AttemptsKeep(poll, attempts, r);
    KeptCounts(After(EMPTY, poll, attempts), poll, r, start);
    CountedOnlyIf(poll, attempts, r, start);
  }

  // ---- What can silence a start -------------------------------------------------------------

  /** Every notice was some attempt's. */
  lemma {:induction false} NoticeFrom(poll: int, attempts: seq<Attempt>, n: Notice) returns (k: nat)
    requires n in After(EMPTY, poll, attempts).sent
    ensures k < |attempts| && Delivers(poll, attempts[k], n.reminder) &&
      attempts[k].start == n.start && attempts[k].now == n.at
    decreases |attempts|
  {
    var m := |attempts| - 1;
    if n in After(EMPTY, poll, attempts[..m]).sent {
      k := NoticeFrom(poll, attempts[..m], n);
    } else {
      k := m;
    }
  }

  /** Attempts under other starts are at least a day before `low`, or come after all for this start. */
  ghost predicate QuietBefore(poll: int, attempts: seq<Attempt>, r: Reminder, start: int, low: int) {
    forall k :: 0 <= k < |attempts| && Delivers(poll, attempts[k], r) && attempts[k].start != start ==>
      attempts[k].now + DAY <= low || LaterThanAll(poll, attempts, r, start, k)
  }

  ghost predicate LaterThanAll(poll: int, attempts: seq<Attempt>, r: Reminder, start: int, k: nat) {
    forall i :: 0 <= i < |attempts| && Delivers(poll, attempts[i], r) && attempts[i].start == start ==> i < k
  }

  /** A deliverable attempt for a start that no other start's reminder silences: one reminder. */
  lemma StartDelivered(poll: int, attempts: seq<Attempt>, i: nat, r: Reminder, start: int, low: int)
    requires poll < DAY && ColonFree(r.tenant) && WellMarked(attempts, r) && QuietBefore(poll, attempts, r, start, low)
    requires i < |attempts| && Delivers(poll, attempts[i], r) && attempts[i].start == start && low <= attempts[i].now
    ensures Count(After(EMPTY, poll, attempts).sent, r, start) == 1
  {
    hide Count, WellMarked, Delivers, After, ColonFree;
    AttemptsSettle(poll, attempts, r, start);
    if Recent(After(EMPTY, poll, attempts[..i]).sent, r, attempts[i].now) {
      var n := RecentNotice(After(EMPTY, poll, attempts[..i]).sent, r, attempts[i].now);
      var k := NoticeFrom(poll, attempts[..i], n);
      assert attempts[..i][k] == attempts[k];
      assert attempts[k].start == start;
      EarlierNotice(poll, attempts, i, n);
    } else {
      assert GoesOut(poll, attempts, i, r, start);
    }
  }

  lemma RecentNotice(sent: seq<Notice>, r: Reminder, now: int) returns (n: Notice)
    requires Recent(sent, r, now)
    ensures n in sent && n.reminder == r && now < n.at + DAY
  {
    var i :| 0 <= i < |sent| && sent[i].reminder == r && now < sent[i].at + DAY;
    n := sent[i];
  }

  lemma {:induction false} SentGrows(poll: int, attempts: seq<Attempt>, i: nat, n: Notice)
    requires i <= |attempts| && n in After(EMPTY, poll, attempts[..i]).sent
    ensures n in After(EMPTY, poll, attempts).sent
    decreases |attempts|
  {
    if i < |attempts| {
      assert attempts[..|attempts| - 1][..i] == attempts[..i];
      SentGrows(poll, attempts[..|attempts| - 1], i, n);
    } else {
      assert attempts[..i] == attempts;
    }
  }

  lemma {:induction false} CountedIfIn(sent: seq<Notice>, n: Notice)
    requires n in sent
    ensures Count(sent, n.reminder, n.start) > 0
  {
    if sent[|sent| - 1] != n {
      CountedIfIn(sent[..|sent| - 1], n);
    }
  }

  lemma EarlierNotice(poll: int, attempts: seq<Attempt>, i: nat, n: Notice)
    requires i <= |attempts| && n in After(EMPTY, poll, attempts[..i]).sent
    ensures Count(After(EMPTY, poll, attempts).sent, n.reminder, n.start) > 0
  {
    hide After, Count;
    SentGrows(poll, attempts, i, n);
    CountedIfIn(After(EMPTY, poll, attempts).sent, n);
  }

  // ---- Two attempts -------------------------------------------------------------------------

  lemma AfterTwo(w: World, poll: int, x: Attempt, y: Attempt)
    ensures After(w, poll, [x, y]) == Attempted(Attempted(w, poll, x), poll, y)
  {
    hide Attempted;
    assert [x, y][..1] == [x] && [x][..0] == [];
    assert After(w, poll, []) == w && After(w, poll, [x]) == Attempted(w, poll, x);
  }

  /** Everything works for this attempt, made at the low edge of its window or `delay` after it. */
  function Working(r: Reminder, start: int, delay: int): Attempt {
    Attempt(r, start - r.win * MINUTE + delay, start, true, true, true)
  }

  lemma CountOne(n: Notice, r: Reminder, start: int)
    ensures Count([n], r, start) == if IsFor(n, r, start) then 1 else 0
  {
    CountSnoc([], n, r, start);
    assert [] + [n] == [n];
  }

  /** An event moved after its reminder to a later start whose window opens within the day gets no
      reminder for the new start. */
  lemma MovedEventIsSilenced(poll: int, r: Reminder, start: int, moved: int)
    requires 0 <= poll && start < moved < start + DAY
    ensures var sent := After(EMPTY, poll, [Working(r, start, 0), Working(r, moved, 0)]).sent;
      Count(sent, r, start) == 1 && Count(sent, r, moved) == 0
  {
    hide ReminderKey, After, Count;
    var x, y := Working(r, start, 0), Working(r, moved, 0);
    AfterTwo(EMPTY, poll, x, y);
    var once := Attempted(EMPTY, poll, x);
    assert once == World(map[KeyOf(r) := x.now], [Notice(r, start, x.now)]);
    assert Attempted(once, poll, y) == once;
    CountOne(Notice(r, start, x.now), r, start);
    CountOne(Notice(r, start, x.now), r, moved);
  }

  /** The limit on the interval is the life of a mark: with a day or more between two ticks in one
      window, the mark of the first is gone and the second sends again. */
  lemma LongIntervalRepeats(poll: int, r: Reminder, start: int)
    requires poll >= DAY && ColonFree(r.tenant)
    ensures var edges := [Working(r, start, 0), Working(r, start, poll)];
      WellMarked(edges, r) && Count(After(EMPTY, poll, edges).sent, r, start) == 2
  {
    hide ReminderKey, ColonFree, After, Count;
    var x, y := Working(r, start, 0), Working(r, start, poll);
    AfterTwo(EMPTY, poll, x, y);
    var once := Attempted(EMPTY, poll, x);
    assert once == World(map[KeyOf(r) := x.now], [Notice(r, start, x.now)]);
    assert Attempted(once, poll, y).sent == [Notice(r, start, x.now)] + [Notice(r, start, y.now)];
    CountOne(Notice(r, start, x.now), r, start);
    CountSnoc([Notice(r, start, x.now)], Notice(r, start, y.now), r, start);
  }

  // ---- From visits to attempts ----------------------------------------------------------------

  /** Where the event is the reminder's, its marks work. */
  predicate EventFits(v: Visit, e: Event, r: Reminder) {
    v.tenant == r.tenant && e.uid == r.uid ==>
      (e.uid, r.win) !in v.faults.unread && (e.uid, r.win) !in v.faults.unmarked
  }

  predicate CalendarFits(v: Visit, c: Calendar, r: Reminder) {
    c.Listed? ==> forall i :: 0 <= i < |c.events| ==> EventFits(v, c.events[i], r)
  }

  predicate VisitFits(v: Visit, r: Reminder) {
    ColonFree(v.tenant) && forall i :: 0 <= i < |v.calendars| ==> CalendarFits(v, v.calendars[i], r)
  }

  lemma WellMarkedConcat(xs: seq<Attempt>, ys: seq<Attempt>, r: Reminder)
    requires WellMarked(xs, r) && WellMarked(ys, r)
    ensures WellMarked(xs + ys, r)
  {
    hide AttemptFits;
  }

  lemma {:induction false} EventWellMarked(v: Visit, e: Event, r: Reminder)
    requires ColonFree(v.tenant) && EventFits(v, e, r)
    ensures WellMarked(EventAttempts(v, e), r)
  {
    hide ColonFree;
    if e.start.Some? {
      assert WINDOWS == [15, 5];
      assert WindowAttempts(v, e.uid, e.start.value, 0) == [];
      assert WindowAttempts(v, e.uid, e.start.value, 1) == [AttemptFor(v, e.uid, e.start.value, 15)];
    }
  }

  lemma {:induction false} ListWellMarked(v: Visit, events: seq<Event>, r: Reminder)
    requires ColonFree(v.tenant) && forall i :: 0 <= i < |events| ==> EventFits(v, events[i], r)
    ensures WellMarked(ListAttempts(v, events), r)
  {
    hide EventFits, ColonFree, WellMarked, EventAttempts;
    if events == [] {
      NoneWellMarked(r);
    } else {
      var n := |events| - 1;
      ListWellMarked(v, events[..n], r);
      EventWellMarked(v, events[n], r);
      WellMarkedConcat(ListAttempts(v, events[..n]), EventAttempts(v, events[n]), r);
    }
  }

  lemma NoneWellMarked(r: Reminder)
    ensures WellMarked([], r)
  {
  }

  lemma {:induction false} CalendarsWellMarked(v: Visit, calendars: seq<Calendar>, r: Reminder)
    requires ColonFree(v.tenant) && forall i :: 0 <= i < |calendars| ==> CalendarFits(v, calendars[i], r)
    ensures WellMarked(CalendarAttempts(v, calendars), r)
  {
    hide EventFits, ColonFree, WellMarked, ListAttempts;
    if calendars == [] {
      NoneWellMarked(r);
    } else {
      var n := |calendars| - 1;
      CalendarsWellMarked(v, calendars[..n], r);
      assert CalendarFits(v, calendars[n], r);
      if calendars[n].Listed? {
        ListWellMarked(v, calendars[n].events, r);
        WellMarkedConcat(CalendarAttempts(v, calendars[..n]), ListAttempts(v, calendars[n].events), r);
      }
    }
  }

  predicate AllFit(visits: seq<Visit>, r: Reminder) {
    forall i :: 0 <= i < |visits| ==> VisitFits(visits[i], r)
  }

  lemma {:induction false} RunWellMarked(visits: seq<Visit>, r: Reminder)
    requires AllFit(visits, r)
    ensures WellMarked(RunAttempts(visits), r)
  {
    hide CalendarFits, ColonFree, WellMarked, CalendarAttempts;
    if visits == [] {
      NoneWellMarked(r);
    } else {
      var n := |visits| - 1;
      RunWellMarked(visits[..n], r);
      assert VisitFits(visits[n], r);
      CalendarsWellMarked(visits[n], visits[n].calendars, r);
      WellMarkedConcat(RunAttempts(visits[..n]), CalendarAttempts(visits[n], visits[n].calendars), r);
    }
  }

  /** However ticks fall, whatever sends fail and however the event moves: no start gets two reminders,
      a start gets one exactly when some deliverable attempt for it finds none less than a day old, and
      reminders for different starts are at least a day apart. */
  lemma AtMostOneReminder(poll: int, visits: seq<Visit>, r: Reminder, start: int)
    requires poll < DAY && ColonFree(r.tenant) && AllFit(visits, r)
    ensures var sent := After(EMPTY, poll, RunAttempts(visits)).sent;
      && Spaced(sent, r)
      && Count(sent, r, start) == if SomeGoesOut(poll, RunAttempts(visits), r, start) then 1 else 0
  {
    hide AllFit, ColonFree, WellMarked, After, RunAttempts, Count, SomeGoesOut, Spaced, MarkIsLast;
    RunWellMarked(visits, r);
    AttemptsKeep(poll, RunAttempts(visits), r);
    AttemptsSettle(poll, RunAttempts(visits), r, start);
  }

  // ---- A tick in every window -----------------------------------------------------------------

  function VisitsOf(visits: seq<Visit>, tenant: string, account: string): seq<Visit> {
    if visits == [] then []
    else
      var rest, last := VisitsOf(visits[..|visits| - 1], tenant, account), visits[|visits| - 1];
      if last.tenant == tenant && last.account == account then rest + [last] else rest
  }

  /** Ticks come at most `poll` apart. */
  predicate Regular(visits: seq<Visit>, poll: int) {
    forall i :: 0 < i < |visits| ==> visits[i].now - visits[i - 1].now <= poll
  }

  /** Regular ticks that begin no later than an instant and reach it hit the `poll` seconds from it. */
  lemma {:induction false} TickInWindow(visits: seq<Visit>, poll: int, low: int) returns (k: nat)
    requires 0 <= poll && visits != [] && Regular(visits, poll)
    requires visits[0].now <= low <= visits[|visits| - 1].now
    ensures k < |visits| && low <= visits[k].now <= low + poll
    decreases |visits|
  {
    var n := |visits| - 1;
    if n == 0 || visits[n - 1].now <= low {
      k := n;
    } else {
      k := TickInWindow(visits[..n], poll, low);
    }
  }

  lemma {:induction false} VisitsOfIn(visits: seq<Visit>, tenant: string, account: string, k: nat) returns (i: nat)
    requires k < |VisitsOf(visits, tenant, account)|
    ensures i < |visits| && visits[i] == VisitsOf(visits, tenant, account)[k] && visits[i].tenant == tenant
    decreases |visits|
  {
    var n := |visits| - 1;
    if k < |VisitsOf(visits[..n], tenant, account)| {
      i := VisitsOfIn(visits[..n], tenant, account, k);
    } else {
      i := n;
    }
  }

  /** Where the event is listed: by calendar and position. */
  predicate ListedAt(v: Visit, uid: string, start: int, c: nat, e: nat) {
    c < |v.calendars| && v.calendars[c].Listed? && e < |v.calendars[c].events| &&
    v.calendars[c].events[e] == Event(uid, Some(start))
  }

  ghost predicate Lists(v: Visit, uid: string, start: int) {
    exists c, e :: ListedAt(v, uid, start, c, e)
  }

  lemma {:induction false} AttemptInList(v: Visit, events: seq<Event>, e: nat, start: int, win: int)
    requires e < |events| && events[e].start == Some(start) && win in WINDOWS
    ensures AttemptFor(v, events[e].uid, start, win) in ListAttempts(v, events)
  {
    var n := |events| - 1;
    if e < n {
      AttemptInList(v, events[..n], e, start, win);
    } else {
      assert WINDOWS == [15, 5];
      var uid := events[e].uid;
      assert WindowAttempts(v, uid, start, 1) == WindowAttempts(v, uid, start, 0) + [AttemptFor(v, uid, start, 15)];
      assert AttemptFor(v, events[e].uid, start, win) in EventAttempts(v, events[e]);
    }
  }

  lemma {:induction false} AttemptInCalendars(v: Visit, calendars: seq<Calendar>, c: nat, e: nat, start: int, win: int)
    requires c < |calendars| && calendars[c].Listed? && e < |calendars[c].events|
    requires calendars[c].events[e].start == Some(start) && win in WINDOWS
    ensures AttemptFor(v, calendars[c].events[e].uid, start, win) in CalendarAttempts(v, calendars)
  {
    var n := |calendars| - 1;
    if c < n {
      AttemptInCalendars(v, calendars[..n], c, e, start, win);
    } else {
      AttemptInList(v, calendars[c].events, e, start, win);
    }
  }

  lemma {:induction false} AttemptInRun(visits: seq<Visit>, i: nat, a: Attempt)
    requires i < |visits| && a in CalendarAttempts(visits[i], visits[i].calendars)
    ensures a in RunAttempts(visits)
  {
    hide CalendarAttempts;
    var n := |visits| - 1;
    if i < n {
      AttemptInRun(visits[..n], i, a);
    }
  }

  predicate InReach(v: Visit, poll: int, low: int) {
    low <= v.now <= low + poll
  }

  /** One account's ticks come at most `poll` apart, begin no later than the low edge of the window
      and reach it; the event is listed with that start whenever a tick falls in the window; nothing
      fails for it; and no reminder for another of its starts comes in the day before.  Then it gets
      exactly one reminder for that start and window, whatever else the worker visits. */
  lemma ExactlyOneReminder(poll: int, visits: seq<Visit>, account: string, r: Reminder, start: int)
    requires 0 <= poll < DAY && r.win in {15, 5} && AllFit(visits, r)
    requires forall i :: 0 <= i < |visits| ==> (r.uid, r.win) !in visits[i].faults.unsent
    requires ColonFree(r.tenant) && QuietBefore(poll, RunAttempts(visits), r, start, start - r.win * MINUTE)
    requires var mine := VisitsOf(visits, r.tenant, account);
      var low := start - r.win * MINUTE;
      && mine != [] && Regular(mine, poll) && mine[0].now <= low <= mine[|mine| - 1].now
      && forall k :: 0 <= k < |mine| && InReach(mine[k], poll, low) ==> Lists(mine[k], r.uid, start)
    ensures Count(After(EMPTY, poll, RunAttempts(visits)).sent, r, start) == 1
  {
    hide AllFit, ColonFree, After, RunAttempts, Count, VisitsOf, CalendarAttempts, Regular, QuietBefore, WellMarked;
    var mine := VisitsOf(visits, r.tenant, account);
    var low := start - r.win * MINUTE;
    var k := TickInWindow(mine, poll, low);
    var i := VisitsOfIn(visits, r.tenant, account, k);
    assert InReach(mine[k], poll, low);
    var c, e :| ListedAt(mine[k], r.uid, start, c, e);
    AttemptInCalendars(visits[i], visits[i].calendars, c, e, start, r.win);
    var a := AttemptFor(visits[i], r.uid, start, r.win);
    AttemptInRun(visits, i, a);
    assert Delivers(poll, a, r);
    var at :| 0 <= at < |RunAttempts(visits)| && RunAttempts(visits)[at] == a;
    RunWellMarked(visits, r);
    StartDelivered(poll, RunAttempts(visits), at, r, start, low);
  }

  /** An event listed under one start only is never silenced by another. */
  lemma UnmovedIsQuiet(poll: int, attempts: seq<Attempt>, r: Reminder, start: int, low: int)
    requires forall k :: 0 <= k < |attempts| && attempts[k].reminder == r ==> attempts[k].start == start
    ensures QuietBefore(poll, attempts, r, start, low)
  {
  }
}
