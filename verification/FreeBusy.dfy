/** Free/busy aggregation of internal/calendarbridge/freebusy.go.

    Instants are integers.  `time.Parse` is a parameter, `parse`, from a layout and a text to the
    instant the text denotes in that layout.
  */
module FreeBusy {
  import opened Wrappers

  datatype Event = Event(start: string, end: string)

  datatype Interval = Interval(start: int, end: int)

  /** Go's zero `time.Time`. */
  const ZERO_TIME: int := 0

  predicate Covers(iv: Interval, x: int) {
    iv.start <= x < iv.end
  }

  predicate Busy(ivs: seq<Interval>, x: int) {
    exists iv :: iv in ivs && Covers(iv, x)
  }

  /** Both lists mark the same instants busy. */
  ghost predicate SameCoverage(a: seq<Interval>, b: seq<Interval>) {
    forall x :: Busy(a, x) <==> Busy(b, x)
  }

  predicate NonEmpty(ivs: seq<Interval>) {
    forall iv :: iv in ivs ==> iv.start < iv.end
  }

  /** A positive gap before each next interval. */
  predicate Separated(ivs: seq<Interval>) {
    forall i, j :: 0 <= i < j < |ivs| ==> ivs[i].end < ivs[j].start
  }

  /** Non-empty intervals in order, with a positive gap before each next one. */
  predicate Canonical(ivs: seq<Interval>) {
    NonEmpty(ivs) && Separated(ivs)
  }

  // ---- Parsing --------------------------------------------------------------------------

  const FORMATS: seq<string> := ["2006-01-02T15:04:05Z07:00", "20060102T150405Z", "20060102T150405", "20060102"]

  /** The instant in the first layout that accepts the text. */
  function ParseTime(parse: (string, string) -> Option<int>, formats: seq<string>, s: string): (r: Option<int>)
    ensures r.None? <==> forall i :: 0 <= i < |formats| ==> parse(formats[i], s).None?
    ensures r.Some? ==>
      exists i :: 0 <= i < |formats| && FirstAccepts(parse, formats, s, i) && parse(formats[i], s) == r
  {
    if formats == [] then None
    else if parse(formats[0], s).Some? then
      assert FirstAccepts(parse, formats, s, 0);
      parse(formats[0], s)
    else
      var r := ParseTime(parse, formats[1..], s);
      assert forall i :: 0 < i < |formats| ==> formats[i] == formats[1..][i - 1];
      assert forall i :: 0 <= i < |formats| - 1 && FirstAccepts(parse, formats[1..], s, i) ==>
        FirstAccepts(parse, formats, s, i + 1);
      r
  }

  predicate FirstAccepts(parse: (string, string) -> Option<int>, formats: seq<string>, s: string, i: nat)
    requires i < |formats|
  {
    parse(formats[i], s).Some? && forall k :: 0 <= k < i ==> parse(formats[k], s).None?
  }

  /** `parseEventBounds`: both bounds parse and are ordered. */
  function ParseEventBounds(parse: (string, string) -> Option<int>, e: Event): (r: Option<Interval>)
    ensures r.Some? ==> r.value.start < r.value.end
    ensures forall s, t :: r == Some(Interval(s, t)) <==>
      s < t && ParseTime(parse, FORMATS, e.start) == Some(s) && ParseTime(parse, FORMATS, e.end) == Some(t)
  {
    match (ParseTime(parse, FORMATS, e.start), ParseTime(parse, FORMATS, e.end))
    case (Some(s), Some(t)) => if s < t then Some(Interval(s, t)) else None
    case (_, _) => None
  }

  predicate EventCovers(parse: (string, string) -> Option<int>, e: Event, x: int) {
    var b := ParseEventBounds(parse, e);
    b.Some? && Covers(b.value, x)
  }

  predicate AnyEventCovers(parse: (string, string) -> Option<int>, events: seq<Event>, x: int) {
    exists e :: e in events && EventCovers(parse, e, x)
  }

  // ---- Sorting --------------------------------------------------------------------------

  predicate SortedByStart(ivs: seq<Interval>) {
    forall i, j :: 0 <= i < j < |ivs| ==> ivs[i].start <= ivs[j].start
  }

  function InsertByStart(iv: Interval, ivs: seq<Interval>): (r: seq<Interval>)
    ensures multiset(r) == multiset(ivs) + multiset{iv}
  {
    if ivs == [] || iv.start <= ivs[0].start then [iv] + ivs
    else
      assert ivs == [ivs[0]] + ivs[1..];
      [ivs[0]] + InsertByStart(iv, ivs[1..])
  }

  lemma {:induction false} InsertSorted(iv: Interval, ivs: seq<Interval>)
    requires SortedByStart(ivs)
    ensures SortedByStart(InsertByStart(iv, ivs))
  {
    if ivs != [] && iv.start > ivs[0].start {
      InsertSorted(iv, ivs[1..]);
      var rest := InsertByStart(iv, ivs[1..]);
      forall j | 0 <= j < |rest| ensures ivs[0].start <= rest[j].start {
        assert rest[j] in multiset(ivs[1..]) + multiset{iv};
      }
    }
  }

  function Sorted(ivs: seq<Interval>): (r: seq<Interval>)
    ensures multiset(r) == multiset(ivs)
  {
    if ivs == [] then [] else
      assert ivs == [ivs[0]] + ivs[1..];
      InsertByStart(ivs[0], Sorted(ivs[1..]))
  }

  lemma {:induction false} SortedIsSorted(ivs: seq<Interval>)
    ensures SortedByStart(Sorted(ivs))
  {
    if ivs != [] {
      SortedIsSorted(ivs[1..]);
      InsertSorted(ivs[0], Sorted(ivs[1..]));
    }
  }

  /** `sort.Slice` on the start times: in place, some order of the same intervals. */
  method SortInPlace(a: array<Interval>)
    modifies a
    ensures SortedByStart(a[..]) && multiset(a[..]) == multiset(old(a[..]))
  {
    var s := Sorted(a[..]);
    SortedIsSorted(a[..]);
    assert |s| == |multiset(s)| == |multiset(a[..])| == a.Length;
    forall i | 0 <= i < a.Length { a[i] := s[i]; }
    assert a[..] == s;
  }

  lemma SameElementsSameCoverage(a: seq<Interval>, b: seq<Interval>)
    requires multiset(a) == multiset(b)
    ensures SameCoverage(a, b) && (NonEmpty(a) <==> NonEmpty(b))
  {
    assert forall iv :: iv in a <==> iv in multiset(a);
    assert forall iv :: iv in b <==> iv in multiset(b);
  }

  // ---- Merging --------------------------------------------------------------------------

  lemma BusySnoc(ivs: seq<Interval>, iv: Interval)
    ensures forall x :: Busy(ivs + [iv], x) <==> Busy(ivs, x) || Covers(iv, x)
  {
    assert forall v :: v in ivs + [iv] <==> v in ivs || v == iv;
  }

  /** What one turn of the merging loop does to the list built so far. */
  function Fold(out: seq<Interval>, cur: Interval): seq<Interval>
    requires out != []
  {
    var last := |out| - 1;
    if cur.start <= out[last].end then
      if cur.end > out[last].end then out[last := out[last].(end := cur.end)] else out
    else out + [cur]
  }

  lemma FoldCoverage(out: seq<Interval>, cur: Interval)
    requires out != [] && out[|out| - 1].start <= cur.start
    ensures forall x :: Busy(Fold(out, cur), x) <==> Busy(out, x) || Covers(cur, x)
  {
    hide Busy;
    var n := |out| - 1;
    var last := out[n];
    assert out == out[..n] + [last];
    assert out[n := last.(end := cur.end)] == out[..n] + [last.(end := cur.end)];
    BusySnoc(out[..n], last);
    BusySnoc(out[..n], last.(end := cur.end));
    BusySnoc(out, cur);
  }

  /** The list under construction: sorted and separated. */
  predicate Merged(out: seq<Interval>) {
    out != [] && SortedByStart(out) && Separated(out)
  }

  lemma FoldKeepsMerged(out: seq<Interval>, cur: Interval)
    requires Merged(out) && out[|out| - 1].start <= cur.start
    ensures Merged(Fold(out, cur)) && Fold(out, cur)[|Fold(out, cur)| - 1].start <= cur.start
  {
  }

  lemma FoldKeepsNonEmpty(out: seq<Interval>, cur: Interval)
    requires out != [] && NonEmpty(out) && cur.start < cur.end && out[|out| - 1].start <= cur.start
    ensures NonEmpty(Fold(out, cur))
  {
    var f := Fold(out, cur);
    forall iv | iv in f ensures iv.start < iv.end {
      var k :| 0 <= k < |f| && f[k] == iv;
      assert k < |out| ==> out[k] in out;
    }
  }

  /** The loop of `mergeIntervals` over the sorted slice. */
  method MergeSorted(s: seq<Interval>) returns (out: seq<Interval>)
    requires s != [] && SortedByStart(s)
    ensures Separated(out) && SameCoverage(out, s) && (NonEmpty(s) ==> NonEmpty(out))
  {
    hide SameCoverage, NonEmpty;
    out := [s[0]];
    assert s[..1] == [s[0]];
    StartMerging(s);
    for i := 1 to |s|
      invariant Merged(out) && out[|out| - 1].start <= s[i - 1].start
      invariant SameCoverage(out, s[..i]) && (NonEmpty(s) ==> NonEmpty(out))
    {
      var cur := s[i];
      MergeNext(s, i, out);
      var last := |out| - 1;
      if cur.start <= out[last].end {
        if cur.end > out[last].end {
          out := out[last := out[last].(end := cur.end)];
        }
        continue;
      }
      out := out + [cur];
    }
    assert s[..|s|] == s;
  }

  lemma StartMerging(s: seq<Interval>)
    requires s != []
    ensures Merged([s[0]]) && SameCoverage([s[0]], [s[0]]) && (NonEmpty(s) ==> NonEmpty([s[0]]))
  {
  }

  lemma MergeNext(s: seq<Interval>, i: nat, out: seq<Interval>)
    requires 0 < i < |s| && SortedByStart(s) && Merged(out) && out[|out| - 1].start <= s[i - 1].start
    requires SameCoverage(out, s[..i]) && (NonEmpty(s) ==> NonEmpty(out))
    ensures var f := Fold(out, s[i]);
      && Merged(f) && f[|f| - 1].start <= s[i].start
      && SameCoverage(f, s[..i + 1]) && (NonEmpty(s) ==> NonEmpty(f))
  {
    hide Busy, Fold;
    FoldCoverage(out, s[i]);
    FoldKeepsMerged(out, s[i]);
    BusySnoc(s[..i], s[i]);
    assert s[..i + 1] == s[..i] + [s[i]];
    if NonEmpty(s) {
      assert s[i] in s;
      FoldKeepsNonEmpty(out, s[i]);
    }
  }

  /** `mergeIntervals`: sorts its argument in place, then folds it into a separated cover, which is
      canonical when no interval is empty. */
  method MergeIntervals(a: array<Interval>) returns (out: seq<Interval>)
    modifies a
    ensures Separated(out) && SameCoverage(out, old(a[..])) && (NonEmpty(old(a[..])) ==> Canonical(out))
  {
    if a.Length == 0 {
      return [];
    }
    SortInPlace(a);
    SameElementsSameCoverage(a[..], old(a[..]));
    hide Busy, NonEmpty;
    out := MergeSorted(a[..]);
  }

  lemma AnyEventSnoc(parse: (string, string) -> Option<int>, events: seq<Event>, e: Event)
    ensures forall x :: AnyEventCovers(parse, events + [e], x) <==>
      AnyEventCovers(parse, events, x) || EventCovers(parse, e, x)
  {
    assert forall f :: f in events + [e] <==> f in events || f == e;
  }

  // ---- Compute --------------------------------------------------------------------------

  datatype Result = Published(busy: seq<Interval>) | InvalidInput

  /** `Compute`: an instant is reported busy exactly when it lies in the window and some event
      covers it, and the report is in canonical form. */
  method Compute(parse: (string, string) -> Option<int>, events: seq<Event>, start: int, end: int) returns (r: Result)
    ensures r.InvalidInput? <==> start == ZERO_TIME || end == ZERO_TIME || end <= start
    ensures r.Published? ==> Canonical(r.busy)
    ensures r.Published? ==> forall x :: Busy(r.busy, x) <==> start <= x < end && AnyEventCovers(parse, events, x)
  {
    if start == ZERO_TIME || end == ZERO_TIME || end <= start {
      return InvalidInput;
    }
    var intervals: seq<Interval> := [];
    for i := 0 to |events|
      invariant NonEmpty(intervals)
      invariant forall x :: Busy(intervals, x) <==> start <= x < end && AnyEventCovers(parse, events[..i], x)
    {
      AnyEventSnoc(parse, events[..i], events[i]);
      assert events[..i + 1] == events[..i] + [events[i]];
      var b := ParseEventBounds(parse, events[i]);
      if b.None? {
        continue;
      }
      var s := if b.value.start < start then start else b.value.start;
      var t := if b.value.end > end then end else b.value.end;
      assert forall x :: Covers(Interval(s, t), x) <==> start <= x < end && EventCovers(parse, events[i], x);
      if t <= s {
        continue;
      }
      BusySnoc(intervals, Interval(s, t));
      intervals := intervals + [Interval(s, t)];
    }
    assert events[..|events|] == events;
    var a := new Interval[|intervals|](i requires 0 <= i < |intervals| => intervals[i]);
    assert a[..] == intervals;
    var merged := MergeIntervals(a);
    return Published(merged);
  }

  // ---- Canonical form -------------------------------------------------------------------

  /** The coverage of a canonical list determines the list. */
  lemma {:induction false} CanonicalUnique(a: seq<Interval>, b: seq<Interval>)
    requires Canonical(a) && Canonical(b) && SameCoverage(a, b)
    ensures a == b
  {
    EmptyIffFree(a);
    EmptyIffFree(b);
    assert a == [] <==> b == [];
    if a != [] {
      FirstSame(a, b);
      TailCoverage(a);
      TailCoverage(b);
      CanonicalUnique(a[1..], b[1..]);
      assert a == [a[0]] + a[1..] && b == [b[0]] + b[1..];
    }
  }

  lemma EmptyIffFree(a: seq<Interval>)
    requires Canonical(a)
    ensures a == [] <==> forall x :: !Busy(a, x)
  {
    if a != [] {
      assert Covers(a[0], a[0].start);
      assert Busy(a, a[0].start);
    }
  }

  lemma FirstSame(a: seq<Interval>, b: seq<Interval>)
    requires a != [] && b != [] && Canonical(a) && Canonical(b) && SameCoverage(a, b)
    ensures a[0] == b[0]
  {
    StartLeast(a, b);
    StartLeast(b, a);
    assert a[0].start == b[0].start;
    EndGap(a);
    EndGap(b);
    EndLeast(a, b);
    EndLeast(b, a);
  }

  lemma EndLeast(a: seq<Interval>, b: seq<Interval>)
    requires a != [] && b != [] && a[0].start == b[0].start && NonEmpty(a) && SameCoverage(a, b) && !Busy(a, a[0].end)
    ensures b[0].end <= a[0].end
  {
    assert a[0] in a && b[0] in b;
    assert a[0].end < b[0].end ==> Covers(b[0], a[0].end);
  }

  lemma StartLeast(a: seq<Interval>, b: seq<Interval>)
    requires a != [] && b != [] && Canonical(a) && Canonical(b) && SameCoverage(a, b)
    ensures a[0].start <= b[0].start
  {
    assert Covers(b[0], b[0].start);
    assert Busy(a, b[0].start);
    var iv :| iv in a && Covers(iv, b[0].start);
    var k :| 0 <= k < |a| && a[k] == iv;
    assert a[0] in a;
  }

  /** The instant at which the first interval ends is free. */
  lemma EndGap(a: seq<Interval>)
    requires a != [] && Canonical(a)
    ensures !Busy(a, a[0].end)
  {
    forall iv | iv in a ensures !Covers(iv, a[0].end) {
      var k :| 0 <= k < |a| && a[k] == iv;
    }
  }

  lemma TailCoverage(a: seq<Interval>)
    requires a != [] && Canonical(a)
    ensures Canonical(a[1..])
    ensures forall x :: Busy(a[1..], x) <==> Busy(a, x) && a[0].end <= x
  {
    forall x ensures Busy(a[1..], x) <==> Busy(a, x) && a[0].end <= x {
      if Busy(a[1..], x) {
        var iv :| iv in a[1..] && Covers(iv, x);
        var k :| 0 <= k < |a[1..]| && a[1..][k] == iv;
        assert a[k + 1] == iv;
      }
      if Busy(a, x) && a[0].end <= x {
        var iv :| iv in a && Covers(iv, x);
        var k :| 0 <= k < |a| && a[k] == iv;
        assert a[1..][k - 1] == iv;
      }
    }
  }

  /** Two event lists that cover the same instants are published identically. */
  lemma SameEventsSameReport(parse: (string, string) -> Option<int>, e: seq<Event>, f: seq<Event>, start: int, end: int,
                             a: seq<Interval>, b: seq<Interval>)
    requires forall x :: start <= x < end ==> (AnyEventCovers(parse, e, x) <==> AnyEventCovers(parse, f, x))
    requires Canonical(a) && forall x :: Busy(a, x) <==> start <= x < end && AnyEventCovers(parse, e, x)
    requires Canonical(b) && forall x :: Busy(b, x) <==> start <= x < end && AnyEventCovers(parse, f, x)
    ensures a == b
  {
    CanonicalUnique(a, b);
  }

  /** The index of an interval of `b` that covers the start of `a[i]`. */
  ghost function Witness(a: seq<Interval>, b: seq<Interval>, i: nat): (k: nat)
    requires Canonical(a) && SameCoverage(a, b) && i < |a|
    ensures k < |b| && Covers(b[k], a[i].start)
  {
    assert Covers(a[i], a[i].start);
    assert Busy(a, a[i].start);
    var iv :| iv in b && Covers(iv, a[i].start);
    var k :| 0 <= k < |b| && b[k] == iv;
    k
  }

  /** One interval cannot reach across a gap. */
  lemma WitnessInjective(a: seq<Interval>, b: seq<Interval>, i: nat, j: nat)
    requires Canonical(a) && SameCoverage(a, b) && i < j < |a|
    ensures Witness(a, b, i) != Witness(a, b, j)
  {
    var k := Witness(a, b, i);
    assert !Busy(a, a[i].end) by {
      forall iv | iv in a ensures !Covers(iv, a[i].end) {
        var m :| 0 <= m < |a| && a[m] == iv;
      }
    }
    assert a[i] in a && b[k] in b;
    assert k == Witness(a, b, j) ==> Covers(b[k], a[i].end);
  }

  /** No list with the same coverage, canonical or not, is shorter. */
  lemma CanonicalShortest(a: seq<Interval>, b: seq<Interval>)
    requires Canonical(a) && SameCoverage(a, b)
    ensures |a| <= |b|
  {
    var f := seq(|a|, i requires 0 <= i < |a| => Witness(a, b, i));
    forall i, j | 0 <= i < j < |a| ensures f[i] != f[j] { WitnessInjective(a, b, i, j); }
    Pigeonhole(f, |b|);
  }

  lemma {:induction false} Pigeonhole(f: seq<nat>, n: nat)
    requires forall i :: 0 <= i < |f| ==> f[i] < n
    requires forall i, j :: 0 <= i < j < |f| ==> f[i] != f[j]
    ensures |f| <= n
    decreases n
  {
    if f != [] {
      assert f[0] < n;
      if i :| 0 <= i < |f| && f[i] == n - 1 {
        var g := f[..i] + f[i + 1..];
        Pigeonhole(g, n - 1);
      } else {
        Pigeonhole(f, n - 1);
      }
    }
  }
}
