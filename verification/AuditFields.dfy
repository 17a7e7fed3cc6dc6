/** Exactly when the hashed payload determines the fields of an entry. */
module AuditFields {
  import opened CanonicalJson
  import opened Audit

  // ---- The payload, in two parts ----------------------------------------------------------

  /** The text fields before the metadata. */
  function Front(e: Entry): seq<string> {
    [e.tenant, e.actor, e.actorType, e.action, e.resourceType, e.resourceId]
  }

  function WithFront(e: Entry, f: seq<string>): Entry
    requires |f| == 6
  {
    e.(tenant := f[0], actor := f[1], actorType := f[2], action := f[3], resourceType := f[4], resourceId := f[5])
  }

  ghost function Meta(lib: Primitives, e: Entry): string {
    CanonicalText(e.metadata, lib.quote)
  }

  /** The metadata and what follows it. */
  ghost function Rest(lib: Primitives, e: Entry): string {
    Meta(lib, e) + "|" + e.ip + "|" + e.userAgent
  }

  /** What an entry contributes to its payload. */
  ghost function Text(lib: Primitives, e: Entry): string {
    Joined(Front(e)) + "|" + Rest(lib, e)
  }

  lemma {:induction false} JoinedConcat(f: seq<string>, g: seq<string>)
    requires f != [] && g != []
    ensures Joined(f + g) == Joined(f) + "|" + Joined(g)
  {
    if |f| == 1 {
      assert (f + g)[1..] == g;
    } else {
      assert (f + g)[1..] == f[1..] + g;
      JoinedConcat(f[1..], g);
      assert f[0] + "|" + (Joined(f[1..]) + "|" + Joined(g)) == f[0] + "|" + Joined(f[1..]) + "|" + Joined(g);
    }
  }

  lemma PayloadIs(lib: Primitives, prev: string, e: Entry)
    ensures Payload(lib, prev, e) == prev + "|" + Text(lib, e)
  {
    hide Joined, CanonicalText;
    var after := [Meta(lib, e), e.ip, e.userAgent];
    assert Fields(lib, prev, e) == [prev] + (Front(e) + after);
    JoinedConcat([prev], Front(e) + after);
    JoinedConcat(Front(e), after);
    JoinedTail(after);
    JoinedOne(prev);
  }

  lemma JoinedOne(s: string)
    ensures Joined([s]) == s
  {
  }

  lemma SameTextIff(lib: Primitives, prev: string, d: Entry, e: Entry)
    ensures Payload(lib, prev, d) == Payload(lib, prev, e) <==> Text(lib, d) == Text(lib, e)
  {
    hide Payload, Text;
    PayloadIs(lib, prev, d);
    PayloadIs(lib, prev, e);
    var p := prev + "|";
    assert (p + Text(lib, d))[|p|..] == Text(lib, d) && (p + Text(lib, e))[|p|..] == Text(lib, e);
  }

  // ---- Counting pipes -----------------------------------------------------------------------

  function Pipes(s: string): nat {
    if s == [] then 0 else (if s[0] == '|' then 1 else 0) + Pipes(s[1..])
  }

  lemma {:induction false} PipesConcat(a: string, b: string)
    ensures Pipes(a + b) == Pipes(a) + Pipes(b)
  {
    if a == [] {
      assert a + b == b;
    } else {
      assert (a + b)[1..] == a[1..] + b;
      PipesConcat(a[1..], b);
    }
  }

  lemma {:induction false} PipeFreeIff(s: string)
    ensures PipeFree(s) <==> Pipes(s) == 0
  {
    if s != [] {
      PipeFreeIff(s[1..]);
      assert s == [s[0]] + s[1..];
    }
  }

  predicate AllPipeFree(f: seq<string>) {
    forall i :: 0 <= i < |f| ==> PipeFree(f[i])
  }

  /** Joining needs one pipe less than there are fields, and has more only from the fields. */
  lemma {:induction false} JoinedPipes(f: seq<string>)
    requires f != []
    ensures Pipes(Joined(f)) >= |f| - 1
    ensures Pipes(Joined(f)) == |f| - 1 <==> AllPipeFree(f)
  {
    hide PipeFree, Pipes;
    PipeFreeIff(f[0]);
    if |f| > 1 {
      JoinedPipes(f[1..]);
      OnePipe();
      PipesConcat(f[0], "|");
      PipesConcat(f[0] + "|", Joined(f[1..]));
      assert forall i :: 0 < i < |f| ==> f[i] == f[1..][i - 1];
      if AllPipeFree(f[1..]) && PipeFree(f[0]) {
        assert AllPipeFree(f);
      }
      if AllPipeFree(f) {
        assert forall i :: 0 <= i < |f[1..]| ==> f[1..][i] == f[i + 1];
      }
    }
  }

  lemma OnePipe()
    ensures Pipes("|") == 1
  {
    assert "|"[1..] == "";
  }

  /** Fields without pipes are recovered, whatever the others hold. */
  lemma JoinedUnique(f: seq<string>, g: seq<string>)
    requires f != [] && |f| == |g| && AllPipeFree(g) && Joined(f) == Joined(g)
    ensures f == g
  {
    hide Joined, Pipes, PipeFree;
    JoinedPipes(f);
    JoinedPipes(g);
    var n := |f| - 1;
    JoinedHeads(f, g, n);
    assert f[n..] == [f[n]] && g[n..] == [g[n]];
    JoinedOne(f[n]);
    JoinedOne(g[n]);
    assert f == f[..n] + [f[n]] && g == g[..n] + [g[n]];
  }

  /** As many fields without pipes never reach further than fields that may hold some. */
  lemma PlainIsShorter(f: seq<string>, x: string, g: seq<string>, y: string)
    requires f != [] && |f| == |g| && AllPipeFree(g) && Joined(f) + "|" + x == Joined(g) + "|" + y
    ensures |Joined(g)| <= |Joined(f)|
  {
    hide Joined, Pipes;
    JoinedPipes(f);
    JoinedPipes(g);
    var a, b := Joined(f), Joined(g);
    if |a| < |b| {
      var s := a + "|" + x;
      assert s[..|a| + 1] == a + "|" && s[..|b|] == b;
      var z := b[|a| + 1..];
      assert b == a + "|" + z;
      OnePipe();
      PipesConcat(a, "|");
      PipesConcat(a + "|", z);
    }
  }

  // ---- Moving text across a separator -------------------------------------------------------

  lemma PipeAt(s: string) returns (a: string, b: string)
    requires !PipeFree(s)
    ensures s == a + "|" + b
  {
    var i :| 0 <= i < |s| && s[i] == '|';
    a, b := s[..i], s[i + 1..];
  }

  lemma {:induction false} ShiftKeepsJoined(f: seq<string>, i: nat, a: string, b: string)
    requires i + 1 < |f| && f[i] == a + "|" + b
    ensures Joined(f[i := a][i + 1 := b + "|" + f[i + 1]]) == Joined(f)
  {
    var g := f[i := a][i + 1 := b + "|" + f[i + 1]];
    if i == 0 {
      assert g[1..] == [b + "|" + f[1]] + f[2..] && f[1..] == [f[1]] + f[2..];
      if |f| == 2 {
        assert g[1..] == [b + "|" + f[1]] && f[1..] == [f[1]];
        assert a + "|" + (b + "|" + f[1]) == a + "|" + b + "|" + f[1];
      } else {
        assert g[1..][1..] == f[2..] && f[1..][1..] == f[2..];
        var t := Joined(f[2..]);
        assert a + "|" + (b + "|" + f[1] + "|" + t) == a + "|" + b + "|" + (f[1] + "|" + t);
      }
    } else {
      assert g[1..] == f[1..][i - 1 := a][i := b + "|" + f[1..][i]];
      ShiftKeepsJoined(f[1..], i - 1, a, b);
    }
  }

  /** Front fields of which one but the first holds a pipe join like other ones with the same first. */
  lemma ShiftedFront(f: seq<string>, i: nat) returns (g: seq<string>)
    requires |f| == 6 && i < 6 && !PipeFree(f[i])
    ensures |g| == 6 && g != f && Joined(g) == Joined(f) && (i > 0 ==> g[0] == f[0])
  {
    hide Joined;
    var a, b := PipeAt(f[i]);
    if i < 5 {
      g := f[i := a][i + 1 := b + "|" + f[i + 1]];
      ShiftKeepsJoined(f, i, a, b);
      assert |g[i]| < |f[i]|;
    } else {
      g := f[4 := f[4] + "|" + a][5 := b];
      ShiftKeepsJoined(g, 4, f[4], a);
      assert g[4 := f[4]][5 := a + "|" + g[5]] == f;
      assert |g[5]| < |f[5]|;
    }
  }

  lemma WithFrontIs(lib: Primitives, e: Entry, f: seq<string>)
    requires |f| == 6
    ensures Front(WithFront(e, f)) == f && Rest(lib, WithFront(e, f)) == Rest(lib, e)
    ensures SameFields(lib, WithFront(e, f), e) ==> f == Front(e)
  {
    hide CanonicalText;
  }

  // ---- The exact condition, over all entries ------------------------------------------------

  /** Every entry of the same text has the same fields. */
  ghost predicate Determined(lib: Primitives, e: Entry) {
    forall d: Entry :: Text(lib, d) == Text(lib, e) ==> SameFields(lib, d, e)
  }

  /** The text is the metadata of some entry. */
  ghost predicate IsCanonical(lib: Primitives, t: string) {
    exists m: Metadata :: CanonicalText(m, lib.quote) == t
  }

  /** Cut just after a pipe, or at the start. */
  predicate AfterPipe(x: string) {
    x == "" || x[|x| - 1] == '|'
  }

  /** Cut just before a pipe, or at the end. */
  predicate BeforePipe(y: string) {
    y == "" || y[0] == '|'
  }

  /** A metadata text stands between pipes inside `m`. */
  ghost predicate Inner(lib: Primitives, m: string, x: string, t: string, y: string) {
    m == x + t + y && AfterPipe(x) && BeforePipe(y) && IsCanonical(lib, t)
  }

  /** No metadata text but `m` itself does. */
  ghost predicate OneText(lib: Primitives, m: string) {
    forall x, t, y :: Inner(lib, m, x, t, y) ==> t == m
  }

  lemma InnerHasPipe(m: string, x: string, t: string, y: string)
    requires m == x + t + y && AfterPipe(x) && BeforePipe(y) && t != m
    ensures !PipeFree(m)
  {
    if x != "" {
      assert m[|x| - 1] == '|';
    } else {
      assert t + y == m && m[|t|] == '|';
    }
  }

  lemma PlainIsOneText(lib: Primitives, m: string)
    requires PipeFree(m)
    ensures OneText(lib, m)
  {
    hide IsCanonical, PipeFree;
    forall x, t, y | Inner(lib, m, x, t, y) ensures t == m {
      if t != m { InnerHasPipe(m, x, t, y); }
    }
  }

  lemma CutSides(a: string, x: string, b: string, y: string)
    requires a + "|" + x == b + "|" + y && |b| <= |a|
    ensures AfterPipe((a + "|")[|b| + 1..]) && y == (a + "|")[|b| + 1..] + x
    ensures (a + "|")[|b| + 1..] == "" ==> a == b
  {
    var s := a + "|" + x;
    assert s[|b| + 1..] == y;
    assert s == (a + "|")[..|b| + 1] + ((a + "|")[|b| + 1..] + x);
    assert (a + "|")[..|b| + 1] == s[..|b| + 1] == b + "|";
    if |a| == |b| {
      assert a == s[..|a|] && b == s[..|b|];
    }
  }

  lemma CutTail(x: string, a: string, y: string, b: string)
    requires x + "|" + a == y + "|" + b && |b| <= |a|
    ensures BeforePipe(("|" + a)[..|a| - |b|]) && y == x + ("|" + a)[..|a| - |b|]
    ensures |a| == |b| ==> x == y && a == b
  {
    var s := x + "|" + a;
    assert s == x + ("|" + a);
    assert |y| == |x| + |a| - |b|;
    assert s[..|y|] == y;
    assert s[|x| + 1..] == a && s[|y| + 1..] == b;
  }

  /** No field but the metadata holds a pipe, and one metadata text stands between pipes in it. */
  ghost predicate Readable(lib: Primitives, e: Entry) {
    PipeFreeOutsideMetadata(e) && OneText(lib, Meta(lib, e))
  }

  // One way: what can be read back is determined.

  lemma DeterminedIf(lib: Primitives, e: Entry, d: Entry)
    requires Readable(lib, e) && Text(lib, d) == Text(lib, e)
    ensures SameFields(lib, d, e)
  {
    hide Joined, CanonicalText, OneText, IsCanonical;
    var a, b := Joined(Front(d)), Joined(Front(e));
    assert AllPipeFree(Front(e));
    PlainIsShorter(Front(d), Rest(lib, d), Front(e), Rest(lib, e));
    CutSides(a, Rest(lib, d), b, Rest(lib, e));
    var x := (a + "|")[|b| + 1..];
    var m, n := Meta(lib, d), Meta(lib, e);
    InnerMeta(lib, d, e, x);
    assert m == n;
    assert x == "" by { MetaLength(lib, d, e, x); }
    JoinedUnique(Front(d), Front(e));
    RestUnique(lib, d, e);
    FrontDecides(d, e);
  }

  ghost function Ends(e: Entry): string {
    e.ip + "|" + e.userAgent
  }

  lemma RestIs(lib: Primitives, e: Entry)
    ensures Rest(lib, e) == Meta(lib, e) + "|" + Ends(e) && Ends(e) == Joined([e.ip, e.userAgent])
  {
    hide CanonicalText;
    assert [e.ip, e.userAgent][1..] == [e.userAgent];
    assert Meta(lib, e) + "|" + (e.ip + "|" + e.userAgent) == Meta(lib, e) + "|" + e.ip + "|" + e.userAgent;
  }

  /** The last two fields of `e` reach no further back than those of `d`. */
  lemma EndsShorter(u: string, d: Entry, v: string, e: Entry)
    requires PipeFree(e.ip) && PipeFree(e.userAgent) && u + "|" + Ends(d) == v + "|" + Ends(e)
    ensures |Ends(e)| <= |Ends(d)|
  {
    hide Pipes;
    var a, b := Ends(d), Ends(e);
    if |a| < |b| {
      var s := u + "|" + a;
      assert s[|s| - |a| - 1..] == "|" + a && s[|s| - |b|..] == b;
      var z := b[..|b| - |a| - 1];
      assert b == z + ("|" + a);
      OnePipe();
      PipesConcat(z, "|" + a);
      PipesConcat("|", a);
      EndsPipes(d);
      EndsPipes(e);
      PipeFreeIff(e.ip);
      PipeFreeIff(e.userAgent);
    }
  }

  lemma EndsPipes(e: Entry)
    ensures Pipes(Ends(e)) == Pipes(e.ip) + 1 + Pipes(e.userAgent)
  {
    hide Pipes;
    OnePipe();
    PipesConcat(e.ip, "|");
    PipesConcat(e.ip + "|", e.userAgent);
  }

  lemma InnerMeta(lib: Primitives, d: Entry, e: Entry, x: string)
    requires PipeFreeOutsideMetadata(e) && OneText(lib, Meta(lib, e))
    requires AfterPipe(x) && Rest(lib, e) == x + Rest(lib, d)
    ensures Meta(lib, d) == Meta(lib, e)
  {
    hide CanonicalText;
    RestIs(lib, d);
    RestIs(lib, e);
    var m, n := Meta(lib, d), Meta(lib, e);
    assert x + Rest(lib, d) == x + m + "|" + Ends(d);
    EndsShorter(x + m, d, n, e);
    CutTail(x + m, Ends(d), n, Ends(e));
    var y := ("|" + Ends(d))[..|Ends(d)| - |Ends(e)|];
    assert IsCanonical(lib, m);
    assert Inner(lib, n, x, m, y);
  }

  lemma MetaLength(lib: Primitives, d: Entry, e: Entry, x: string)
    requires PipeFree(e.ip) && PipeFree(e.userAgent) && Meta(lib, d) == Meta(lib, e)
    requires Rest(lib, e) == x + Rest(lib, d)
    ensures x == ""
  {
    hide CanonicalText;
    RestIs(lib, d);
    RestIs(lib, e);
    assert x + Rest(lib, d) == x + Meta(lib, d) + "|" + Ends(d);
    EndsShorter(x + Meta(lib, d), d, Meta(lib, e), e);
  }

  lemma RestUnique(lib: Primitives, d: Entry, e: Entry)
    requires PipeFree(e.ip) && PipeFree(e.userAgent) && Meta(lib, d) == Meta(lib, e) && Rest(lib, d) == Rest(lib, e)
    ensures d.ip == e.ip && d.userAgent == e.userAgent
  {
    hide CanonicalText, Joined;
    RestIs(lib, d);
    RestIs(lib, e);
    var p := Meta(lib, d) + "|";
    assert (p + Ends(d))[|p|..] == Ends(d) && (p + Ends(e))[|p|..] == Ends(e);
    JoinedUnique([d.ip, d.userAgent], [e.ip, e.userAgent]);
    assert [d.ip, d.userAgent][0] == d.ip && [d.ip, d.userAgent][1] == d.userAgent;
    assert [e.ip, e.userAgent][0] == e.ip && [e.ip, e.userAgent][1] == e.userAgent;
  }

  lemma FrontDecides(d: Entry, e: Entry)
    requires Front(d) == Front(e) && d.ip == e.ip && d.userAgent == e.userAgent
    ensures d.(metadata := e.metadata) == e
  {
    var f, g := Front(d), Front(e);
    assert f[0] == g[0] && f[1] == g[1] && f[2] == g[2] && f[3] == g[3] && f[4] == g[4] && f[5] == g[5];
  }

  // The other way: an entry of the same text and other fields, wherever the condition fails.

  lemma FrontAmbiguous(lib: Primitives, e: Entry, i: nat) returns (d: Entry)
    requires i < 6 && !PipeFree(Front(e)[i])
    ensures Text(lib, d) == Text(lib, e) && !SameFields(lib, d, e)
    ensures d.ip == e.ip && (i > 0 ==> d.tenant == e.tenant)
  {
    hide Joined, CanonicalText;
    var g := ShiftedFront(Front(e), i);
    d := WithFront(e, g);
    WithFrontIs(lib, e, g);
  }

  lemma EndsAmbiguous(lib: Primitives, e: Entry) returns (d: Entry)
    requires !PipeFree(e.ip) || !PipeFree(e.userAgent)
    ensures Text(lib, d) == Text(lib, e) && !SameFields(lib, d, e)
  {
    hide Joined, CanonicalText;
    if !PipeFree(e.ip) {
      var a, b := PipeAt(e.ip);
      d := e.(ip := a, userAgent := b + "|" + e.userAgent);
      assert a + "|" + (b + "|" + e.userAgent) == a + "|" + b + "|" + e.userAgent;
      assert |d.ip| < |e.ip|;
    } else {
      var a, b := PipeAt(e.userAgent);
      d := e.(ip := e.ip + "|" + a, userAgent := b);
      assert e.ip + "|" + a + "|" + b == e.ip + "|" + (a + "|" + b);
      assert |d.userAgent| < |e.userAgent|;
    }
    RestIs(lib, d);
    RestIs(lib, e);
  }

  /** The resource id grows by the text cut off the metadata's front. */
  function Grown(e: Entry, x: string): Entry
    requires AfterPipe(x)
  {
    if x == "" then e else e.(resourceId := e.resourceId + "|" + x[..|x| - 1])
  }

  lemma GrownFront(e: Entry, x: string)
    requires AfterPipe(x)
    ensures Joined(Front(Grown(e, x))) + "|" == Joined(Front(e)) + "|" + x
  {
    hide Joined;
    var f := Front(e);
    assert f == f[..5] + [e.resourceId];
    JoinedConcat(f[..5], [e.resourceId]);
    JoinedOne(e.resourceId);
    if x != "" {
      var grown := e.resourceId + "|" + x[..|x| - 1];
      assert Front(Grown(e, x)) == f[..5] + [grown];
      JoinedConcat(f[..5], [grown]);
      JoinedOne(grown);
      assert x == x[..|x| - 1] + "|";
    }
  }

  lemma InnerAmbiguous(lib: Primitives, e: Entry, x: string, t: string, y: string) returns (d: Entry)
    requires Inner(lib, Meta(lib, e), x, t, y) && t != Meta(lib, e)
    ensures Text(lib, d) == Text(lib, e) && !SameFields(lib, d, e)
  {
    hide Joined, CanonicalText;
    var m: Metadata :| CanonicalText(m, lib.quote) == t;
    d := Grown(e, x).(metadata := m);
    if y != "" {
      d := d.(ip := y[1..], userAgent := e.ip + "|" + e.userAgent);
      assert y == "|" + y[1..];
    }
    GrownFront(e, x);
    assert Front(d) == Front(Grown(e, x));
    assert x + Rest(lib, d) == Rest(lib, e) by { InnerRest(lib, d, e, x, t, y); }
    assert Joined(Front(d)) + "|" + Rest(lib, d) == Joined(Front(e)) + "|" + (x + Rest(lib, d));
  }

  lemma InnerRest(lib: Primitives, d: Entry, e: Entry, x: string, t: string, y: string)
    requires Meta(lib, e) == x + t + y && Meta(lib, d) == t
    requires y == "" ==> d.ip == e.ip && d.userAgent == e.userAgent
    requires y != "" ==> y == "|" + d.ip && d.userAgent == e.ip + "|" + e.userAgent
    ensures x + Rest(lib, d) == Rest(lib, e)
  {
    hide CanonicalText;
    RestIs(lib, d);
    RestIs(lib, e);
    if y == "" {
      assert x + t + y == x + t;
      assert x + (t + "|" + Ends(e)) == x + t + "|" + Ends(e);
    } else {
      assert x + (t + "|" + (d.ip + "|" + Ends(e))) == x + t + ("|" + d.ip) + "|" + Ends(e);
    }
  }

  /** The fields of an entry can be read back from its text exactly when no field but the metadata
      holds a pipe and no other metadata text stands between pipes inside the metadata. */
  lemma DeterminedIff(lib: Primitives, e: Entry)
    ensures Determined(lib, e) <==> Readable(lib, e)
  {
    hide Text, SameFields, CanonicalText, Inner;
    if Readable(lib, e) {
      forall d: Entry | Text(lib, d) == Text(lib, e) ensures SameFields(lib, d, e) {
        DeterminedIf(lib, e, d);
      }
    } else if !AllPipeFree(Front(e)) {
      var i :| 0 <= i < 6 && !PipeFree(Front(e)[i]);
      var d := FrontAmbiguous(lib, e, i);
    } else if !PipeFree(e.ip) || !PipeFree(e.userAgent) {
      var d := EndsAmbiguous(lib, e);
    } else {
      FrontPlain(e);
      var x, t, y :| Inner(lib, Meta(lib, e), x, t, y) && t != Meta(lib, e);
      var d := InnerAmbiguous(lib, e, x, t, y);
    }
  }

  lemma FrontPlain(e: Entry)
    requires AllPipeFree(Front(e)) && PipeFree(e.ip) && PipeFree(e.userAgent)
    ensures PipeFreeOutsideMetadata(e)
  {
    var f := Front(e);
    assert PipeFree(f[0]) && PipeFree(f[1]) && PipeFree(f[2]) && PipeFree(f[3]) && PipeFree(f[4]) && PipeFree(f[5]);
  }

  /** For metadata without pipes that is: no field holds a pipe. */
  lemma PlainDeterminedIff(lib: Primitives, e: Entry)
    requires PipeFree(Meta(lib, e))
    ensures Determined(lib, e) <==> PipeFreeOutsideMetadata(e)
  {
    hide Determined, OneText, PipeFreeOutsideMetadata, Meta;
    PlainIsOneText(lib, Meta(lib, e));
    DeterminedIff(lib, e);
  }

  // ---- Histories ------------------------------------------------------------------------------

  /** The history with the fields of one row replaced. */
  function Replaced(s: seq<Row>, i: nat, d: Entry): seq<Row>
    requires i < |s|
  {
    s[i := s[i].(entry := d)]
  }

  /** Fields of the same text take the place of others unnoticed. */
  lemma ReplacedIsChain(lib: Primitives, s: seq<Row>, i: nat, d: Entry)
    requires i < |s| && IsChain(lib, s) && Text(lib, d) == Text(lib, s[i].entry)
    ensures IsChain(lib, Replaced(s, i, d)) && PrevOf(Replaced(s, i, d), |s|) == PrevOf(s, |s|)
    ensures forall k :: 0 <= k < |s| ==> RowPayload(lib, Replaced(s, i, d)[k]) == RowPayload(lib, s[k])
  {
    hide Payload, Text;
    var r := Replaced(s, i, d);
    SameTextIff(lib, s[i].prevHash, d, s[i].entry);
    forall k | 0 <= k < |s| ensures Linked(lib, r, k) {
      assert Linked(lib, s, k);
      assert PrevOf(r, k) == PrevOf(s, k);
    }
  }

  /** An accepted chain that ends in the same hash and shares no collision with `s`. */
  ghost predicate SameTail(lib: Primitives, r: seq<Row>, s: seq<Row>) {
    IsChain(lib, r) && PrevOf(r, |r|) == PrevOf(s, |s|) && CollisionFree(lib, r, s)
  }

  ghost predicate AllReadable(lib: Primitives, s: seq<Row>) {
    forall i :: 0 <= i < |s| ==> Readable(lib, s[i].entry)
  }

  /** A tail hash stands for one history when that history can be read back; nothing is asked of
      the other one. */
  lemma SameTailSameFields(lib: Primitives, r: seq<Row>, s: seq<Row>)
    requires DigestShape(lib) && IsChain(lib, s) && SameTail(lib, r, s) && AllReadable(lib, s)
    ensures SameHistories(lib, r, s)
  {
    hide Payload, Text, Readable, SameFields;
    SameTailSameChain(lib, r, s);
    forall i | 0 <= i < |r| ensures SameFields(lib, r[i].entry, s[i].entry) {
      assert SamePayload(lib, r[i], s[i]);
      SameTextIff(lib, s[i].prevHash, r[i].entry, s[i].entry);
      DeterminedIf(lib, s[i].entry, r[i].entry);
    }
  }

  /** And only then: a row that cannot be read back has another that takes its place. */
  lemma AmbiguousHistory(lib: Primitives, s: seq<Row>, i: nat) returns (r: seq<Row>)
    requires i < |s| && IsChain(lib, s) && CollisionFree(lib, s, s) && !Readable(lib, s[i].entry)
    ensures SameTail(lib, r, s) && |r| == |s| && !SameFields(lib, r[i].entry, s[i].entry)
  {
    hide Text, Readable, SameFields, RowPayload, IsChain;
    DeterminedIff(lib, s[i].entry);
    var d: Entry :| Text(lib, d) == Text(lib, s[i].entry) && !SameFields(lib, d, s[i].entry);
    r := Replaced(s, i, d);
    ReplacedIsChain(lib, s, i, d);
  }

  /** The history behind a tail hash is determined exactly when each of its rows can be read back. */
  lemma HistoryDeterminedIff(lib: Primitives, s: seq<Row>)
    requires DigestShape(lib) && IsChain(lib, s) && CollisionFree(lib, s, s)
    ensures (forall r :: SameTail(lib, r, s) ==> SameHistories(lib, r, s)) <==> AllReadable(lib, s)
  {
    hide DigestShape, IsChain, CollisionFree, SameTail, SameFields, Readable;
    if AllReadable(lib, s) {
      forall r | SameTail(lib, r, s) ensures SameHistories(lib, r, s) {
        SameTailSameFields(lib, r, s);
      }
    } else {
      var i :| 0 <= i < |s| && !Readable(lib, s[i].entry);
      var r := AmbiguousHistory(lib, s, i);
      assert !SameHistories(lib, r, s);
    }
  }

  // ---- Down to the metadata values --------------------------------------------------------------

  /** How `json.Marshal` writes keys and values: quoted keys and value texts both show where they end. */
  ghost predicate JsonLike(lib: Primitives, isValue: string -> bool) {
    QuotesApart(lib.quote) && SelfDelimiting(isValue)
  }

  ghost predicate AllHoldValues(rows: seq<Row>, isValue: string -> bool) {
    forall i :: 0 <= i < |rows| ==> HoldsValues(rows[i].entry.metadata, isValue)
  }

  lemma JsonDetermines(lib: Primitives, m: Metadata, n: Metadata, isValue: string -> bool)
    requires JsonLike(lib, isValue) && HoldsValues(m, isValue) && HoldsValues(n, isValue)
    requires CanonicalText(m, lib.quote) == CanonicalText(n, lib.quote)
    ensures m == n
  {
    hide CanonicalText, QuotesApart, SelfDelimiting;
    TextDeterminesMetadata(m, n, lib.quote, isValue);
  }

  /** Entries with the same fields, metadata as its text, are the same entry. */
  lemma SameFieldsSameEntry(lib: Primitives, d: Entry, e: Entry, isValue: string -> bool)
    requires SameFields(lib, d, e) && JsonLike(lib, isValue)
    requires HoldsValues(d.metadata, isValue) && HoldsValues(e.metadata, isValue)
    ensures d == e
  {
    hide CanonicalText, JsonLike;
    JsonDetermines(lib, d.metadata, e.metadata, isValue);
  }

  /** So a tail hash stands for one history of whole entries, every metadata value included. */
  lemma SameTailSameEntries(lib: Primitives, r: seq<Row>, s: seq<Row>, isValue: string -> bool)
    requires DigestShape(lib) && IsChain(lib, s) && SameTail(lib, r, s) && AllReadable(lib, s)
    requires JsonLike(lib, isValue) && AllHoldValues(r, isValue) && AllHoldValues(s, isValue)
    ensures |r| == |s| && forall i :: 0 <= i < |r| ==> r[i].entry == s[i].entry
  {
    hide DigestShape, IsChain, SameTail, Readable, SameFields, JsonLike, HoldsValues;
    SameTailSameFields(lib, r, s);
    forall i | 0 <= i < |r| ensures r[i].entry == s[i].entry {
      SameFieldsSameEntry(lib, r[i].entry, s[i].entry, isValue);
    }
  }

  lemma MetadataInText(lib: Primitives, e: Entry, m: Metadata)
    requires Text(lib, e.(metadata := m)) == Text(lib, e)
    ensures CanonicalText(m, lib.quote) == CanonicalText(e.metadata, lib.quote)
  {
    hide Joined, CanonicalText;
    var d := e.(metadata := m);
    assert Front(d) == Front(e);
    Drop(Joined(Front(e)) + "|", Rest(lib, d), Rest(lib, e));
    var x, y, tail := Meta(lib, d), Meta(lib, e), "|" + e.ip + "|" + e.userAgent;
    assert Rest(lib, d) == x + tail && Rest(lib, e) == y + tail;
    assert (x + tail)[..|x|] == x && (y + tail)[..|y|] == y;
  }

  /** Altering the metadata of a row, in a key or in a value, breaks the chain there, whatever pipes its
      fields hold, unless the two payloads collide. */
  lemma AlteredMetadataRejected(lib: Primitives, s: seq<Row>, i: nat, m: Metadata, isValue: string -> bool)
    requires i < |s| && IsChain(lib, s) && m != s[i].entry.metadata
    requires JsonLike(lib, isValue) && HoldsValues(m, isValue) && HoldsValues(s[i].entry.metadata, isValue)
    requires CollisionFree(lib, [s[i].(entry := s[i].entry.(metadata := m))], [s[i]])
    ensures !Linked(lib, Replaced(s, i, s[i].entry.(metadata := m)), i)
  {
    hide Text, CanonicalText, JsonLike, HoldsValues, Payload;
    var e := s[i].entry;
    var d := e.(metadata := m);
    var r := Replaced(s, i, d);
    assert Linked(lib, s, i) && PrevOf(r, i) == PrevOf(s, i);
    if Linked(lib, r, i) {
      assert [r[i]][0] == r[i] && [s[i]][0] == s[i];
      assert RowPayload(lib, r[i]) == RowPayload(lib, s[i]);
      SameTextIff(lib, s[i].prevHash, d, e);
      MetadataInText(lib, e, m);
      JsonDetermines(lib, m, e.metadata, isValue);
    }
  }

  // ---- An instance: the user agent of a request ---------------------------------------------

  lemma NoMetadata(lib: Primitives)
    ensures CanonicalText(map[], lib.quote) == "{}"
  {
  }

  /** A user agent that reads like the metadata, address and agent of another entry: the row of that
      entry, whose resource id holds the real metadata and address, takes the place of this one. */
  function Reread(e: Entry, meta: string, ip: string, agent: string): Entry {
    e.(resourceId := e.resourceId + "|" + meta + "|" + e.ip, metadata := map[], ip := ip, userAgent := agent)
  }

  lemma RereadText(lib: Primitives, e: Entry, ip: string, agent: string)
    requires e.userAgent == "{}|" + ip + "|" + agent
    ensures Text(lib, Reread(e, Meta(lib, e), ip, agent)) == Text(lib, e)
  {
    hide Joined, CanonicalText;
    var m := Meta(lib, e);
    var d := Reread(e, m, ip, agent);
    var x := m + "|" + e.ip + "|";
    assert x[..|x| - 1] == m + "|" + e.ip;
    assert d.resourceId == e.resourceId + "|" + x[..|x| - 1];
    assert Front(d) == Front(Grown(e, x));
    GrownFront(e, x);
    NoMetadata(lib);
    assert x + Rest(lib, d) == Rest(lib, e) by {
      assert "{}" + "|" + ip + "|" + agent == e.userAgent;
    }
    assert Joined(Front(e)) + "|" + x + Rest(lib, d) == Joined(Front(e)) + "|" + (x + Rest(lib, d));
  }

  lemma AgentReadsTwoWays(lib: Primitives, s: seq<Row>, i: nat, ip: string, agent: string)
    requires IsChain(lib, s) && i < |s| && s[i].entry.userAgent == "{}|" + ip + "|" + agent
    ensures var d := Reread(s[i].entry, Meta(lib, s[i].entry), ip, agent);
            var r := Replaced(s, i, d);
            && IsChain(lib, r) && PrevOf(r, |r|) == PrevOf(s, |s|)
            && !SameFields(lib, r[i].entry, s[i].entry)
  {
    hide Text, IsChain, CanonicalText;
    RereadText(lib, s[i].entry, ip, agent);
    ReplacedIsChain(lib, s, i, Reread(s[i].entry, Meta(lib, s[i].entry), ip, agent));
  }
}
