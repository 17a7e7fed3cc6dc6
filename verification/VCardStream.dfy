/** Splitting a text of several vCards, internal/contactbridge/handlers.go. */
module VCardStream {
  import opened Text
  import opened VCard

  const BEGIN := "BEGIN:VCARD"
  const END := "END:VCARD"

  /** Where the first whole card of a buffer lies, if there is one. */
  datatype Cut = NoCut | Cut(start: nat, end: nat)

  function FirstCard(buf: string): (c: Cut)
    ensures c.Cut? ==> c.start < c.end <= |buf|
  {
    match IndexOf(buf, BEGIN)
    case Missing => NoCut
    case At(i) =>
      match IndexOf(buf[i..], END)
      case Missing => NoCut
      case At(j) => Cut(i, i + j + |END|)
  }

  /** What `splitMultiVCard` returns for a buffer. */
  function SplitMulti(buf: string): seq<string>
    decreases |buf|
  {
    match FirstCard(buf)
    case NoCut => []
    case Cut(i, e) => [buf[i..e]] + SplitMulti(buf[e..])
  }

  /** `splitMultiVCard`: each turn cuts at least one card off the buffer. */
  method SplitMultiVCard(input: string) returns (out: seq<string>)
    ensures out == SplitMulti(input)
  {
    hide IndexOf;
    out := [];
    var buf := input;
    while true
      invariant out + SplitMulti(buf) == SplitMulti(input)
      decreases |buf|
    {
      var i := IndexOf(buf, BEGIN);
      if i.Missing? {
        break;
      }
      var j := IndexOf(buf[i.i..], END);
      if j.Missing? {
        break;
      }
      var end := i.i + j.i + |END|;
      assert out + ([buf[i.i..end]] + SplitMulti(buf[end..])) == out + [buf[i.i..end]] + SplitMulti(buf[end..]);
      out := out + [buf[i.i..end]];
      buf := buf[end..];
    }
    assert out + [] == out;
  }

  // ---- Splitting texts put one after another ------------------------------------------------

  /** What the loop has left when it stops. */
  function Leftover(buf: string): string
    decreases |buf|
  {
    match FirstCard(buf)
    case NoCut => buf
    case Cut(_, e) => Leftover(buf[e..])
  }

  predicate HasBegin(buf: string) {
    IndexOf(buf, BEGIN).At?
  }

  predicate HasEnd(buf: string) {
    IndexOf(buf, END).At?
  }

  /** The loop stops inside a card. */
  predicate Dangles(buf: string) {
    HasBegin(Leftover(buf))
  }

  /** Nothing, or text that ends with a line. */
  predicate EndsLine(buf: string) {
    buf == "" || buf[|buf| - 1] == '\n'
  }

  /** A card is left open in one text, and the other closes it. */
  predicate Leaks(a: string, b: string) {
    Dangles(a) && HasEnd(b)
  }

  function TotalLength(pieces: seq<string>): nat {
    if pieces == [] then 0 else |pieces[0]| + TotalLength(pieces[1..])
  }

  lemma {:induction false} TotalLengthConcat(p: seq<string>, q: seq<string>)
    ensures TotalLength(p + q) == TotalLength(p) + TotalLength(q)
  {
    if p == [] {
      assert p + q == q;
    } else {
      assert (p + q)[1..] == p[1..] + q;
      TotalLengthConcat(p[1..], q);
    }
  }

  lemma TotalLengthCons(piece: string, q: seq<string>)
    ensures TotalLength([piece] + q) == |piece| + TotalLength(q)
  {
    assert ([piece] + q)[1..] == q;
  }

  /** `a` ends with, or `b` begins with, a character the marker does not have. */
  predicate Apart(a: string, b: string, m: string) {
    m != "" && (a == "" || a[|a| - 1] !in m || (b != "" && b[0] !in m))
  }

  /** Then no marker lies across the two texts. */
  lemma OccursInOne(a: string, b: string, m: string, k: nat)
    requires Apart(a, b, m)
    ensures OccursAt(a + b, m, k) <==> OccursAt(a, m, k) || (k >= |a| && OccursAt(b, m, k - |a|))
  {
    var t := a + b;
    if k + |m| <= |a| {
      assert t[k..k + |m|] == a[k..k + |m|];
    } else if k >= |a| {
      if k + |m| <= |t| {
        SliceOfSecond(a, b, k - |a|, k - |a| + |m|);
      }
    } else if k + |m| <= |t| {
      assert t[k..k + |m|][|a| - 1 - k] == a[|a| - 1];
      assert t[k..k + |m|][|a| - k] == b[0];
    }
  }

  /** So the first marker of two texts is the first of the first, or else the first of the second. */
  lemma IndexInOne(a: string, b: string, m: string)
    requires Apart(a, b, m)
    ensures IndexOf(a, m).At? ==> IndexOf(a, m).i < |a| && IndexOf(a + b, m) == IndexOf(a, m)
    ensures IndexOf(a, m).Missing? && IndexOf(b, m).At? ==> IndexOf(a + b, m) == At(|a| + IndexOf(b, m).i)
    ensures IndexOf(a, m).Missing? && IndexOf(b, m).Missing? ==> IndexOf(a + b, m) == Missing
  {
    hide OccursAt, IndexOf;
    forall k: nat
      ensures OccursAt(a + b, m, k) <==> OccursAt(a, m, k) || (k >= |a| && OccursAt(b, m, k - |a|))
    {
      OccursInOne(a, b, m, k);
    }
    var x, y := IndexOf(a, m), IndexOf(b, m);
    if x.At? {
      OccursFits(a, m, x.i);
      IndexOfIs(a + b, m, x.i);
    } else if y.At? {
      assert OccursAt(b, m, |a| + y.i - |a|);
      IndexOfIs(a + b, m, |a| + y.i);
    }
  }

  lemma OccursFits(s: string, m: string, k: nat)
    requires OccursAt(s, m, k)
    ensures k + |m| <= |s|
  {
  }

  lemma OccursShifted(b: string, m: string, k: nat, p: nat)
    requires k <= |b|
    ensures OccursAt(b[k..], m, p) <==> OccursAt(b, m, p + k)
  {
    assert p + k + |m| <= |b| ==> b[k..][p..p + |m|] == b[p + k..p + k + |m|];
  }

  /** The first marker, counted from a point at or before it. */
  lemma IndexAfter(b: string, m: string, k: nat)
    requires k <= |b| && (IndexOf(b, m).At? ==> k <= IndexOf(b, m).i)
    ensures IndexOf(b, m).At? ==> IndexOf(b[k..], m) == At(IndexOf(b, m).i - k)
    ensures IndexOf(b, m).Missing? ==> IndexOf(b[k..], m).Missing?
  {
    hide OccursAt, IndexOf;
    forall p: nat ensures OccursAt(b[k..], m, p) <==> OccursAt(b, m, p + k) {
      OccursShifted(b, m, k, p);
    }
    var x := IndexOf(b, m);
    if x.At? {
      assert OccursAt(b[k..], m, x.i - k) <==> OccursAt(b, m, x.i - k + k);
      IndexOfIs(b[k..], m, x.i - k);
    }
  }

  /** No card starts inside a closing marker. */
  lemma NotInside(b: string, j: nat, p: nat)
    requires OccursAt(b, END, j) && OccursAt(b, BEGIN, p) && j < p
    ensures j + |END| <= p
  {
    assert b[p..p + |BEGIN|][0] == b[p] == 'B';
    assert forall k :: 0 <= k < |END| ==> b[j..j + |END|][k] == b[j + k] && END[k] != 'B';
  }

  /** The loop stops. */
  lemma SplitStops(b: string)
    requires FirstCard(b) == NoCut
    ensures SplitMulti(b) == [] && TotalLength(SplitMulti(b)) == 0 && Leftover(b) == b
  {
    hide FirstCard;
  }

  /** One turn of the loop. */
  lemma SplitTurn(b: string, start: nat, end: nat)
    requires start < end <= |b| && FirstCard(b) == Cut(start, end)
    ensures SplitMulti(b) == [b[start..end]] + SplitMulti(b[end..]) && Leftover(b) == Leftover(b[end..])
    ensures TotalLength(SplitMulti(b)) == end - start + TotalLength(SplitMulti(b[end..]))
  {
    hide FirstCard, TotalLength;
    TotalLengthCons(b[start..end], SplitMulti(b[end..]));
  }

  function Shifted(c: Cut, k: nat): Cut {
    if c.NoCut? then NoCut else Cut(c.start + k, c.end + k)
  }

  /** The first marker of a text stays the first when text follows. */
  lemma IndexKept(a: string, b: string, m: string)
    requires IndexOf(a, m).At?
    ensures IndexOf(a, m).i + |m| <= |a| && IndexOf(a + b, m) == IndexOf(a, m)
  {
    hide IndexOf;
    var i := IndexOf(a, m).i;
    assert (a + b)[i..i + |m|] == a[i..i + |m|];
    forall k: nat | k < i ensures !OccursAt(a + b, m, k) {
      assert (a + b)[k..k + |m|] == a[k..k + |m|];
      assert !OccursAt(a, m, k);
    }
    IndexOfIs(a + b, m, i);
  }

  /** A whole card at the front stays the first card when text follows. */
  lemma FirstCardKept(a: string, b: string)
    requires FirstCard(a).Cut?
    ensures FirstCard(a + b) == FirstCard(a)
  {
    hide IndexOf;
    IndexKept(a, b, BEGIN);
    var i := IndexOf(a, BEGIN).i;
    IndexKept(a[i..], b, END);
    assert (a + b)[i..] == a[i..] + b;
  }

  /** Text in which no card starts moves the first card along. */
  lemma FirstCardMoved(a: string, b: string)
    requires EndsLine(a) && !HasBegin(a)
    ensures FirstCard(a) == NoCut && FirstCard(a + b) == Shifted(FirstCard(b), |a|)
  {
    hide IndexOf;
    IndexInOne(a, b, BEGIN);
    if HasBegin(b) {
      var i := IndexOf(b, BEGIN).i;
      OccursFits(b, BEGIN, i);
      assert (a + b)[|a| + i..] == b[i..];
    }
  }

  /** A card left open runs on to the first closing marker of what follows. */
  lemma FirstCardOpen(a: string, b: string)
    requires EndsLine(a) && HasBegin(a) && FirstCard(a) == NoCut
    ensures FirstCard(a + b) == if HasEnd(b) then Cut(IndexOf(a, BEGIN).i, |a| + IndexOf(b, END).i + |END|) else NoCut
    ensures IndexOf(a, BEGIN).i < |a|
  {
    hide IndexOf;
    IndexInOne(a, b, BEGIN);
    var i := IndexOf(a, BEGIN).i;
    IndexInOne(a[i..], b, END);
    assert (a + b)[i..] == a[i..] + b;
  }

  lemma NoEndNoCard(b: string)
    requires !HasEnd(b)
    ensures FirstCard(b) == NoCut
  {
    hide IndexOf;
    if HasBegin(b) {
      OccursFits(b, BEGIN, IndexOf(b, BEGIN).i);
      IndexAfter(b, END, IndexOf(b, BEGIN).i);
    }
  }

  /** The first card ends with the first closing marker, or starts after it. */
  lemma FirstCardByEnd(b: string)
    requires HasEnd(b)
    ensures var e := IndexOf(b, END).i + |END|;
      e <= |b| && ((FirstCard(b).Cut? && FirstCard(b).end == e) || FirstCard(b) == Shifted(FirstCard(b[e..]), e))
  {
    hide IndexOf;
    var j, x := IndexOf(b, END).i, IndexOf(b, BEGIN);
    var e := j + |END|;
    OccursFits(b, END, j);
    if x.At? && x.i <= j {
      IndexAfter(b, END, x.i);
    } else {
      if x.At? {
        NotInside(b, j, x.i);
        OccursFits(b, BEGIN, x.i);
        assert b[e..][x.i - e..] == b[x.i..];
      }
      IndexAfter(b, BEGIN, e);
    }
  }

  lemma TailOfTail(b: string, e: nat, k: nat)
    requires e + k <= |b|
    ensures b[e..][k..] == b[e + k..]
  {
  }

  lemma SliceOfSecond(a: string, b: string, s: nat, t: nat)
    requires s <= t <= |b|
    ensures (a + b)[|a| + s..|a| + t] == b[s..t] && (a + b)[|a| + t..] == b[t..]
  {
  }

  /** Up to the first closing marker there is at most one card. */
  lemma FirstEnd(b: string)
    requires HasEnd(b)
    ensures var e := IndexOf(b, END).i + |END|;
      e <= |b| && TotalLength(SplitMulti(b)) <= e + TotalLength(SplitMulti(b[e..]))
  {
    hide FirstCard, IndexOf, SplitMulti, TotalLength, Leftover;
    FirstCardByEnd(b);
    var e, c := IndexOf(b, END).i + |END|, FirstCard(b);
    if c.NoCut? {
      SplitStops(b);
    } else {
      SplitTurn(b, c.start, c.end);
      if c.end != e {
        FirstEndBefore(b, e, c.start, c.end);
      }
    }
  }

  lemma FirstEndBefore(b: string, e: nat, start: nat, end: nat)
    requires e <= start < end <= |b| && FirstCard(b[e..]) == Cut(start - e, end - e)
    ensures TotalLength(SplitMulti(b[e..])) == end - start + TotalLength(SplitMulti(b[end..]))
  {
    hide FirstCard, SplitMulti, TotalLength, Leftover;
    SplitTurn(b[e..], start - e, end - e);
    TailOfTail(b, e, end - e);
  }

  /** Splitting two texts together is splitting each, exactly when no card leaks; otherwise more
      text ends up inside cards. */
  lemma {:induction false} SplitTogether(a: string, b: string)
    requires EndsLine(a)
    ensures !Leaks(a, b) ==> SplitMulti(a + b) == SplitMulti(a) + SplitMulti(b)
    ensures Leaks(a, b) ==> TotalLength(SplitMulti(a + b)) > TotalLength(SplitMulti(a)) + TotalLength(SplitMulti(b))
    decreases |a|
  {
    hide FirstCard, HasBegin, HasEnd, SplitMulti, TotalLength, Leftover;
    var c := FirstCard(a);
    if c.Cut? {
      FirstCardKept(a, b);
      SplitTurn(a, c.start, c.end);
      SplitTurn(a + b, c.start, c.end);
      var piece, rest := a[c.start..c.end], a[c.end..];
      assert (a + b)[c.start..c.end] == piece && (a + b)[c.end..] == rest + b;
      SplitTogether(rest, b);
      assert [piece] + (SplitMulti(rest) + SplitMulti(b)) == [piece] + SplitMulti(rest) + SplitMulti(b);
    } else if !HasBegin(a) {
      SplitMoved(a, b);
    } else {
      SplitOpen(a, b);
    }
  }

  lemma SplitMoved(a: string, b: string)
    requires EndsLine(a) && !HasBegin(a)
    ensures SplitMulti(a) == [] && !Dangles(a) && SplitMulti(a + b) == SplitMulti(a) + SplitMulti(b)
  {
    hide FirstCard, HasBegin, SplitMulti, TotalLength, Leftover;
    FirstCardMoved(a, b);
    SplitStops(a);
    var c := FirstCard(b);
    if c.Cut? {
      SplitTurn(b, c.start, c.end);
      SplitTurn(a + b, |a| + c.start, |a| + c.end);
      SliceOfSecond(a, b, c.start, c.end);
    } else {
      SplitStops(b);
      SplitStops(a + b);
    }
  }

  /** The first text ends inside a card. */
  lemma SplitOpen(a: string, b: string)
    requires EndsLine(a) && HasBegin(a) && FirstCard(a) == NoCut
    ensures SplitMulti(a) == [] && Dangles(a)
    ensures !HasEnd(b) ==> SplitMulti(a + b) == SplitMulti(a) + SplitMulti(b)
    ensures HasEnd(b) ==> TotalLength(SplitMulti(a + b)) > TotalLength(SplitMulti(a)) + TotalLength(SplitMulti(b))
  {
    hide FirstCard, IndexOf, SplitMulti, TotalLength, Leftover;
    FirstCardOpen(a, b);
    SplitStops(a);
    if HasEnd(b) {
      FirstEnd(b);
      var i, e := IndexOf(a, BEGIN).i, IndexOf(b, END).i + |END|;
      SplitTurn(a + b, i, |a| + e);
      SliceOfSecond(a, b, e, e);
    } else {
      NoEndNoCard(b);
      SplitStops(b);
      SplitStops(a + b);
    }
  }

  /** Dangling, as a reader of the text would say it: a card opens after the last closing marker. */
  lemma {:induction false} DanglesIff(a: string)
    ensures Dangles(a) <==> exists k: nat :: OpensLast(a, k)
    decreases |a|
  {
    var c := FirstCard(a);
    if c.Cut? {
      hide OpensLast;
      DanglesIff(a[c.end..]);
      OpensLater(a);
    } else {
      OpensHere(a);
    }
  }

  /** A card opens at `k` and nothing closes it. */
  ghost predicate OpensLast(a: string, k: nat) {
    OccursAt(a, BEGIN, k) && forall j: nat :: k <= j ==> !OccursAt(a, END, j)
  }

  lemma OpensHere(a: string)
    requires FirstCard(a) == NoCut
    ensures Dangles(a) <==> exists k: nat :: OpensLast(a, k)
  {
    hide OccursAt, IndexOf;
    if HasBegin(a) {
      var i := IndexOf(a, BEGIN).i;
      OccursFits(a, BEGIN, i);
      forall j: nat | i <= j ensures !OccursAt(a, END, j) {
        OccursShifted(a, END, i, j - i);
      }
      assert OpensLast(a, i);
    }
  }

  lemma OpensLater(a: string)
    requires FirstCard(a).Cut?
    ensures (exists k: nat :: OpensLast(a, k)) <==> exists k: nat :: OpensLast(a[FirstCard(a).end..], k)
  {
    hide OccursAt, FirstCard;
    CutEnds(a);
    var e := FirstCard(a).end;
    forall k: nat ensures OpensLast(a[e..], k) <==> OpensLast(a, k + e) {
      OpensShifted(a, e, k);
    }
    if k: nat :| OpensLast(a, k) {
      assert !OccursAt(a, END, e - |END|) || k > e - |END|;
      NotInside(a, e - |END|, k);
      assert OpensLast(a[e..], k - e) <==> OpensLast(a, k - e + e);
    }
  }

  lemma CutEnds(a: string)
    requires FirstCard(a).Cut?
    ensures FirstCard(a).end >= |END| && OccursAt(a, END, FirstCard(a).end - |END|)
  {
    hide IndexOf;
    var i := IndexOf(a, BEGIN).i;
    OccursShifted(a, END, i, IndexOf(a[i..], END).i);
  }

  lemma OpensShifted(a: string, e: nat, k: nat)
    requires e <= |a|
    ensures OpensLast(a[e..], k) <==> OpensLast(a, k + e)
  {
    hide OccursAt;
    OccursShifted(a, BEGIN, e, k);
    forall j: nat ensures OccursAt(a[e..], END, j) <==> OccursAt(a, END, j + e) {
      OccursShifted(a, END, e, j);
    }
    if OpensLast(a[e..], k) {
      forall j: nat | k + e <= j ensures !OccursAt(a, END, j) {
        assert OccursAt(a[e..], END, j - e) <==> OccursAt(a, END, j - e + e);
      }
    }
  }

  // ---- Streams of built cards -----------------------------------------------------------

  /** A built card up to and including its closing line, without the last CRLF. */
  function Body(d: Card): string {
    Render(Opening(d)) + END
  }

  lemma BuiltIsBody(d: Card)
    ensures Built(d) == Body(d) + "\r\n"
    ensures |Body(d)| >= |BEGIN| + |END| && Body(d)[..|BEGIN|] == BEGIN && HasSuffix(Body(d), END)
  {
    hide BodyLines;
    RenderSnoc(Opening(d), END);
    assert Opening(d) == [BEGIN] + Opening(d)[1..];
    assert Render(Opening(d))[..|BEGIN|] == BEGIN;
    hide Render, Opening;
    assert Body(d)[..|BEGIN|] == Render(Opening(d))[..|BEGIN|];
  }

  lemma BodyParsesBack(d: Card)
    requires Clean(d)
    ensures Parsed(Body(d)) == d
  {
    hide Clean, Parsed, Render;
    BuiltParsesBack(d);
  }

  /** The exported text of several drafts. */
  function Stream(ds: seq<Card>): string {
    if ds == [] then "" else Built(ds[0]) + Stream(ds[1..])
  }

  function Bodies(ds: seq<Card>): (r: seq<string>)
    ensures |r| == |ds| && forall i :: 0 <= i < |ds| ==> r[i] == Body(ds[i])
  {
    seq(|ds|, i requires 0 <= i < |ds| => Body(ds[i]))
  }

  /** The closing marker occurs in the card as its last line only. */
  ghost predicate ClosesOnce(d: Card) {
    forall k: nat :: k + |END| < |Body(d)| ==> !OccursAt(Body(d), END, k)
  }

  /** The first marker after a card's start is the card's own exactly when it closes once. */
  lemma FirstClose(d: Card, rest: string)
    ensures IndexOf(Body(d) + rest, END) == At(|Body(d)| - |END|) <==> ClosesOnce(d)
    ensures IndexOf(Body(d) + rest, END).At? && IndexOf(Body(d) + rest, END).i <= |Body(d)| - |END|
  {
    hide Body, IndexOf;
    BuiltIsBody(d);
    var b := Body(d);
    var t := b + rest;
    var n := |b| - |END|;
    assert t[n..n + |END|] == b[n..];
    assert OccursAt(t, END, n);
    forall k: nat | k <= n ensures OccursAt(t, END, k) <==> OccursAt(b, END, k) {
      assert t[k..k + |END|] == b[k..k + |END|];
    }
    if ClosesOnce(d) {
      IndexOfIs(t, END, n);
    }
  }

  /** Nothing but a card's own start begins a card in `lead`. */
  predicate Lead(lead: string) {
    lead == "" || lead == "\r\n"
  }

  lemma FirstOpen(lead: string, d: Card, rest: string)
    requires Lead(lead)
    ensures IndexOf(lead + (Body(d) + rest), BEGIN) == At(|lead|)
    ensures (lead + (Body(d) + rest))[|lead|..] == Body(d) + rest
  {
    hide Body, IndexOf, OccursAt;
    BuiltIsBody(d);
    var t := Body(d) + rest;
    assert t[..|BEGIN|] == Body(d)[..|BEGIN|];
    SliceOfSecond(lead, t, 0, 0);
    OpensAt(lead, t);
    IndexOfIs(lead + t, BEGIN, |lead|);
  }

  lemma OpensAt(lead: string, t: string)
    requires Lead(lead) && HasPrefix(t, BEGIN)
    ensures OccursAt(lead + t, BEGIN, |lead|) && forall k: nat :: k < |lead| ==> !OccursAt(lead + t, BEGIN, k)
  {
    var s := lead + t;
    SliceOfSecond(lead, t, 0, |BEGIN|);
    forall k: nat | k < |lead| ensures !OccursAt(s, BEGIN, k) {
      assert s[k] == lead[k] && s[k] != 'B';
      assert k + |BEGIN| <= |s| ==> s[k..k + |BEGIN|][0] == s[k];
    }
  }

  lemma {:induction false} SplitLead(lead: string)
    requires Lead(lead)
    ensures SplitMulti(lead) == []
  {
    assert forall k: nat :: !OccursAt(lead, BEGIN, k);
  }

  /** Where the first card of a stream is found. */
  lemma FirstCardOfBody(lead: string, d: Card, rest: string)
    requires Lead(lead)
    ensures var c := FirstCard(lead + (Body(d) + rest));
      && c.Cut? && c.start == |lead| && c.end <= |lead| + |Body(d)|
      && (c.end == |lead| + |Body(d)| <==> ClosesOnce(d))
  {
    hide Body, IndexOf, ClosesOnce;
    FirstOpen(lead, d, rest);
    FirstClose(d, rest);
  }

  /** One turn of the loop on a card and what follows it. */
  lemma SplitFirst(lead: string, d: Card, rest: string)
    requires Lead(lead)
    ensures var r := SplitMulti(lead + (Body(d) + rest)); r != [] && (r[0] == Body(d) <==> ClosesOnce(d))
    ensures ClosesOnce(d) ==> SplitMulti(lead + (Body(d) + rest)) == [Body(d)] + SplitMulti(rest)
  {
    hide Body, IndexOf, ClosesOnce, FirstCard, SplitMulti, Leftover, TotalLength;
    FirstCardOfBody(lead, d, rest);
    var t, u := lead + (Body(d) + rest), Body(d) + rest;
    var e := FirstCard(t).end;
    SplitTurn(t, |lead|, e);
    SliceOfSecond(lead, u, 0, e - |lead|);
    if ClosesOnce(d) {
      assert u[..|Body(d)|] == Body(d) && u[|Body(d)|..] == rest;
    }
  }

  lemma {:induction false} SplitStream(lead: string, ds: seq<Card>)
    requires Lead(lead)
    ensures SplitMulti(lead + Stream(ds)) == Bodies(ds) <==> forall i :: 0 <= i < |ds| ==> ClosesOnce(ds[i])
    decreases |ds|
  {
    hide ClosesOnce, Body, Built, SplitMulti, Bodies, Stream;
    if ds == [] {
      SplitLead(lead);
      NoStream();
      assert lead + "" == lead;
      BodiesCons(ds);
    } else {
      var rest := "\r\n" + Stream(ds[1..]);
      StreamHead(ds);
      SplitFirst(lead, ds[0], rest);
      SplitStream("\r\n", ds[1..]);
      BodiesCons(ds);
      AllCons(ds);
      SplitsAlike(SplitMulti(lead + Stream(ds)), Body(ds[0]), SplitMulti(rest), Bodies(ds[1..]), ClosesOnce(ds[0]));
    }
  }

  lemma NoStream()
    ensures Stream([]) == ""
  {
  }

  lemma StreamHead(ds: seq<Card>)
    requires ds != []
    ensures Stream(ds) == Body(ds[0]) + ("\r\n" + Stream(ds[1..]))
  {
    hide Body, Built;
    BuiltIsBody(ds[0]);
  }

  lemma BodiesCons(ds: seq<Card>)
    ensures Bodies(ds) == if ds == [] then [] else [Body(ds[0])] + Bodies(ds[1..])
  {
    hide Body;
  }

  lemma AllCons(ds: seq<Card>)
    requires ds != []
    ensures (forall i :: 0 <= i < |ds| ==> ClosesOnce(ds[i])) <==>
      ClosesOnce(ds[0]) && forall i :: 0 <= i < |ds[1..]| ==> ClosesOnce(ds[1..][i])
  {
    hide ClosesOnce;
    assert forall i :: 0 < i < |ds| ==> ds[i] == ds[1..][i - 1];
  }

  lemma SplitsAlike(r: seq<string>, body: string, rest: seq<string>, bodies: seq<string>, closes: bool)
    requires r != [] && (r[0] == body <==> closes) && (closes ==> r == [body] + rest)
    ensures r == [body] + bodies <==> closes && rest == bodies
  {
    assert ([body] + bodies)[1..] == bodies && ([body] + rest)[1..] == rest;
  }

  /** Splitting an exported stream gives one piece per card, in order, exactly when every card
      closes once; and then each clean card is read back from its piece. */
  lemma StreamRoundTrip(ds: seq<Card>)
    ensures SplitMulti(Stream(ds)) == Bodies(ds) <==> forall i :: 0 <= i < |ds| ==> ClosesOnce(ds[i])
    ensures forall i :: 0 <= i < |ds| && Clean(ds[i]) ==> Parsed(Bodies(ds)[i]) == ds[i]
  {
    hide Clean, Parsed, Body, Built, ClosesOnce, SplitMulti, Stream;
    SplitStream("", ds);
    assert "" + Stream(ds) == Stream(ds);
    forall i | 0 <= i < |ds| && Clean(ds[i]) ensures Parsed(Bodies(ds)[i]) == ds[i] { BodyParsesBack(ds[i]); }
  }
}
