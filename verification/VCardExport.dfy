/** `exportVCard` and `importVCard` of internal/contactbridge/handlers.go. */
module VCardExport {
  import opened Text
  import opened VCard
  import opened VCardStream

  /** A contact as loaded: its fields and the text it was parsed from. */
  datatype Contact = Contact(card: Card, raw: string)

  // ---- Exporting ----------------------------------------------------------------------------

  function Exported(c: Contact): string {
    if c.raw == "" then Built(c.card) else if HasSuffix(c.raw, "\r\n") then c.raw else c.raw + "\r\n"
  }

  function ExportedAll(cs: seq<Contact>): string {
    if cs == [] then "" else ExportedAll(cs[..|cs| - 1]) + Exported(cs[|cs| - 1])
  }

  /** The writing loop of `exportVCard`. */
  method ExportVCard(cs: seq<Contact>) returns (text: string)
    ensures text == ExportedAll(cs)
  {
    hide Built;
    text := "";
    for i := 0 to |cs|
      invariant text == ExportedAll(cs[..i])
    {
      assert cs[..i + 1][..i] == cs[..i];
      if cs[i].raw != "" {
        text := text + cs[i].raw;
        if !HasSuffix(cs[i].raw, "\r\n") {
          text := text + "\r\n";
        } else {
          assert text == ExportedAll(cs[..i]) + Exported(cs[i]);
        }
        assert ExportedAll(cs[..i]) + (cs[i].raw + "\r\n") == ExportedAll(cs[..i]) + cs[i].raw + "\r\n";
        continue;
      }
      var built := BuildVCard(cs[i].card);
      text := text + built;
    }
    assert cs[..|cs|] == cs;
  }

  lemma {:induction false} ExportedCons(cs: seq<Contact>)
    requires cs != []
    ensures ExportedAll(cs) == Exported(cs[0]) + ExportedAll(cs[1..])
  {
    hide Exported, ExportedAll;
    var n := |cs| - 1;
    ExportedSnoc(cs);
    NothingExported();
    if n == 0 {
      assert cs[..0] == [] && cs[1..] == [];
    } else {
      ExportedCons(cs[..n]);
      ExportedSnoc(cs[1..]);
      assert cs[..n][1..] == cs[1..][..n - 1];
    }
  }

  lemma ExportedSnoc(cs: seq<Contact>)
    requires cs != []
    ensures ExportedAll(cs) == ExportedAll(cs[..|cs| - 1]) + Exported(cs[|cs| - 1])
  {
    hide Exported;
  }

  /** Every exported text ends with a line. */
  lemma ExportedEndsLine(c: Contact)
    ensures EndsLine(Exported(c))
  {
    hide Built;
    var t := Exported(c);
    if c.raw == "" {
      BuiltIsBody(c.card);
    } else if HasSuffix(c.raw, "\r\n") {
      assert c.raw[|c.raw| - 2..][1] == c.raw[|c.raw| - 1];
    }
  }

  // ---- Splitting an export ------------------------------------------------------------------

  /** The cards of each exported text, one text after another. */
  function PiecesOf(cs: seq<Contact>): seq<string> {
    if cs == [] then [] else SplitMulti(Exported(cs[0])) + PiecesOf(cs[1..])
  }

  /** No text leaves a card open that a later one closes. */
  ghost predicate NoLeak(cs: seq<Contact>) {
    forall i, j :: 0 <= i < j < |cs| ==> !Leaks(Exported(cs[i]), Exported(cs[j]))
  }

  lemma {:induction false} ExportHasEnd(cs: seq<Contact>)
    ensures HasEnd(ExportedAll(cs)) <==> exists j :: 0 <= j < |cs| && HasEnd(Exported(cs[j]))
    decreases |cs|
  {
    hide Exported, IndexOf, ExportedAll;
    if cs == [] {
      NothingExported();
    } else {
      ExportedCons(cs);
      ExportHasEnd(cs[1..]);
      ExportedEndsLine(cs[0]);
      IndexInOne(Exported(cs[0]), ExportedAll(cs[1..]), END);
      assert forall j :: 0 < j < |cs| ==> cs[j] == cs[1..][j - 1];
    }
  }

  lemma NothingExported()
    ensures ExportedAll([]) == "" && !HasEnd("") && SplitMulti("") == []
  {
  }

  /** A text leaks into the rest of the export exactly when it leaks into some later text. */
  lemma LeaksSomewhere(cs: seq<Contact>)
    requires cs != []
    ensures Leaks(Exported(cs[0]), ExportedAll(cs[1..])) <==>
      exists j :: 0 < j < |cs| && Leaks(Exported(cs[0]), Exported(cs[j]))
  {
    hide Exported, IndexOf, ExportedAll, Dangles, HasEnd;
    var rest := cs[1..];
    ExportHasEnd(rest);
    assert forall j :: 0 < j < |cs| ==> cs[j] == rest[j - 1];
    if j :| 0 <= j < |rest| && HasEnd(Exported(rest[j])) {
      assert rest[j] == cs[j + 1];
    }
  }

  lemma NoLeakCons(cs: seq<Contact>)
    requires cs != []
    ensures NoLeak(cs) <==> !Leaks(Exported(cs[0]), ExportedAll(cs[1..])) && NoLeak(cs[1..])
  {
    hide Exported, Leaks, ExportedAll;
    LeaksSomewhere(cs);
    var rest := cs[1..];
    assert forall j :: 0 < j < |cs| ==> cs[j] == rest[j - 1];
    if NoLeak(rest) && !Leaks(Exported(cs[0]), ExportedAll(rest)) {
      forall i, j | 0 <= i < j < |cs| ensures !Leaks(Exported(cs[i]), Exported(cs[j])) {
        assert i > 0 ==> cs[i] == rest[i - 1] && cs[j] == rest[j - 1];
      }
    }
  }

  /** The cards of an export are the cards of each contact's text, in order, exactly when no text
      leaves a card open that a later one closes. */
  lemma {:induction false} ExportSplits(cs: seq<Contact>)
    ensures SplitMulti(ExportedAll(cs)) == PiecesOf(cs) <==> NoLeak(cs)
    ensures TotalLength(SplitMulti(ExportedAll(cs))) >= TotalLength(PiecesOf(cs))
    decreases |cs|
  {
    hide Exported, ExportedAll, SplitMulti, Leaks, NoLeak, TotalLength;
    if cs == [] {
      NothingExported();
      NothingLeaks();
    } else {
      var first, rest := Exported(cs[0]), ExportedAll(cs[1..]);
      ExportedCons(cs);
      ExportedEndsLine(cs[0]);
      SplitTogether(first, rest);
      ExportSplits(cs[1..]);
      NoLeakCons(cs);
      TotalLengthConcat(SplitMulti(first), PiecesOf(cs[1..]));
      TotalLengthConcat(SplitMulti(first), SplitMulti(rest));
      SamePrefix(SplitMulti(first), SplitMulti(rest), PiecesOf(cs[1..]));
    }
  }

  lemma NothingLeaks()
    ensures NoLeak([])
  {
  }

  lemma SamePrefix(p: seq<string>, q: seq<string>, r: seq<string>)
    ensures p + q == p + r <==> q == r
  {
    assert (p + q)[|p|..] == q && (p + r)[|p|..] == r;
  }

  /** A text cut off inside a card swallows the next contact's. */
  lemma OpenCardLeaks(c: Contact)
    requires HasEnd(Exported(c))
    ensures var cut := Contact(BLANK, "BEGIN:VCARD");
      SplitMulti(ExportedAll([cut, c])) != PiecesOf([cut, c])
  {
    hide Built, SplitMulti, IndexOf;
    var cut := Contact(BLANK, "BEGIN:VCARD");
    var cs := [cut, c];
    CutDangles();
    assert Exported(cut) == "BEGIN:VCARD\r\n";
    assert Leaks(Exported(cs[0]), Exported(cs[1]));
    assert !NoLeak(cs);
    ExportSplits(cs);
  }

  lemma CutDangles()
    ensures Dangles("BEGIN:VCARD\r\n")
  {
    hide Leftover, FirstCard, IndexOf;
    var t := "BEGIN:VCARD\r\n";
    assert t[0..11] == BEGIN;
    assert OpensLast(t, 0) by {
      forall j: nat ensures !OccursAt(t, END, j) {
        assert j + |END| <= |t| ==> t[j..j + |END|][0] == t[j];
        assert t[1] == 'E' && t[1..10][1] == t[2] == 'G';
      }
    }
    DanglesIff(t);
  }

  // ---- Importing ----------------------------------------------------------------------------

  /** The draft `importVCard` makes of a piece: the parsed card under a fresh UID. */
  function Draft(piece: string): Card {
    Parsed(piece).(uid := "")
  }

  /** The drafts that have a name and are accepted by the store, in order; `creates` may answer
      differently at each position. */
  function Accepted(drafts: seq<Card>, creates: (nat, Card) -> bool): seq<Card> {
    if drafts == [] then []
    else
      var n := |drafts| - 1;
      Accepted(drafts[..n], creates) + (if drafts[n].fn != "" && creates(n, drafts[n]) then [drafts[n]] else [])
  }

  /** A nameless contact is never created. */
  lemma {:induction false} AcceptedAre(drafts: seq<Card>, creates: (nat, Card) -> bool)
    ensures forall d :: d in Accepted(drafts, creates) ==> d.fn != "" && d in drafts
    ensures |Accepted(drafts, creates)| <= |drafts|
  {
    if drafts != [] {
      AcceptedAre(drafts[..|drafts| - 1], creates);
    }
  }

  /** The draft has a name, and the store takes it. */
  predicate Taken(drafts: seq<Card>, creates: (nat, Card) -> bool, i: nat)
    requires i < |drafts|
  {
    drafts[i].fn != "" && creates(i, drafts[i])
  }

  predicate AllTaken(drafts: seq<Card>, creates: (nat, Card) -> bool) {
    forall i :: 0 <= i < |drafts| ==> Taken(drafts, creates, i)
  }

  lemma AcceptedSnoc(drafts: seq<Card>, creates: (nat, Card) -> bool)
    requires drafts != []
    ensures var n := |drafts| - 1;
      Accepted(drafts, creates) ==
      Accepted(drafts[..n], creates) + if Taken(drafts, creates, n) then [drafts[n]] else []
  {
  }

  lemma TakenBefore(drafts: seq<Card>, creates: (nat, Card) -> bool, n: nat, i: nat)
    requires i < n <= |drafts|
    ensures Taken(drafts[..n], creates, i) <==> Taken(drafts, creates, i)
  {
    assert drafts[..n][i] == drafts[i];
  }

  lemma TakenSnoc(drafts: seq<Card>, creates: (nat, Card) -> bool)
    requires drafts != []
    ensures var n := |drafts| - 1;
      AllTaken(drafts, creates) <==> AllTaken(drafts[..n], creates) && Taken(drafts, creates, n)
  {
    hide Taken;
    var n := |drafts| - 1;
    forall i: nat | i < n ensures Taken(drafts[..n], creates, i) <==> Taken(drafts, creates, i) {
      TakenBefore(drafts, creates, n, i);
    }
  }

  /** All are, exactly when each is taken. */
  lemma {:induction false} AcceptsAllIff(drafts: seq<Card>, creates: (nat, Card) -> bool)
    ensures Accepted(drafts, creates) == drafts <==> AllTaken(drafts, creates)
  {
    hide Accepted, AllTaken, Taken;
    if drafts == [] {
      NoneTaken(creates);
    } else {
      var n := |drafts| - 1;
      AcceptedSnoc(drafts, creates);
      TakenSnoc(drafts, creates);
      AcceptsAllIff(drafts[..n], creates);
      AcceptedAre(drafts[..n], creates);
      LastTaken(drafts, Accepted(drafts[..n], creates), Taken(drafts, creates, n));
    }
  }

  lemma NoneTaken(creates: (nat, Card) -> bool)
    ensures Accepted([], creates) == [] && AllTaken([], creates)
  {
  }

  lemma LastTaken(drafts: seq<Card>, rest: seq<Card>, taken: bool)
    requires drafts != [] && |rest| < |drafts|
    ensures var n := |drafts| - 1;
      rest + (if taken then [drafts[n]] else []) == drafts <==> taken && rest == drafts[..n]
  {
    var n := |drafts| - 1;
    assert drafts == drafts[..n] + [drafts[n]];
    if taken && rest + [drafts[n]] == drafts {
      assert (rest + [drafts[n]])[..|rest|] == rest;
    }
  }

  function Drafts(pieces: seq<string>): (r: seq<Card>)
    ensures |r| == |pieces| && forall i :: 0 <= i < |r| ==> r[i] == Draft(pieces[i])
  {
    seq(|pieces|, i requires 0 <= i < |pieces| => Draft(pieces[i]))
  }

  /** The counting loop of `importVCard`; `creates` stands for the outcome of each `CreateContact`. */
  method ImportVCard(body: string, creates: (nat, Card) -> bool) returns (created: nat, failed: nat, made: seq<Card>)
    ensures made == Accepted(Drafts(SplitMulti(body)), creates) && created == |made|
    ensures created + failed == |SplitMulti(body)|
  {
    hide Parsed, SplitMulti;
    var pieces := SplitMultiVCard(body);
    ghost var drafts := Drafts(pieces);
    created, failed, made := 0, 0, [];
    for i := 0 to |pieces|
      invariant made == Accepted(drafts[..i], creates) && created == |made| && created + failed == i
    {
      assert drafts[..i + 1][..i] == drafts[..i];
      var c := ParseVCard(pieces[i]);
      var draft := c.(uid := "");
      if c.fn == "" || !creates(i, draft) {
        failed := failed + 1;
        continue;
      }
      made := made + [draft];
      created := created + 1;
    }
    assert drafts[..|pieces|] == drafts;
  }

  // ---- Text around a card -----------------------------------------------------------------------

  /** Text put after a card: nothing, or further lines without a colon. */
  predicate Tail(w: string) {
    w == "" || (w[0] in {'\r', '\n'} && ':' !in w)
  }

  /** Text put before a card: nothing, or whole lines without a colon. */
  predicate Head(w: string) {
    EndsLine(w) && ':' !in w
  }

  lemma NoColonNoMarker(w: string)
    requires ':' !in w
    ensures !HasBegin(w) && !HasEnd(w)
  {
    hide IndexOf;
    forall k: nat ensures !OccursAt(w, BEGIN, k) && !OccursAt(w, END, k) {
      assert k + |BEGIN| <= |w| ==> w[k..k + |BEGIN|][5] == w[k + 5];
      assert k + |END| <= |w| ==> w[k..k + |END|][3] == w[k + 3];
    }
  }

  /** Where there is no card, such a tail makes none. */
  lemma TailMakesNoCard(a: string, w: string)
    requires Tail(w) && FirstCard(a) == NoCut
    ensures FirstCard(a + w) == NoCut && (HasBegin(a + w) <==> HasBegin(a))
  {
    hide IndexOf;
    NoColonNoMarker(w);
    if w == "" {
      assert a + w == a;
    } else {
      IndexInOne(a, w, BEGIN);
      if HasBegin(a) {
        var i := IndexOf(a, BEGIN).i;
        IndexInOne(a[i..], w, END);
        assert (a + w)[i..] == a[i..] + w;
      }
    }
  }

  /** Such a tail changes neither the cards of a text nor whether one is left open. */
  lemma {:induction false} TailIgnored(a: string, w: string)
    requires Tail(w)
    ensures SplitMulti(a + w) == SplitMulti(a) && (Dangles(a + w) <==> Dangles(a))
    decreases |a|
  {
    hide FirstCard, HasBegin, SplitMulti, TotalLength, Leftover, Tail;
    var c := FirstCard(a);
    if c.Cut? {
      FirstCardKept(a, w);
      SplitTurn(a, c.start, c.end);
      SplitTurn(a + w, c.start, c.end);
      assert (a + w)[c.start..c.end] == a[c.start..c.end] && (a + w)[c.end..] == a[c.end..] + w;
      TailIgnored(a[c.end..], w);
    } else {
      TailMakesNoCard(a, w);
      SplitStops(a);
      SplitStops(a + w);
    }
  }

  /** Nor does such a head. */
  lemma HeadIgnored(w: string, a: string)
    requires Head(w)
    ensures SplitMulti(w + a) == SplitMulti(a) && (Dangles(w + a) <==> Dangles(a))
  {
    hide FirstCard, HasBegin, SplitMulti, TotalLength, Leftover, EndsLine;
    NoColonNoMarker(w);
    SplitMoved(w, a);
    FirstCardMoved(w, a);
    var c := FirstCard(a);
    if c.Cut? {
      SplitTurn(a, c.start, c.end);
      SplitTurn(w + a, |w| + c.start, |w| + c.end);
      SliceOfSecond(w, a, c.start, c.end);
    } else {
      SplitStops(a);
      SplitStops(w + a);
      BeginMoved(w, a);
    }
  }

  lemma BeginMoved(w: string, a: string)
    requires EndsLine(w) && !HasBegin(w)
    ensures HasBegin(w + a) <==> HasBegin(a)
  {
    hide IndexOf;
    IndexInOne(w, a, BEGIN);
  }

  /** The export's own line end is such a tail: an exported text has the cards of the stored one. */
  lemma ExportKeepsCards(c: Contact)
    requires c.raw != ""
    ensures SplitMulti(Exported(c)) == SplitMulti(c.raw) && (Dangles(Exported(c)) <==> Dangles(c.raw))
  {
    hide SplitMulti, Dangles;
    TailIgnored(c.raw, "\r\n");
  }

  // ---- What is read through it ------------------------------------------------------------------

  lemma {:induction false} SplitJoined(a: string, b: string)
    ensures Split(a + "\n" + b, '\n') == Split(a, '\n') + Split(b, '\n')
  {
    if a == "" {
      assert a + "\n" + b == "" + ['\n'] + b;
      SplitLine("", b, '\n');
    } else {
      assert (a + "\n" + b)[1..] == a[1..] + "\n" + b;
      SplitJoined(a[1..], b);
      JoinedStep(a[0], Split(a[1..], '\n'), Split(b, '\n'));
    }
  }

  lemma JoinedStep(first: char, xs: seq<string>, ys: seq<string>)
    requires xs != []
    ensures [""] + (xs + ys) == [""] + xs + ys
    ensures [[first] + (xs + ys)[0]] + (xs + ys)[1..] == [[first] + xs[0]] + xs[1..] + ys
  {
    assert (xs + ys)[1..] == xs[1..] + ys;
  }

  lemma {:induction false} ParseLinesConcat(c: Card, xs: seq<string>, ys: seq<string>)
    ensures ParseLines(c, xs + ys) == ParseLines(ParseLines(c, xs), ys)
    decreases |xs|
  {
    hide ParseLine;
    if xs == [] {
      assert xs + ys == ys;
    } else {
      assert (xs + ys)[1..] == xs[1..] + ys;
      ParseLinesConcat(ParseLine(c, TrimCR(xs[0])), xs[1..], ys);
    }
  }

  /** A line without a colon says nothing. */
  lemma NoColonLine(c: Card, line: string)
    requires ':' !in line
    ensures ParseLine(c, TrimCR(line)) == c
  {
    var l := TrimCR(line);
    assert l == line[..|l|];
    FirstOfIs(l, {':'}, |l|);
  }

  lemma {:induction false} NoColonLines(c: Card, text: string)
    requires ':' !in text
    ensures ParseLines(c, Split(text, '\n')) == c
  {
    LinesLackColon(text);
    SilentLines(c, Split(text, '\n'));
  }

  lemma {:induction false} LinesLackColon(text: string)
    requires ':' !in text
    ensures forall i :: 0 <= i < |Split(text, '\n')| ==> ':' !in Split(text, '\n')[i]
  {
    if text != "" {
      LinesLackColon(text[1..]);
    }
  }

  lemma {:induction false} SilentLines(c: Card, lines: seq<string>)
    requires forall i :: 0 <= i < |lines| ==> ':' !in lines[i]
    ensures ParseLines(c, lines) == c
    decreases |lines|
  {
    hide ParseLine;
    if lines != [] {
      NoColonLine(c, lines[0]);
      SilentLines(c, lines[1..]);
    }
  }

  /** Further lines without a colon change nothing of what is read. */
  lemma ParsedBefore(t: string, more: string)
    requires ':' !in more
    ensures Parsed(t + "\n" + more) == Parsed(t)
  {
    hide ParseLines, Split;
    SplitJoined(t, more);
    ParseLinesConcat(BLANK, Split(t, '\n'), Split(more, '\n'));
    NoColonLines(Parsed(t), more);
  }

  /** Nor do earlier ones. */
  lemma ParsedAfter(more: string, t: string)
    requires ':' !in more
    ensures Parsed(more + "\n" + t) == Parsed(t)
  {
    hide ParseLines, Split;
    SplitJoined(more, t);
    ParseLinesConcat(BLANK, Split(more, '\n'), Split(t, '\n'));
    NoColonLines(BLANK, more);
  }

  lemma {:induction false} SplitCR(t: string)
    ensures var parts := Split(t, '\n');
      Split(t + "\r", '\n') == parts[..|parts| - 1] + [parts[|parts| - 1] + "\r"]
  {
    if t == "" {
      assert t + "\r" == "\r";
      SplitNone("\r", '\n');
      assert [""][..0] + ["" + "\r"] == ["\r"];
    } else {
      assert (t + "\r")[1..] == t[1..] + "\r";
      SplitCR(t[1..]);
      CRStep(t[0], Split(t[1..], '\n'));
    }
  }

  lemma CRStep(first: char, rest: seq<string>)
    requires rest != []
    ensures var m := |rest| - 1;
      var more := rest[..m] + [rest[m] + "\r"];
      var parts := [[first] + rest[0]] + rest[1..];
      && [""] + more == ([""] + rest)[..m + 1] + [([""] + rest)[m + 1] + "\r"]
      && [[first] + more[0]] + more[1..] == parts[..m] + [parts[m] + "\r"]
  {
    assert [first] + (rest[0] + "\r") == [first] + rest[0] + "\r";
  }

  lemma ParseOneLine(c: Card, a: string)
    ensures ParseLines(c, [a]) == ParseLine(c, TrimCR(a))
  {
    hide ParseLine;
    assert [a][1..] == [];
  }

  /** A CR at the end is dropped. */
  lemma ParsedWithCR(t: string)
    ensures Parsed(t + "\r") == Parsed(t)
  {
    hide ParseLine, ParseLines, Split;
    SplitCR(t);
    var parts := Split(t, '\n');
    var n := |parts| - 1;
    var c := ParseLines(BLANK, parts[..n]);
    assert parts == parts[..n] + [parts[n]];
    ParseLinesConcat(BLANK, parts[..n], [parts[n] + "\r"]);
    ParseLinesConcat(BLANK, parts[..n], [parts[n]]);
    ParseOneLine(c, parts[n] + "\r");
    ParseOneLine(c, parts[n]);
    assert (parts[n] + "\r")[..|parts[n]|] == parts[n];
    assert TrimCR(parts[n] + "\r") == TrimCR(parts[n]);
  }

  /** So a tail of line ends, or of one line end and more lines without a colon, is not read. */
  predicate ReadTail(w: string) {
    w == "" || (w[0] == '\n' && ':' !in w) || (HasPrefix(w, "\r\n") && ':' !in w)
  }

  lemma TailUnread(t: string, w: string)
    requires ReadTail(w)
    ensures Tail(w) && Parsed(t + w) == Parsed(t)
  {
    hide Parsed;
    if w == "" {
      assert t + w == t;
    } else if w[0] == '\n' {
      assert t + w == t + "\n" + w[1..];
      ParsedBefore(t, w[1..]);
    } else {
      assert w[..2] == "\r\n" && w[0] == '\r' && w[1] == '\n';
      assert t + w == t + "\r" + "\n" + w[2..];
      ParsedBefore(t + "\r", w[2..]);
      ParsedWithCR(t);
    }
  }

  lemma HeadUnread(w: string, t: string)
    requires Head(w)
    ensures Parsed(w + t) == Parsed(t)
  {
    hide Parsed;
    if w == "" {
      assert w + t == t;
    } else {
      var n := |w| - 1;
      assert w + t == w[..n] + "\n" + t;
      ParsedAfter(w[..n], t);
    }
  }

  // ---- Importing an export ------------------------------------------------------------------------

  /** The exported text holds exactly one card. */
  ghost predicate Single(c: Contact) {
    |SplitMulti(Exported(c))| == 1
  }

  /** It holds one card, and that card has the contact's fields but the UID. */
  ghost predicate Recreates(c: Contact) {
    Single(c) && Draft(OnlyCard(c)) == c.card.(uid := "")
  }

  function WithoutUids(cs: seq<Contact>): (r: seq<Card>)
    ensures |r| == |cs| && forall i :: 0 <= i < |r| ==> r[i] == cs[i].card.(uid := "")
  {
    seq(|cs|, i requires 0 <= i < |cs| => cs[i].card.(uid := ""))
  }

  /** The one card of a text that holds exactly one. */
  ghost function OnlyCard(c: Contact): string
    requires Single(c)
  {
    SplitMulti(Exported(c))[0]
  }

  lemma OnlyPiece(c: Contact)
    requires Single(c)
    ensures SplitMulti(Exported(c)) == [OnlyCard(c)]
  {
    hide SplitMulti, Exported;
  }

  lemma PiecesCons(cs: seq<Contact>)
    ensures PiecesOf(cs) == if cs == [] then [] else SplitMulti(Exported(cs[0])) + PiecesOf(cs[1..])
  {
    hide SplitMulti, Exported;
  }

  lemma {:induction false} SinglePieces(cs: seq<Contact>)
    requires forall i :: 0 <= i < |cs| ==> Single(cs[i])
    ensures |PiecesOf(cs)| == |cs| && forall i :: 0 <= i < |cs| ==> PiecesOf(cs)[i] == OnlyCard(cs[i])
  {
    hide SplitMulti, Exported, PiecesOf, Single, OnlyCard;
    PiecesCons(cs);
    if cs != [] {
      OnlyPiece(cs[0]);
      SinglePieces(cs[1..]);
      assert forall i :: 0 < i < |cs| ==> cs[i] == cs[1..][i - 1];
      assert forall i :: 0 < i < |cs| ==> PiecesOf(cs)[i] == PiecesOf(cs[1..])[i - 1];
    }
  }

  /** What an import makes of an export: the cards of each contact's text, in order, as long as
      nothing leaks. */
  lemma ImportOfExport(cs: seq<Contact>, creates: (nat, Card) -> bool)
    requires NoLeak(cs)
    ensures Accepted(Drafts(SplitMulti(ExportedAll(cs))), creates) == Accepted(Drafts(PiecesOf(cs)), creates)
  {
    hide SplitMulti, ExportedAll, PiecesOf, NoLeak, Drafts;
    ExportSplits(cs);
  }

  /** When each contact's text holds one card and nothing leaks, importing the export offers the store
      every contact again, in order, with every field but the UID, exactly when each card has its
      contact's fields. */
  lemma ImportRecreatesIff(cs: seq<Contact>)
    requires NoLeak(cs) && forall i :: 0 <= i < |cs| ==> Single(cs[i])
    ensures Drafts(SplitMulti(ExportedAll(cs))) == WithoutUids(cs) <==> forall i :: 0 <= i < |cs| ==> Recreates(cs[i])
  {
    hide SplitMulti, ExportedAll, PiecesOf, NoLeak, Exported, Draft, Single, OnlyCard;
    ExportSplits(cs);
    SinglePieces(cs);
    var drafts, cards := Drafts(PiecesOf(cs)), WithoutUids(cs);
    assert forall i :: 0 <= i < |cs| ==> (drafts[i] == cards[i] <==> Recreates(cs[i]));
    if forall i :: 0 <= i < |cs| ==> Recreates(cs[i]) {
      assert drafts == cards;
    }
  }

  /** A stored text that is one card, with text before or after it that says nothing. */
  ghost predicate StoredCard(raw: string, head: string, piece: string, tail: string) {
    raw == head + piece + tail && SplitMulti(piece) == [piece] && Head(head) && ReadTail(tail)
  }

  /** A contact loaded from such a text, or built from clean fields none of which closes the card. */
  ghost predicate Whole(c: Contact) {
    if c.raw == "" then Clean(c.card) && ClosesOnce(c.card)
    else c.card == Parsed(c.raw) && exists head, piece, tail :: StoredCard(c.raw, head, piece, tail)
  }

  /** A text that is its own only card leaves nothing open. */
  lemma CardCloses(t: string)
    requires SplitMulti(t) == [t]
    ensures !Dangles(t)
  {
    hide FirstCard, SplitMulti, Leftover, HasBegin;
    var c := FirstCard(t);
    if c.NoCut? {
      SplitStops(t);
    } else {
      SplitTurn(t, c.start, c.end);
      assert [t[c.start..c.end]][0] == t;
      assert t[c.end..] == "";
      NothingOpen();
    }
  }

  lemma NothingOpen()
    ensures Leftover("") == "" && !HasBegin("")
  {
  }

  lemma StoredRecreates(c: Contact, head: string, piece: string, tail: string)
    requires c.raw != "" && c.card == Parsed(c.raw) && StoredCard(c.raw, head, piece, tail)
    ensures Recreates(c) && !Dangles(Exported(c))
  {
    hide SplitMulti, Dangles, Parsed, Exported, Head, ReadTail;
    ExportKeepsCards(c);
    HeadIgnored(head, piece + tail);
    HeadUnread(head, piece + tail);
    TailUnread(piece, tail);
    TailIgnored(piece, tail);
    CardCloses(piece);
    assert head + piece + tail == head + (piece + tail);
    assert [piece][0] == piece;
  }

  lemma BuiltRecreates(c: Contact)
    requires c.raw == "" && Clean(c.card) && ClosesOnce(c.card)
    ensures Recreates(c) && !Dangles(Exported(c))
  {
    hide SplitMulti, Dangles, Parsed, Built, Body, Clean, ClosesOnce;
    var piece := Body(c.card);
    BuiltIsBody(c.card);
    SplitFirst("", c.card, "");
    NothingExported();
    assert "" + (piece + "") == piece && [piece] + [] == [piece];
    CardCloses(piece);
    TailIgnored(piece, "\r\n");
    BodyParsesBack(c.card);
    assert [piece][0] == piece;
  }

  lemma WholeRecreates(c: Contact)
    requires Whole(c)
    ensures Recreates(c) && !Dangles(Exported(c))
  {
    hide Recreates, Dangles, Exported, Parsed, StoredCard, Clean, ClosesOnce;
    if c.raw == "" {
      BuiltRecreates(c);
    } else {
      var head, piece, tail :| StoredCard(c.raw, head, piece, tail);
      StoredRecreates(c, head, piece, tail);
    }
  }

  /** Importing an export of whole contacts offers the store every contact again, in order, with
      every field but the UID; it keeps those that have a name and are accepted. */
  lemma ImportRecreates(cs: seq<Contact>, creates: (nat, Card) -> bool)
    requires forall i :: 0 <= i < |cs| ==> Whole(cs[i])
    ensures Drafts(SplitMulti(ExportedAll(cs))) == WithoutUids(cs)
    ensures Accepted(Drafts(SplitMulti(ExportedAll(cs))), creates) == Accepted(WithoutUids(cs), creates)
  {
    hide SplitMulti, ExportedAll, Exported, Whole, Drafts, Draft, Dangles, HasEnd, WithoutUids;
    forall i | 0 <= i < |cs| ensures Recreates(cs[i]) && !Dangles(Exported(cs[i])) {
      WholeRecreates(cs[i]);
    }
    ImportRecreatesIff(cs);
  }
}
