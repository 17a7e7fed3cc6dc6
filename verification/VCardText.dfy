/** vCard value escaping and list splitting of internal/contactbridge/service.go
    (section 3.4 of RFC 6350). */
module VCardText {

  // ---- Escaping -------------------------------------------------------------------------

  /** `strings.ReplaceAll` of one character by a text. */
  function ReplaceAll(s: string, c: char, txt: string): string {
    if s == [] then [] else (if s[0] == c then txt else [s[0]]) + ReplaceAll(s[1..], c, txt)
  }

  /** `escapeVCardValue`: four passes, the backslash first. */
  function EscapeVCardValue(s: string): string {
    ReplaceAll(ReplaceAll(ReplaceAll(ReplaceAll(s, '\\', "\\\\"), '\n', "\\n"), ',', "\\,"), ';', "\\;")
  }

  function EscapeChar(c: char): string {
    if c == '\\' then "\\\\" else if c == '\n' then "\\n"
    else if c == ',' then "\\," else if c == ';' then "\\;" else [c]
  }

  /** One pass, character by character. */
  function Escape(s: string): string {
    if s == [] then [] else EscapeChar(s[0]) + Escape(s[1..])
  }

  lemma {:induction false} ReplaceConcat(a: string, b: string, c: char, txt: string)
    ensures ReplaceAll(a + b, c, txt) == ReplaceAll(a, c, txt) + ReplaceAll(b, c, txt)
  {
    if a == [] {
      assert a + b == b;
    } else {
      assert (a + b)[1..] == a[1..] + b;
      ReplaceConcat(a[1..], b, c, txt);
    }
  }

  lemma {:induction false} ReplaceAbsent(s: string, c: char, txt: string)
    requires c !in s
    ensures ReplaceAll(s, c, txt) == s
  {
    if s != [] {
      ReplaceAbsent(s[1..], c, txt);
      assert s == [s[0]] + s[1..];
    }
  }

  lemma ReplaceSingle(c: char, txt: string)
    ensures ReplaceAll([c], c, txt) == txt
  {
    assert ReplaceAll([c][1..], c, txt) == [];
  }

  lemma EscapeOneChar(c: char)
    ensures EscapeVCardValue([c]) == EscapeChar(c)
  {
    hide ReplaceAll;
    if c == '\\' {
      ReplaceSingle(c, "\\\\");
      ReplaceAbsent("\\\\", '\n', "\\n");
      ReplaceAbsent("\\\\", ',', "\\,");
      ReplaceAbsent("\\\\", ';', "\\;");
    } else {
      ReplaceAbsent([c], '\\', "\\\\");
      if c == '\n' {
        ReplaceSingle(c, "\\n");
        ReplaceAbsent("\\n", ',', "\\,");
        ReplaceAbsent("\\n", ';', "\\;");
      } else {
        ReplaceAbsent([c], '\n', "\\n");
        if c == ',' {
          ReplaceSingle(c, "\\,");
          ReplaceAbsent("\\,", ';', "\\;");
        } else {
          ReplaceAbsent([c], ',', "\\,");
          if c == ';' { ReplaceSingle(c, "\\;"); } else { ReplaceAbsent([c], ';', "\\;"); }
        }
      }
    }
  }

  /** The four passes never rewrite what an earlier pass put in: together they are one
      per-character escape. */
  lemma {:induction false} PassesAreOneEscape(s: string)
    ensures EscapeVCardValue(s) == Escape(s)
  {
    if s != [] {
      PassesAreOneEscape(s[1..]);
      EscapeOneChar(s[0]);
      assert s == [s[0]] + s[1..];
      PassesConcat([s[0]], s[1..]);
    }
  }

  lemma PassesConcat(a: string, b: string)
    ensures EscapeVCardValue(a + b) == EscapeVCardValue(a) + EscapeVCardValue(b)
  {
    hide ReplaceAll;
    var a1, b1 := ReplaceAll(a, '\\', "\\\\"), ReplaceAll(b, '\\', "\\\\");
    var a2, b2 := ReplaceAll(a1, '\n', "\\n"), ReplaceAll(b1, '\n', "\\n");
    var a3, b3 := ReplaceAll(a2, ',', "\\,"), ReplaceAll(b2, ',', "\\,");
    ReplaceConcat(a, b, '\\', "\\\\");
    ReplaceConcat(a1, b1, '\n', "\\n");
    ReplaceConcat(a2, b2, ',', "\\,");
    ReplaceConcat(a3, b3, ';', "\\;");
  }

  // ---- Unescaping -----------------------------------------------------------------------

  function UnescapeChar(c: char): char {
    if c == 'n' || c == 'N' then '\n' else c
  }

  function Unescape(s: string): string {
    if s == [] then []
    else if s[0] == '\\' && |s| > 1 then [UnescapeChar(s[1])] + Unescape(s[2..])
    else [s[0]] + Unescape(s[1..])
  }

  lemma {:induction false} UnescapePlain(s: string)
    requires '\\' !in s
    ensures Unescape(s) == s
  {
    if s != [] {
      UnescapePlain(s[1..]);
      assert s == [s[0]] + s[1..];
    }
  }

  /** Unescaping any text, written by a client or not: a backslash and `n` or `N` stand for a newline, a
      backslash and any other character for that character, and a backslash at the end for itself. */
  lemma UnescapeReads(c: char, rest: string)
    ensures Unescape("\\n" + rest) == "\n" + Unescape(rest) && Unescape("\\N" + rest) == "\n" + Unescape(rest)
    ensures c != 'n' && c != 'N' ==> Unescape(['\\', c] + rest) == [c] + Unescape(rest)
    ensures c != '\\' ==> Unescape([c] + rest) == [c] + Unescape(rest)
    ensures Unescape("\\") == "\\" && Unescape("") == ""
  {
    assert ("\\n" + rest)[2..] == rest && ("\\N" + rest)[2..] == rest && (['\\', c] + rest)[2..] == rest;
    assert ([c] + rest)[1..] == rest && "\\"[1..] == "";
  }

  /** Position `i` holds a backslash with a character after it. */
  predicate EscapeAt(s: string, i: nat) {
    i + 1 < |s| && s[i] == '\\'
  }

  lemma UnescapeStep(s: string, i: nat)
    requires i < |s|
    ensures Unescape(s[i..]) ==
      if EscapeAt(s, i) then [UnescapeChar(s[i + 1])] + Unescape(s[i + 2..]) else [s[i]] + Unescape(s[i + 1..])
  {
    assert s[i..][1..] == s[i + 1..];
    if EscapeAt(s, i) { assert s[i..][2..] == s[i + 2..]; }
  }

  /** The index loop of `unescapeVCardValue`, from what is built and where it stands. */
  ghost function UnescapeLoop(out: string, s: string, i: nat): string
    decreases |s| - i
  {
    if i >= |s| then out
    else if EscapeAt(s, i) then UnescapeLoop(out + [UnescapeChar(s[i + 1])], s, i + 2)
    else UnescapeLoop(out + [s[i]], s, i + 1)
  }

  lemma {:induction false} UnescapeLoopIs(out: string, s: string, i: nat)
    requires i <= |s|
    ensures UnescapeLoop(out, s, i) == out + Unescape(s[i..])
    decreases |s| - i
  {
    if i == |s| {
      assert out + Unescape(s[i..]) == out;
    } else {
      UnescapeStep(s, i);
      hide Unescape;
      if EscapeAt(s, i) {
        UnescapeLoopIs(out + [UnescapeChar(s[i + 1])], s, i + 2);
      } else {
        UnescapeLoopIs(out + [s[i]], s, i + 1);
      }
    }
  }

  /** `unescapeVCardValue`. */
  method UnescapeVCardValue(s: string) returns (out: string)
    ensures out == Unescape(s)
  {
    if '\\' !in s {
      UnescapePlain(s);
      return s;
    }
    UnescapeLoopIs([], s, 0);
    assert s[0..] == s;
    out := [];
    var i := 0;
    while i < |s|
      invariant 0 <= i <= |s| && UnescapeLoop(out, s, i) == UnescapeLoop([], s, 0)
    {
      if s[i] == '\\' && i + 1 < |s| {
        out := out + [UnescapeChar(s[i + 1])];
        i := i + 2;
        continue;
      }
      out := out + [s[i]];
      i := i + 1;
    }
  }

  lemma UnescapeFirst(c: char, rest: string)
    ensures Unescape(EscapeChar(c) + rest) == [c] + Unescape(rest)
  {
    var t := EscapeChar(c) + rest;
    assert t[|EscapeChar(c)|..] == rest;
  }

  /** Unescaping reads an escaped value back, whatever text follows it. */
  lemma {:induction false} UnescapeEscape(s: string, rest: string)
    ensures Unescape(Escape(s) + rest) == s + Unescape(rest)
  {
    hide Unescape, EscapeChar;
    if s == [] {
      assert Escape(s) + rest == rest && s + Unescape(rest) == Unescape(rest);
    } else {
      UnescapeEscape(s[1..], rest);
      UnescapeFirst(s[0], Escape(s[1..]) + rest);
      assert Escape(s) + rest == EscapeChar(s[0]) + (Escape(s[1..]) + rest);
      assert s + Unescape(rest) == [s[0]] + (s[1..] + Unescape(rest));
    }
  }

  /** `unescapeVCardValue` inverts `escapeVCardValue`. */
  lemma UnescapeInverts(s: string)
    ensures Unescape(EscapeVCardValue(s)) == s
  {
    PassesAreOneEscape(s);
    UnescapeEscape(s, []);
    assert Escape(s) + [] == Escape(s) && s + Unescape([]) == s;
  }

  // ---- Lists ----------------------------------------------------------------------------

  function Attach(head: string, parts: seq<string>): (r: seq<string>)
    requires parts != []
    ensures r != []
  {
    [head + parts[0]] + parts[1..]
  }

  lemma AttachTwice(a: string, b: string, parts: seq<string>)
    requires parts != []
    ensures Attach(a, Attach(b, parts)) == Attach(a + b, parts)
    ensures Attach([], parts) == parts && Attach(a, [""] + parts) == [a] + parts
  {
    assert a + "" == a && ([""] + parts)[1..] == parts;
    assert a + (b + parts[0]) == a + b + parts[0];
    assert [] + parts[0] == parts[0] && parts == [parts[0]] + parts[1..];
  }

  lemma AttachOne(a: string, b: string, parts: seq<string>)
    ensures Attach(a, [b] + parts) == [a + b] + parts
  {
    assert ([b] + parts)[1..] == parts;
  }

  /** The comma-separated pieces, escapes left as they stand. */
  function Pieces(s: string): (r: seq<string>)
    ensures r != []
  {
    if s == [] then [""]
    else if s[0] == '\\' && |s| > 1 then Attach(s[..2], Pieces(s[2..]))
    else if s[0] == ',' then [""] + Pieces(s[1..])
    else Attach(s[..1], Pieces(s[1..]))
  }

  function UnescapeEach(parts: seq<string>): (r: seq<string>)
    ensures |r| == |parts| && forall i :: 0 <= i < |r| ==> r[i] == Unescape(parts[i])
  {
    seq(|parts|, i requires 0 <= i < |parts| => Unescape(parts[i]))
  }

  lemma PiecesStep(s: string, i: nat, b: string)
    requires i < |s|
    ensures Attach(b, Pieces(s[i..])) ==
      if EscapeAt(s, i) then Attach(b + s[i..i + 2], Pieces(s[i + 2..]))
      else if s[i] == ',' then [b] + Attach([], Pieces(s[i + 1..]))
      else Attach(b + s[i..i + 1], Pieces(s[i + 1..]))
  {
    var rest := s[i..];
    assert rest[1..] == s[i + 1..] && rest[..1] == s[i..i + 1];
    AttachTwice(b, rest[..1], Pieces(s[i + 1..]));
    if EscapeAt(s, i) {
      assert rest[2..] == s[i + 2..] && rest[..2] == s[i..i + 2];
      AttachTwice(b, rest[..2], Pieces(s[i + 2..]));
    }
  }

  /** The loop of `splitVCardList`, before its items are unescaped. */
  ghost function SplitLoop(raw: seq<string>, b: string, s: string, i: nat): seq<string>
    decreases |s| - i
  {
    if i >= |s| then raw + [b]
    else if EscapeAt(s, i) then SplitLoop(raw, b + s[i..i + 2], s, i + 2)
    else if s[i] == ',' then SplitLoop(raw + [b], [], s, i + 1)
    else SplitLoop(raw, b + s[i..i + 1], s, i + 1)
  }

  lemma {:induction false} SplitLoopIs(raw: seq<string>, b: string, s: string, i: nat)
    requires i <= |s|
    ensures SplitLoop(raw, b, s, i) == raw + Attach(b, Pieces(s[i..]))
    decreases |s| - i
  {
    if i == |s| {
      assert b + "" == b;
      assert Attach(b, [""]) == [b];
    } else {
      PiecesStep(s, i, b);
      hide Pieces, Attach;
      if EscapeAt(s, i) {
        SplitLoopIs(raw, b + s[i..i + 2], s, i + 2);
      } else if s[i] == ',' {
        SplitLoopIs(raw + [b], [], s, i + 1);
      } else {
        SplitLoopIs(raw, b + s[i..i + 1], s, i + 1);
      }
    }
  }

  /** `splitVCardList`. */
  method SplitVCardList(s: string) returns (out: seq<string>)
    ensures out == UnescapeEach(Pieces(s))
  {
    SplitLoopIs([], [], s, 0);
    AttachTwice([], [], Pieces(s));
    assert s[0..] == s;
    hide Pieces, Attach, Unescape;
    out := [];
    var b: string := [];
    var i := 0;
    ghost var raw: seq<string> := [];
    while i < |s|
      invariant 0 <= i <= |s| && out == UnescapeEach(raw)
      invariant SplitLoop(raw, b, s, i) == Pieces(s)
    {
      if s[i] == '\\' && i + 1 < |s| {
        b := b + s[i..i + 2];
        i := i + 2;
        continue;
      }
      if s[i] == ',' {
        var item := UnescapeVCardValue(b);
        out := out + [item];
        raw := raw + [b];
        b := [];
        i := i + 1;
        continue;
      }
      b := b + s[i..i + 1];
      i := i + 1;
    }
    var item := UnescapeVCardValue(b);
    out := out + [item];
  }

  /** `strings.Join(parts, ",")` of escaped items. */
  function JoinEscaped(items: seq<string>): string
    requires items != []
  {
    if |items| == 1 then Escape(items[0]) else Escape(items[0]) + "," + JoinEscaped(items[1..])
  }

  lemma PiecesFirst(c: char, rest: string)
    ensures Pieces(EscapeChar(c) + rest) == Attach(EscapeChar(c), Pieces(rest))
  {
    var e := EscapeChar(c);
    var t := e + rest;
    assert t[|e|..] == rest && t[..|e|] == e;
  }

  lemma PiecesAtComma(rest: string)
    ensures Pieces("," + rest) == [""] + Pieces(rest) && Pieces("") == [""]
  {
    assert ("," + rest)[1..] == rest;
  }

  /** An escaped item is never cut: the comma after it is the first that separates. */
  lemma {:induction false} PiecesOfEscaped(s: string, rest: string)
    ensures Pieces(Escape(s) + "," + rest) == [Escape(s)] + Pieces(rest)
    ensures Pieces(Escape(s)) == [Escape(s)]
  {
    hide Pieces, EscapeChar, Attach;
    if s == [] {
      PiecesAtComma(rest);
      assert Escape(s) + "," + rest == "," + rest;
    } else {
      PiecesOfEscaped(s[1..], rest);
      var e, es := EscapeChar(s[0]), Escape(s[1..]);
      PiecesFirst(s[0], es + "," + rest);
      PiecesFirst(s[0], es);
      assert Escape(s) == e + es;
      assert Escape(s) + "," + rest == e + (es + "," + rest);
      AttachOne(e, es, Pieces(rest));
      AttachOne(e, es, []);
      assert [es] + [] == [es] && [e + es] + [] == [e + es];
    }
  }

  /** The pieces with commas between them. */
  function Rejoined(parts: seq<string>): string {
    if parts == [] then "" else if |parts| == 1 then parts[0] else parts[0] + "," + Rejoined(parts[1..])
  }

  lemma RejoinAttach(head: string, parts: seq<string>)
    requires parts != []
    ensures Rejoined(Attach(head, parts)) == head + Rejoined(parts)
  {
    assert Attach(head, parts)[1..] == parts[1..];
  }

  /** No piece can be split further. */
  ghost predicate AllWhole(parts: seq<string>) {
    forall i :: 0 <= i < |parts| ==> Pieces(parts[i]) == [parts[i]]
  }

  /** How many characters of the text belong together: an escape or one character. */
  function FirstWidth(s: string): (k: nat)
    requires s != []
    ensures 0 < k <= |s|
  {
    if s[0] == '\\' && |s| > 1 then 2 else 1
  }

  /** Splitting any list loses nothing: the pieces give it back, and none can be split further. */
  lemma {:induction false} PiecesRejoin(s: string)
    ensures Rejoined(Pieces(s)) == s && AllWhole(Pieces(s))
  {
    hide Rejoined, Pieces, Attach, AllWhole;
    if s == [] {
      RejoinEnds(s);
    } else {
      var k := FirstWidth(s);
      var rest := Pieces(s[k..]);
      PiecesRejoin(s[k..]);
      if s[0] == ',' {
        RejoinEnds(s[1..]);
        WholeAfterComma(s);
        assert s == "," + s[1..];
      } else {
        WholeAttached(s);
        RejoinAttach(s[..k], rest);
        assert s == s[..k] + s[k..];
      }
    }
  }

  lemma RejoinEnds(s: string)
    ensures Rejoined([""]) == "" && Pieces("") == [""] && AllWhole([""])
    ensures Rejoined([""] + Pieces(s)) == "," + Rejoined(Pieces(s))
  {
    hide Pieces;
    NoPieces();
    assert ([""] + Pieces(s))[1..] == Pieces(s);
  }

  lemma NoPieces()
    ensures Pieces("") == [""]
  {
  }

  lemma WholeAfterComma(s: string)
    requires s != [] && s[0] == ',' && AllWhole(Pieces(s[1..]))
    ensures Pieces(s) == [""] + Pieces(s[1..]) && AllWhole(Pieces(s))
  {
    NoPieces();
  }

  lemma WholeAttached(s: string)
    requires s != [] && s[0] != ',' && AllWhole(Pieces(s[FirstWidth(s)..]))
    ensures Pieces(s) == Attach(s[..FirstWidth(s)], Pieces(s[FirstWidth(s)..])) && AllWhole(Pieces(s))
  {
    var k := FirstWidth(s);
    var rest := Pieces(s[k..]);
    FirstWhole(s, k, rest[0]);
    var all := Attach(s[..k], rest);
    assert Pieces(s) == all;
    hide Pieces;
    assert all[0] == s[..k] + rest[0] && forall i :: 0 < i < |all| ==> all[i] == rest[i];
    assert Pieces(rest[0]) == [rest[0]];
  }

  lemma FirstWhole(s: string, k: nat, p: string)
    requires s != [] && s[0] != ',' && k == FirstWidth(s) && p == Pieces(s[k..])[0] && Pieces(p) == [p]
    ensures Pieces(s[..k] + p) == [s[..k] + p]
  {
    var t := s[..k] + p;
    assert t[k..] == p && t[..k] == s[..k];
    if k == 1 && s[0] == '\\' {
      assert s[1..] == [];
    }
  }

  lemma UnescapeOne(s: string)
    ensures Unescape(Escape(s)) == s
  {
    hide Escape;
    UnescapeEscape(s, []);
    assert Escape(s) + [] == Escape(s) && s + Unescape([]) == s;
  }

  lemma UnescapeCons(piece: string, rest: seq<string>)
    ensures UnescapeEach([piece] + rest) == [Unescape(piece)] + UnescapeEach(rest) && UnescapeEach([]) == []
  {
    hide Unescape;
  }

  /** Splitting inverts the comma join of any non-empty list. */
  lemma {:induction false} SplitInvertsJoin(items: seq<string>)
    requires items != []
    ensures UnescapeEach(Pieces(JoinEscaped(items))) == items
  {
    hide Escape, Pieces, Unescape, UnescapeEach;
    UnescapeOne(items[0]);
    if |items| == 1 {
      PiecesOfEscaped(items[0], []);
      UnescapeCons(Escape(items[0]), []);
      assert [Escape(items[0])] + [] == [Escape(items[0])] && items == [items[0]] + [];
    } else {
      var joined := JoinEscaped(items[1..]);
      PiecesOfEscaped(items[0], joined);
      SplitInvertsJoin(items[1..]);
      UnescapeCons(Escape(items[0]), Pieces(joined));
      assert items == [items[0]] + items[1..];
    }
  }
}
