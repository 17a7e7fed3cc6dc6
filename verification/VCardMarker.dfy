/** Which cards hold the closing marker only at their end, in terms of their fields. */
module VCardMarker {
  import opened Text
  import opened VCardText
  import opened VCard
  import opened VCardStream

  /** No field of the card holds the closing marker. */
  ghost predicate FieldsLackEnd(d: Card) {
    !HasEnd(d.uid) && !HasEnd(d.fn) && !HasEnd(d.org) && !HasEnd(d.note) && !HasEnd(d.photo) &&
    !AnyEnd(d.emails) && !AnyEnd(d.phones) && !AnyEnd(d.groups)
  }

  ghost predicate AnyEnd(texts: seq<string>) {
    exists i :: 0 <= i < |texts| && HasEnd(texts[i])
  }

  lemma AnyEndConcat(a: seq<string>, b: seq<string>)
    ensures AnyEnd(a + b) <==> AnyEnd(a) || AnyEnd(b)
  {
    hide HasEnd;
    assert forall i :: 0 <= i < |a| ==> (a + b)[i] == a[i];
    assert forall i :: 0 <= i < |b| ==> (a + b)[|a| + i] == b[i];
    if i :| 0 <= i < |a + b| && HasEnd((a + b)[i]) {
      assert i >= |a| ==> HasEnd(b[i - |a|]);
    }
  }

  lemma EndInOne(a: string, b: string)
    requires Apart(a, b, END)
    ensures HasEnd(a + b) <==> HasEnd(a) || HasEnd(b)
  {
    hide IndexOf;
    IndexInOne(a, b, END);
  }

  lemma ShortLacksEnd(s: string)
    requires |s| < |END|
    ensures !HasEnd(s)
  {
    hide IndexOf;
  }

  lemma EndHere(s: string)
    requires s != ""
    ensures HasEnd(s) <==> HasPrefix(s, END) || HasEnd(s[1..])
  {
    hide IndexOf;
    if HasEnd(s) {
      var k := IndexOf(s, END).i;
      if k > 0 {
        OccursShifted(s, END, 1, k - 1);
      }
    }
    if HasEnd(s[1..]) {
      OccursShifted(s, END, 1, IndexOf(s[1..], END).i);
    }
    assert HasPrefix(s, END) ==> OccursAt(s, END, 0);
  }

  /** A text begins with a plain word exactly when its escaped form does. */
  lemma {:induction false} EscapedPrefix(s: string, m: string)
    requires forall k :: 0 <= k < |m| ==> m[k] !in {'\\', '\n', ',', ';'}
    ensures HasPrefix(Escape(s), m) <==> HasPrefix(s, m)
    decreases |m|
  {
    if m != "" && s != "" {
      EscapedPrefix(s[1..], m[1..]);
      PrefixStep(s, m);
      if s[0] in {'\\', '\n', ',', ';'} {
        assert Escape(s)[0] == '\\';
      } else {
        assert Escape(s) == [s[0]] + Escape(s[1..]);
        assert Escape(s)[1..] == Escape(s[1..]);
      }
      PrefixStep(Escape(s), m);
    }
  }

  lemma PrefixStep(s: string, m: string)
    requires s != "" && m != ""
    ensures HasPrefix(s, m) <==> s[0] == m[0] && HasPrefix(s[1..], m[1..])
  {
    if HasPrefix(s, m) {
      assert s[..|m|][0] == s[0] && s[1..][..|m| - 1] == s[..|m|][1..];
    }
    if s[0] == m[0] && HasPrefix(s[1..], m[1..]) {
      assert s[..|m|] == [s[0]] + s[1..][..|m| - 1];
    }
  }

  /** Escaping neither makes nor breaks a closing marker. */
  lemma {:induction false} EscapedEnd(s: string)
    ensures HasEnd(Escape(s)) <==> HasEnd(s)
  {
    hide HasEnd, IndexOf;
    if s != "" {
      var rest := Escape(s[1..]);
      EscapedEnd(s[1..]);
      EndHere(s);
      if s[0] in {'\\', '\n', ',', ';'} {
        PrefixStep(s, END);
        ShortLacksEnd(EscapeChar(s[0]));
        EndInOne(EscapeChar(s[0]), rest);
      } else {
        assert Escape(s) == [s[0]] + rest && ([s[0]] + rest)[1..] == rest;
        EndHere(Escape(s));
        EscapedPrefix(s, END);
      }
    }
  }

  /** The marker's colon is not the one after the name. */
  lemma NotInName(name: string, value: string, k: nat)
    requires Capitals(name) && !HasSuffix(name, "END") && k <= |name|
    ensures !OccursAt(name + ":" + value, END, k)
  {
    var line := name + ":" + value;
    if k + |END| <= |line| {
      var w := line[k..k + |END|];
      assert w[3] == line[k + 3];
      assert k + 3 < |name| ==> line[k + 3] == name[k + 3];
      assert k + 3 == |name| ==> w[..3] == name[k..];
      assert k + 3 > |name| ==> w[|name| - k] == line[|name|] == ':';
    }
  }

  /** A property line holds the marker exactly when its value does. */
  lemma LineEnd(name: string, value: string)
    requires Capitals(name) && !HasSuffix(name, "END")
    ensures HasEnd(name + ":" + value) <==> HasEnd(value)
  {
    hide IndexOf;
    var line := name + ":" + value;
    forall k: nat ensures OccursAt(line, END, k) <==> k > |name| && OccursAt(value, END, k - |name| - 1) {
      if k > |name| {
        SliceOfSecond(name + ":", value, 0, 0);
        OccursShifted(line, END, |name| + 1, k - |name| - 1);
      } else {
        NotInName(name, value, k);
      }
    }
    if HasEnd(value) {
      var k := IndexOf(value, END).i;
      assert OccursAt(line, END, k + |name| + 1) <==> OccursAt(value, END, k + |name| + 1 - |name| - 1);
    }
  }

  lemma {:induction false} JoinedEnd(groups: seq<string>)
    requires groups != []
    ensures HasEnd(JoinEscaped(groups)) <==> AnyEnd(groups)
  {
    hide HasEnd, Escape;
    EscapedEnd(groups[0]);
    if |groups| > 1 {
      var rest := JoinEscaped(groups[1..]);
      JoinedEnd(groups[1..]);
      CommaEnd(Escape(groups[0]), rest);
      assert groups == [groups[0]] + groups[1..];
      AnyEndConcat([groups[0]], groups[1..]);
    }
  }

  lemma CommaEnd(a: string, b: string)
    ensures HasEnd(a + "," + b) <==> HasEnd(a) || HasEnd(b)
  {
    hide HasEnd;
    ShortLacksEnd(",");
    EndInOne(a, ",");
    EndInOne(a + ",", b);
  }

  lemma {:induction false} RenderedEnd(lines: seq<string>)
    ensures HasEnd(Render(lines)) <==> AnyEnd(lines)
  {
    hide HasEnd;
    if lines == [] {
      ShortLacksEnd("");
    } else {
      RenderedEnd(lines[1..]);
      ShortLacksEnd("\r\n");
      EndInOne(lines[0], "\r\n");
      EndInOne(lines[0] + "\r\n", Render(lines[1..]));
      assert lines == [lines[0]] + lines[1..];
      AnyEndConcat([lines[0]], lines[1..]);
      assert AnyEnd([lines[0]]) <==> HasEnd(lines[0]) by { assert [lines[0]][0] == lines[0]; }
    }
  }

  lemma FieldEnd(name: string, value: string)
    requires Capitals(name) && !HasSuffix(name, "END")
    ensures AnyEnd(FieldLine(name, value)) <==> HasEnd(value)
  {
    hide HasEnd, EscapeVCardValue, Escape;
    PassesAreOneEscape(value);
    EscapedEnd(value);
    LineEnd(name, Escape(value));
    ShortLacksEnd("");
    var line := name + ":" + EscapeVCardValue(value);
    assert [line][0] == line;
  }

  lemma EachEnd(name: string, values: seq<string>)
    requires Capitals(name) && !HasSuffix(name, "END")
    ensures AnyEnd(Each(name, values)) <==> AnyEnd(values)
  {
    hide HasEnd, EscapeVCardValue, Escape;
    var lines := Each(name, values);
    forall i | 0 <= i < |values| ensures HasEnd(lines[i]) <==> HasEnd(values[i]) {
      PassesAreOneEscape(values[i]);
      EscapedEnd(values[i]);
      LineEnd(name, Escape(values[i]));
    }
  }

  lemma UidEnd(uid: string)
    ensures AnyEnd(IfAny(uid, "UID" + ":" + uid)) <==> HasEnd(uid)
  {
    hide HasEnd;
    LineEnd("UID", uid);
    ShortLacksEnd("");
    assert ["UID" + ":" + uid][0] == "UID" + ":" + uid;
  }

  lemma GroupsEnd(groups: seq<string>)
    ensures AnyEnd(GroupLines(groups)) <==> AnyEnd(groups)
  {
    hide HasEnd, JoinEscaped;
    if groups != [] {
      JoinedEnd(groups);
      LineEnd("CATEGORIES", JoinEscaped(groups));
      var line := "CATEGORIES" + ":" + JoinEscaped(groups);
      assert [line][0] == line;
    }
  }

  lemma FourEnds(a: seq<string>, b: seq<string>, c: seq<string>, d: seq<string>)
    ensures AnyEnd(a + b + c + d) <==> AnyEnd(a) || AnyEnd(b) || AnyEnd(c) || AnyEnd(d)
  {
    hide AnyEnd;
    AnyEndConcat(a, b);
    AnyEndConcat(a + b, c);
    AnyEndConcat(a + b + c, d);
  }

  lemma FiveEnds(a: seq<string>, b: seq<string>, c: seq<string>, d: seq<string>, e: seq<string>)
    ensures AnyEnd(a + b + c + d + e) <==> AnyEnd(a) || AnyEnd(b) || AnyEnd(c) || AnyEnd(d) || AnyEnd(e)
  {
    hide AnyEnd;
    FourEnds(a, b, c, d);
    AnyEndConcat(a + b + c + d, e);
  }

  lemma NamesLackEnd()
    ensures !HasSuffix("FN", "END") && !HasSuffix("EMAIL", "END") && !HasSuffix("TEL", "END")
    ensures !HasSuffix("ORG", "END") && !HasSuffix("NOTE", "END") && !HasSuffix("PHOTO", "END")
  {
  }

  lemma BodyEnd(d: Card)
    ensures AnyEnd(BodyLines(d)) <==> !FieldsLackEnd(d)
  {
    hide AnyEnd, HasEnd, FieldLine, Each, GroupLines, IfAny, HasSuffix, Capitals, PropertyNamed;
    KnownNames();
    NamesLackEnd();
    UidEnd(d.uid);
    FieldEnd("FN", d.fn);
    EachEnd("EMAIL", d.emails);
    EachEnd("TEL", d.phones);
    FieldEnd("ORG", d.org);
    FieldEnd("NOTE", d.note);
    FieldEnd("PHOTO", d.photo);
    GroupsEnd(d.groups);
    var front := IfAny(d.uid, "UID" + ":" + d.uid) + FieldLine("FN", d.fn) +
      Each("EMAIL", d.emails) + Each("TEL", d.phones);
    FourEnds(IfAny(d.uid, "UID" + ":" + d.uid), FieldLine("FN", d.fn), Each("EMAIL", d.emails), Each("TEL", d.phones));
    FiveEnds(front, FieldLine("ORG", d.org), FieldLine("NOTE", d.note), FieldLine("PHOTO", d.photo),
      GroupLines(d.groups));
  }

  lemma OpeningEnd(d: Card)
    ensures AnyEnd(Opening(d)) <==> !FieldsLackEnd(d)
  {
    hide BodyLines, HasEnd, FieldsLackEnd;
    BodyEnd(d);
    var head := ["BEGIN:VCARD", "VERSION:4.0"];
    AnyEndConcat(head, BodyLines(d));
    HeadLacksEnd();
  }

  lemma HeadLacksEnd()
    ensures !AnyEnd(["BEGIN:VCARD", "VERSION:4.0"])
  {
    hide HasEnd;
    assert "BEGIN:VCARD" == "BEGIN" + ":" + "VCARD" && "VERSION:4.0" == "VERSION" + ":" + "4.0";
    LineEnd("BEGIN", "VCARD");
    LineEnd("VERSION", "4.0");
    ShortLacksEnd("VCARD");
    ShortLacksEnd("4.0");
  }

  /** A built card closes once exactly when no field of it holds the closing marker. */
  lemma ClosesOnceIff(d: Card)
    ensures ClosesOnce(d) <==> FieldsLackEnd(d)
  {
    hide Render, Opening, FieldsLackEnd, IndexOf, AnyEnd, OccursAt;
    OpeningEnd(d);
    RenderedEnd(Opening(d));
    RenderEndsLine(d);
    var r := Render(Opening(d));
    forall k: nat ensures k + |END| < |Body(d)| && OccursAt(Body(d), END, k) <==> OccursAt(r, END, k) {
      OccursInOne(r, END, END, k);
      if OccursAt(r, END, k) {
        OccursFits(r, END, k);
      }
      if k >= |r| && OccursAt(END, END, k - |r|) {
        OccursFits(END, END, k - |r|);
      }
    }
  }

  lemma RenderEndsLine(d: Card)
    ensures EndsLine(Render(Opening(d)))
  {
    hide Render, BodyLines;
    var lines := Opening(d);
    var n := |lines| - 1;
    assert lines == lines[..n] + [lines[n]];
    RenderSnoc(lines[..n], lines[n]);
  }
}
