/** `ParseVCard` and `BuildVCard` of internal/contactbridge/service.go. */
module VCard {
  import opened Text
  import opened VCardText

  /** The fields shared by a draft and a parsed contact. */
  datatype Card = Card(
    uid: string, fn: string, emails: seq<string>, phones: seq<string>,
    org: string, note: string, photo: string, groups: seq<string>)

  const BLANK: Card := Card("", "", [], [], "", "", "", [])

  // ---- Building -------------------------------------------------------------------------

  function IfAny(value: string, line: string): seq<string> {
    if value == "" then [] else [line]
  }

  /** An escaped property, left out when blank. */
  function FieldLine(name: string, value: string): seq<string> {
    IfAny(value, name + ":" + EscapeVCardValue(value))
  }

  function Each(name: string, values: seq<string>): (r: seq<string>)
    ensures |r| == |values| && forall i :: 0 <= i < |r| ==> r[i] == name + ":" + EscapeVCardValue(values[i])
  {
    seq(|values|, i requires 0 <= i < |values| => name + ":" + EscapeVCardValue(values[i]))
  }

  function GroupLines(groups: seq<string>): seq<string> {
    if groups == [] then [] else ["CATEGORIES" + ":" + JoinEscaped(groups)]
  }

  /** The lines between the version and the closing line. */
  function BodyLines(d: Card): seq<string> {
    IfAny(d.uid, "UID" + ":" + d.uid) + FieldLine("FN", d.fn) + Each("EMAIL", d.emails) + Each("TEL", d.phones) +
    FieldLine("ORG", d.org) + FieldLine("NOTE", d.note) + FieldLine("PHOTO", d.photo) + GroupLines(d.groups)
  }

  /** Each line followed by CRLF. */
  function Render(lines: seq<string>): string {
    if lines == [] then "" else lines[0] + "\r\n" + Render(lines[1..])
  }

  /** What `BuildVCard` writes. */
  function Built(d: Card): string {
    Render(["BEGIN:VCARD", "VERSION:4.0"] + BodyLines(d) + ["END:VCARD"])
  }

  // ---- Parsing --------------------------------------------------------------------------

  function NonBlank(v: string): seq<string> {
    if v == "" then [] else [v]
  }

  /** A group name as the parser keeps it: trimmed and not blank. */
  predicate IsGroup(g: string) {
    g != "" && TrimSpace(g) == g
  }

  /** Trimmed items, the blank ones dropped. */
  function Kept(items: seq<string>): seq<string> {
    if items == [] then []
    else Kept(items[..|items| - 1]) + NonBlank(TrimSpace(items[|items| - 1]))
  }

  /** The properties the parser knows. */
  datatype Property = Uid | Fn | Email | Tel | Org | Note | Photo | Categories | Unknown

  function PropertyNamed(name: string): Property {
    match name
    case "UID" => Uid
    case "FN" => Fn
    case "EMAIL" => Email
    case "TEL" => Tel
    case "ORG" => Org
    case "NOTE" => Note
    case "PHOTO" => Photo
    case "CATEGORIES" => Categories
    case _ => Unknown
  }

  /** What a property with this raw value does to the contact. */
  function Assign(c: Card, p: Property, value: string): Card {
    match p
    case Uid => c.(uid := value)
    case Fn => c.(fn := Unescape(value))
    case Email => c.(emails := c.emails + NonBlank(Unescape(value)))
    case Tel => c.(phones := c.phones + NonBlank(Unescape(value)))
    case Org => c.(org := Unescape(value))
    case Note => c.(note := Unescape(value))
    case Photo => c.(photo := Unescape(value))
    case Categories => c.(groups := c.groups + Kept(UnescapeEach(Pieces(value))))
    case Unknown => c
  }

  /** What one line, already rid of its trailing CRs, does to the contact. */
  function ParseLine(c: Card, line: string): Card {
    var colon := FirstOf(line, {':'});
    if colon == |line| then c
    else Assign(c, PropertyNamed(ToUpper(line[..FirstOf(line[..colon], {';'})])), line[colon + 1..])
  }

  function ParseLines(c: Card, lines: seq<string>): Card
    decreases |lines|
  {
    if lines == [] then c else ParseLines(ParseLine(c, TrimCR(lines[0])), lines[1..])
  }

  /** What `ParseVCard` reads. */
  function Parsed(raw: string): Card {
    ParseLines(BLANK, Split(raw, '\n'))
  }

  // ---- The code -------------------------------------------------------------------------

  /** `ParseVCard`: a loop over the lines that fills the contact in. */
  method ParseVCard(raw: string) returns (c: Card)
    ensures c == Parsed(raw)
  {
    hide ParseLine;
    c := BLANK;
    var lines := Split(raw, '\n');
    assert lines[0..] == lines;
    for i := 0 to |lines|
      invariant ParseLines(c, lines[i..]) == Parsed(raw)
    {
      assert lines[i..][1..] == lines[i + 1..];
      c := ParseOne(c, TrimCR(lines[i]));
    }
    assert lines[|lines|..] == [];
  }

  method ParseOne(c: Card, line: string) returns (r: Card)
    ensures r == ParseLine(c, line)
  {
    hide Assign, PropertyNamed;
    var colon := FirstOf(line, {':'});
    if colon == |line| {
      return c;
    }
    var name := ToUpper(line[..FirstOf(line[..colon], {';'})]);
    r := SetProperty(c, PropertyNamed(name), line[colon + 1..]);
  }

  /** The switch of `ParseVCard`. */
  method SetProperty(c: Card, p: Property, value: string) returns (r: Card)
    ensures r == Assign(c, p, value)
  {
    hide Unescape, Pieces, Kept;
    r := c;
    if p == Categories {
      var items := SplitVCardList(value);
      var kept := KeepGroups(items);
      return c.(groups := c.groups + kept);
    }
    var v := UnescapeVCardValue(value);
    match p {
      case Uid => r := c.(uid := value);
      case Fn => r := c.(fn := v);
      case Email => if v != "" { r := c.(emails := c.emails + [v]); }
      case Tel => if v != "" { r := c.(phones := c.phones + [v]); }
      case Org => r := c.(org := v);
      case Note => r := c.(note := v);
      case Photo => r := c.(photo := v);
      case Unknown =>
    }
  }

  method KeepGroups(items: seq<string>) returns (kept: seq<string>)
    ensures kept == Kept(items)
  {
    hide TrimSpace;
    kept := [];
    for i := 0 to |items|
      invariant kept == Kept(items[..i])
    {
      assert items[..i + 1][..i] == items[..i];
      var g := TrimSpace(items[i]);
      if g != "" {
        kept := kept + [g];
      }
    }
    assert items[..|items|] == items;
  }

  lemma {:induction false} RenderConcat(a: seq<string>, b: seq<string>)
    ensures Render(a + b) == Render(a) + Render(b)
  {
    if a == [] {
      assert a + b == b;
    } else {
      assert (a + b)[1..] == a[1..] + b;
      RenderConcat(a[1..], b);
    }
  }

  lemma RenderSnoc(lines: seq<string>, line: string)
    ensures Render(lines + [line]) == Render(lines) + line + "\r\n"
  {
    RenderConcat(lines, [line]);
    assert Render([line]) == line + "\r\n" + Render([line][1..]) == line + "\r\n";
  }

  /** The loops over e-mails and phones: one escaped line for each value. */
  method WriteEach(b: string, ghost lines: seq<string>, name: string, values: seq<string>) returns (out: string)
    requires b == Render(lines)
    ensures out == Render(lines + Each(name, values))
  {
    hide Render, EscapeVCardValue;
    out := b;
    assert lines + Each(name, values[..0]) == lines;
    for i := 0 to |values|
      invariant out == Render(lines + Each(name, values[..i]))
    {
      var line := name + ":" + EscapeVCardValue(values[i]);
      assert lines + Each(name, values[..i + 1]) == lines + Each(name, values[..i]) + [line];
      RenderSnoc(lines + Each(name, values[..i]), line);
      out := out + line + "\r\n";
    }
    assert values[..|values|] == values;
  }

  /** One optional line. */
  method WriteIfAny(b: string, ghost lines: seq<string>, value: string, line: string) returns (out: string)
    requires b == Render(lines)
    ensures out == Render(lines + IfAny(value, line))
  {
    assert lines + [] == lines;
    RenderSnoc(lines, line);
    out := if value != "" then b + line + "\r\n" else b;
  }

  method WriteField(b: string, ghost lines: seq<string>, name: string, value: string) returns (out: string)
    requires b == Render(lines)
    ensures out == Render(lines + FieldLine(name, value))
  {
    out := WriteIfAny(b, lines, value, name + ":" + EscapeVCardValue(value));
  }

  /** The escaped groups joined with commas. */
  method JoinGroups(groups: seq<string>) returns (joined: string)
    requires groups != []
    ensures joined == JoinEscaped(groups)
  {
    hide EscapeVCardValue, Escape;
    var i := |groups| - 1;
    PassesAreOneEscape(groups[i]);
    joined := EscapeVCardValue(groups[i]);
    while i > 0
      invariant 0 <= i < |groups| && joined == JoinEscaped(groups[i..])
    {
      i := i - 1;
      assert groups[i..][1..] == groups[i + 1..];
      PassesAreOneEscape(groups[i]);
      joined := EscapeVCardValue(groups[i]) + "," + joined;
    }
  }

  /** `BuildVCard`. */
  method BuildVCard(d: Card) returns (b: string)
    ensures b == Built(d)
  {
    hide Render, Each, IfAny, FieldLine, GroupLines;
    ghost var head := ["BEGIN:VCARD", "VERSION:4.0"];
    ghost var lines := head;
    b := "BEGIN:VCARD\r\nVERSION:4.0\r\n";
    RenderOpening();
    b := WriteIfAny(b, lines, d.uid, "UID" + ":" + d.uid);
    lines := lines + IfAny(d.uid, "UID" + ":" + d.uid);
    b := WriteField(b, lines, "FN", d.fn);
    lines := lines + FieldLine("FN", d.fn);
    b := WriteEach(b, lines, "EMAIL", d.emails);
    lines := lines + Each("EMAIL", d.emails);
    b := WriteEach(b, lines, "TEL", d.phones);
    lines := lines + Each("TEL", d.phones);
    b := WriteField(b, lines, "ORG", d.org);
    lines := lines + FieldLine("ORG", d.org);
    b := WriteField(b, lines, "NOTE", d.note);
    lines := lines + FieldLine("NOTE", d.note);
    b := WriteField(b, lines, "PHOTO", d.photo);
    lines := lines + FieldLine("PHOTO", d.photo);
    b := WriteGroups(b, lines, d.groups);
    lines := lines + GroupLines(d.groups);
    NineTogether(head, IfAny(d.uid, "UID" + ":" + d.uid), FieldLine("FN", d.fn), Each("EMAIL", d.emails),
      Each("TEL", d.phones), FieldLine("ORG", d.org), FieldLine("NOTE", d.note), FieldLine("PHOTO", d.photo),
      GroupLines(d.groups));
    RenderSnoc(lines, "END:VCARD");
    b := b + "END:VCARD" + "\r\n";
  }

  /** The categories line, when there are groups. */
  method WriteGroups(b: string, ghost lines: seq<string>, groups: seq<string>) returns (out: string)
    requires b == Render(lines)
    ensures out == Render(lines + GroupLines(groups))
  {
    hide Render;
    out := b;
    assert lines + [] == lines;
    if |groups| > 0 {
      var joined := JoinGroups(groups);
      RenderSnoc(lines, "CATEGORIES" + ":" + joined);
      out := out + ("CATEGORIES" + ":" + joined) + "\r\n";
    }
  }

  lemma NineTogether<T>(h: seq<T>, a: seq<T>, b: seq<T>, c: seq<T>, d: seq<T>, e: seq<T>,
      f: seq<T>, g: seq<T>, i: seq<T>)
    ensures h + (a + b + c + d + e + f + g + i) == h + a + b + c + d + e + f + g + i
  {
    assert h + (a + b + c + d) == h + a + b + c + d;
    var l, r := a + b + c + d, e + f + g + i;
    assert l + e + f + g + i == l + r;
    assert h + l + e + f + g + i == h + l + r;
  }

  lemma RenderOpening()
    ensures Render(["BEGIN:VCARD", "VERSION:4.0"]) == "BEGIN:VCARD\r\nVERSION:4.0\r\n"
  {
    assert Render([]) == "";
    RenderSnoc([], "BEGIN:VCARD");
    assert [] + ["BEGIN:VCARD"] == ["BEGIN:VCARD"];
    RenderSnoc(["BEGIN:VCARD"], "VERSION:4.0");
  }

  // ---- Which cards survive --------------------------------------------------------------

  predicate Value(v: string) {
    v != "" && !EndsWithCR(v)
  }

  /** Fit for one physical line: no newline inside, no CR at the end. */
  predicate Fits(line: string) {
    '\n' !in line && !EndsWithCR(line)
  }

  /** The cards a parse can give: no newline in the UID, no value ending in CR, no blank e-mail
      or phone, and groups trimmed and non-blank. */
  predicate Clean(d: Card) {
    '\n' !in d.uid && !EndsWithCR(d.uid) && !EndsWithCR(d.fn) &&
    !EndsWithCR(d.org) && !EndsWithCR(d.note) && !EndsWithCR(d.photo) &&
    (forall e :: e in d.emails ==> Value(e)) && (forall p :: p in d.phones ==> Value(p)) &&
    forall g :: g in d.groups ==> IsGroup(g)
  }

  lemma {:induction false} UnescapeKeepsEnd(s: string)
    requires !EndsWithCR(s)
    ensures !EndsWithCR(Unescape(s))
  {
    if s != [] {
      if s[0] == '\\' && |s| > 1 {
        UnescapeKeepsEnd(s[2..]);
        assert Unescape(s[2..]) == [] <==> s[2..] == [];
      } else {
        UnescapeKeepsEnd(s[1..]);
        assert Unescape(s[1..]) == [] <==> s[1..] == [];
      }
    }
  }

  lemma {:induction false} KeptAreGroups(items: seq<string>)
    ensures forall g :: g in Kept(items) ==> IsGroup(g)
  {
    if items != [] {
      KeptAreGroups(items[..|items| - 1]);
      var g := TrimSpace(items[|items| - 1]);
      assert g != "" ==> IsGroup(g);
      hide IsGroup, TrimSpace;
    }
  }

  lemma AssignKeepsClean(c: Card, p: Property, value: string)
    requires Clean(c) && Fits(value)
    ensures Clean(Assign(c, p, value))
  {
    UnescapeKeepsEnd(value);
    KeptAreGroups(UnescapeEach(Pieces(value)));
    hide Unescape, Pieces, IsGroup, EndsWithCR, Kept, UnescapeEach;
    var v := Unescape(value);
    assert forall e :: e in c.emails + NonBlank(v) ==> e in c.emails || (e == v && v != "");
    assert forall e :: e in c.phones + NonBlank(v) ==> e in c.phones || (e == v && v != "");
  }

  lemma LineKeepsClean(c: Card, line: string)
    requires Clean(c) && Fits(line)
    ensures Clean(ParseLine(c, line))
  {
    hide Clean, Assign, PropertyNamed;
    var colon := FirstOf(line, {':'});
    if colon < |line| {
      var name := ToUpper(line[..FirstOf(line[..colon], {';'})]);
      AssignKeepsClean(c, PropertyNamed(name), line[colon + 1..]);
    }
  }

  lemma {:induction false} LinesKeepClean(c: Card, lines: seq<string>)
    requires Clean(c) && forall l :: l in lines ==> '\n' !in l
    ensures Clean(ParseLines(c, lines))
    decreases |lines|
  {
    hide Clean, ParseLine;
    if lines != [] {
      assert lines[0] in lines;
      LineKeepsClean(c, TrimCR(lines[0]));
      LinesKeepClean(ParseLine(c, TrimCR(lines[0])), lines[1..]);
    }
  }

  /** Whatever text is parsed, the contact is clean. */
  lemma ParseGivesClean(raw: string)
    ensures Clean(Parsed(raw))
  {
    LinesKeepClean(BLANK, Split(raw, '\n'));
  }

  // ---- The round trip -------------------------------------------------------------------

  ghost predicate AllFit(lines: seq<string>) {
    forall l :: l in lines ==> Fits(l)
  }

  /** Folding over the logical lines. */
  function ReadLines(c: Card, lines: seq<string>): Card
    decreases |lines|
  {
    if lines == [] then c else ReadLines(ParseLine(c, lines[0]), lines[1..])
  }

  lemma {:induction false} ReadConcat(c: Card, a: seq<string>, b: seq<string>)
    ensures ReadLines(c, a + b) == ReadLines(ReadLines(c, a), b)
    decreases |a|
  {
    hide ParseLine;
    if a == [] {
      assert a + b == b;
    } else {
      assert (a + b)[1..] == a[1..] + b;
      ReadConcat(ParseLine(c, a[0]), a[1..], b);
    }
  }

  lemma {:induction false} SplitRendered(lines: seq<string>, last: string)
    requires '\n' !in last && forall l :: l in lines ==> '\n' !in l
    ensures Split(Render(lines) + last, '\n') == WithCR(lines) + [last]
  {
    if lines == [] {
      assert Render(lines) + last == last;
      SplitNone(last, '\n');
    } else {
      var rest := Render(lines[1..]) + last;
      assert lines[0] in lines;
      SplitRendered(lines[1..], last);
      SplitLine(lines[0] + "\r", rest, '\n');
      assert Render(lines) + last == lines[0] + "\r" + "\n" + rest;
    }
  }

  function WithCR(lines: seq<string>): (r: seq<string>)
    ensures |r| == |lines|
  {
    if lines == [] then [] else [lines[0] + "\r"] + WithCR(lines[1..])
  }

  lemma {:induction false} ParseWithCR(c: Card, lines: seq<string>, last: string)
    requires Fits(last) && AllFit(lines)
    ensures ParseLines(c, WithCR(lines) + [last]) == ParseLine(ReadLines(c, lines), last)
    decreases |lines|
  {
    hide ParseLine;
    if lines == [] {
      assert (WithCR(lines) + [last])[1..] == [];
    } else {
      assert lines[0] in lines;
      assert (lines[0] + "\r")[..|lines[0]|] == lines[0];
      assert TrimCR(lines[0] + "\r") == lines[0];
      assert (WithCR(lines) + [last])[1..] == WithCR(lines[1..]) + [last];
      ParseWithCR(ParseLine(c, lines[0]), lines[1..], last);
    }
  }

  /** Physical lines and their CRLFs read back as the logical lines, with or without a last
      unterminated one. */
  lemma ParsedRendered(lines: seq<string>, last: string)
    requires Fits(last) && AllFit(lines)
    ensures Parsed(Render(lines) + last) == ParseLine(ReadLines(BLANK, lines), last)
  {
    SplitRendered(lines, last);
    ParseWithCR(BLANK, lines, last);
  }

  predicate Capitals(name: string) {
    name != "" && forall k :: 0 <= k < |name| ==> 'A' <= name[k] <= 'Z'
  }

  /** A line `NAME:value` with a plain name dispatches on that name. */
  lemma NamedLine(c: Card, name: string, value: string)
    requires Capitals(name)
    ensures var line := name + ":" + value;
      FirstOf(line, {':'}) == |name| && ToUpper(line[..FirstOf(line[..|name|], {';'})]) == name &&
      line[|name| + 1..] == value
  {
    var line := name + ":" + value;
    FirstOfIs(line, {':'}, |name|);
    assert line[..|name|] == name;
    FirstOfIs(name, {';'}, |name|);
    assert ToUpper(name) == name;
  }

  lemma {:induction false} EscapeFits(s: string)
    requires !EndsWithCR(s)
    ensures Fits(Escape(s)) && (Escape(s) == [] <==> s == [])
  {
    if s != [] {
      EscapeFits(s[1..]);
      EscapeCharFits(s[0]);
      FitsConcat(EscapeChar(s[0]), Escape(s[1..]));
    }
  }

  lemma FitsConcat(a: string, b: string)
    requires '\n' !in a && Fits(b) && (b == [] ==> !EndsWithCR(a))
    ensures Fits(a + b)
  {
  }

  lemma EscapeCharFits(c: char)
    ensures EscapeChar(c) != [] && '\n' !in EscapeChar(c) && (EndsWithCR(EscapeChar(c)) ==> c == '\r')
  {
  }

  lemma ValueLine(name: string, v: string)
    requires '\n' !in name && !EndsWithCR(v) && name != "" && !EndsWithCR(name)
    ensures EscapeVCardValue(v) == Escape(v) && Unescape(Escape(v)) == v && Fits(name + Escape(v))
  {
    PassesAreOneEscape(v);
    UnescapeInverts(v);
    EscapeFits(v);
  }

  lemma {:induction false} JoinFits(groups: seq<string>)
    requires groups != [] && forall g :: g in groups ==> !EndsWithCR(g)
    ensures Fits(JoinEscaped(groups))
  {
    EscapeFits(groups[0]);
    if |groups| > 1 {
      JoinFits(groups[1..]);
    }
  }

  lemma GroupKept(g: string)
    requires IsGroup(g)
    ensures NonBlank(TrimSpace(g)) == [g]
  {
  }

  lemma KeptNothing()
    ensures Kept([]) == []
  {
  }

  lemma KeptSnoc(groups: seq<string>, g: string)
    ensures Kept(groups + [g]) == Kept(groups) + NonBlank(TrimSpace(g))
  {
    hide TrimSpace, NonBlank;
    assert (groups + [g])[..|groups|] == groups;
  }

  lemma {:induction false} KeptClean(groups: seq<string>, n: nat)
    requires n <= |groups| && forall i :: 0 <= i < n ==> IsGroup(groups[i])
    ensures Kept(groups[..n]) == groups[..n]
  {
    hide TrimSpace, IsGroup, Kept;
    KeptNothing();
    if n > 0 {
      KeptClean(groups, n - 1);
      GroupKept(groups[n - 1]);
      assert groups[..n] == groups[..n - 1] + [groups[n - 1]];
      KeptSnoc(groups[..n - 1], groups[n - 1]);
    } else {
      assert groups[..n] == [];
    }
  }

  // The effect of each kind of line on the contact read so far.

  lemma ReadOne(c: Card, line: string)
    ensures ReadLines(c, [line]) == ParseLine(c, line)
  {
    assert [line][1..] == [];
  }

  /** A line with a known name assigns its value. */
  lemma LineAssigns(c: Card, name: string, value: string)
    requires Capitals(name)
    ensures ParseLine(c, name + ":" + value) == Assign(c, PropertyNamed(name), value)
  {
    hide Assign, PropertyNamed;
    NamedLine(c, name, value);
  }

  /** The properties that hold one escaped value. */
  function WithField(c: Card, p: Property, v: string): Card
    requires p in {Fn, Org, Note, Photo}
  {
    match p
    case Fn => c.(fn := v)
    case Org => c.(org := v)
    case Note => c.(note := v)
    case Photo => c.(photo := v)
  }

  /** An optional escaped line gives its field back, the absent one leaving the blank value. */
  lemma ReadField(c: Card, p: Property, name: string, v: string)
    requires Capitals(name) && PropertyNamed(name) == p && p in {Fn, Org, Note, Photo}
    requires !EndsWithCR(v) && WithField(c, p, "") == c
    ensures ReadLines(c, FieldLine(name, v)) == WithField(c, p, v)
    ensures AllFit(FieldLine(name, v))
  {
    hide PropertyNamed, ParseLine, Unescape, Escape, EscapeVCardValue;
    ValueLine(name + ":", v);
    if v != "" {
      LineAssigns(c, name, EscapeVCardValue(v));
      ReadOne(c, name + ":" + EscapeVCardValue(v));
    }
  }

  /** The repeated properties. */
  function Extend(c: Card, p: Property, values: seq<string>): Card
    requires p in {Email, Tel}
  {
    if p == Email then c.(emails := c.emails + values) else c.(phones := c.phones + values)
  }

  lemma {:induction false} ReadEach(c: Card, p: Property, name: string, values: seq<string>)
    requires Capitals(name) && PropertyNamed(name) == p && p in {Email, Tel}
    requires forall v :: v in values ==> Value(v)
    ensures ReadLines(c, Each(name, values)) == Extend(c, p, values)
    ensures AllFit(Each(name, values))
  {
    hide Each, ParseLine, PropertyNamed, Extend, ReadLines, Fits;
    NothingRepeated(c, p, name);
    if values != [] {
      var n := |values| - 1;
      var v, front := values[n], values[..n];
      assert v in values && forall u :: u in front ==> u in values;
      assert values == front + [v];
      ReadEach(c, p, name, front);
      var mid := Extend(c, p, front);
      ReadAnother(mid, p, name, v);
      NextSegment(c, Each(name, front), mid, Each(name, [v]), Extend(mid, p, [v]));
      RepeatedTogether(c, p, name, front, v);
    }
  }

  lemma NothingRepeated(c: Card, p: Property, name: string)
    requires p in {Email, Tel}
    ensures Each(name, []) == [] && Extend(c, p, []) == c && ReadLines(c, []) == c && AllFit([])
  {
    assert c.emails + [] == c.emails && c.phones + [] == c.phones;
  }

  lemma RepeatedTogether(c: Card, p: Property, name: string, front: seq<string>, v: string)
    requires p in {Email, Tel}
    ensures Each(name, front + [v]) == Each(name, front) + Each(name, [v])
    ensures Extend(Extend(c, p, front), p, [v]) == Extend(c, p, front + [v])
  {
    assert c.emails + front + [v] == c.emails + (front + [v]) && c.phones + front + [v] == c.phones + (front + [v]);
  }

  lemma ReadAnother(c: Card, p: Property, name: string, v: string)
    requires Capitals(name) && PropertyNamed(name) == p && p in {Email, Tel} && Value(v)
    ensures ReadLines(c, Each(name, [v])) == Extend(c, p, [v]) && AllFit(Each(name, [v]))
  {
    hide PropertyNamed, ParseLine, Unescape, Escape, EscapeVCardValue;
    ValueLine(name + ":", v);
    var line := name + ":" + EscapeVCardValue(v);
    assert Each(name, [v]) == [line];
    LineAssigns(c, name, EscapeVCardValue(v));
    ReadOne(c, line);
  }

  lemma CategoriesLine(c: Card, joined: string)
    ensures ParseLine(c, "CATEGORIES" + ":" + joined) == c.(groups := c.groups + Kept(UnescapeEach(Pieces(joined))))
  {
    hide ParseLine, Kept, UnescapeEach, Pieces;
    LineAssigns(c, "CATEGORIES", joined);
  }

  lemma ReadGroups(c: Card, groups: seq<string>)
    requires forall g :: g in groups ==> IsGroup(g)
    ensures ReadLines(c, GroupLines(groups)) == c.(groups := c.groups + groups)
  {
    hide JoinEscaped, Pieces, UnescapeEach, Kept, ParseLine, IsGroup;
    if groups == [] {
      assert c.groups + [] == c.groups;
    } else {
      var joined := JoinEscaped(groups);
      SplitInvertsJoin(groups);
      KeptClean(groups, |groups|);
      assert groups[..|groups|] == groups;
      CategoriesLine(c, joined);
      ReadOne(c, "CATEGORIES" + ":" + joined);
    }
  }

  lemma GroupLinesFit(groups: seq<string>)
    requires forall g :: g in groups ==> IsGroup(g)
    ensures AllFit(GroupLines(groups))
  {
    hide JoinEscaped, IsGroup;
    if groups != [] {
      forall g | g in groups ensures !EndsWithCR(g) { TrimmedEnd(g); }
      JoinFits(groups);
      FitsConcat("CATEGORIES" + ":", JoinEscaped(groups));
    }
  }

  lemma TrimmedEnd(g: string)
    requires IsGroup(g)
    ensures !EndsWithCR(g)
  {
  }

  lemma ReadUid(c: Card, uid: string)
    requires c.uid == "" && Fits(uid)
    ensures ReadLines(c, IfAny(uid, "UID" + ":" + uid)) == c.(uid := uid)
    ensures AllFit(IfAny(uid, "UID" + ":" + uid))
  {
    hide ParseLine;
    if uid != "" {
      LineAssigns(c, "UID", uid);
      ReadOne(c, "UID" + ":" + uid);
    }
  }

  /** The framing lines name no property of the contact. */
  lemma UnknownLine(c: Card, line: string, k: nat)
    requires 0 < k < |line| && line[k] == ':' && forall i :: 0 <= i < k ==> 'A' <= line[i] <= 'Z'
    requires line[0] in {'B', 'V'} || (line[0] == 'E' && k == 3)
    ensures ParseLine(c, line) == c
  {
    hide ParseLine, PropertyNamed;
    var name := line[..k];
    assert line == name + ":" + line[k + 1..];
    LineAssigns(c, name, line[k + 1..]);
    UnknownName(name);
  }

  lemma UnknownName(name: string)
    requires name != "" && (name[0] in {'B', 'V'} || (name[0] == 'E' && |name| == 3))
    ensures PropertyNamed(name) == Unknown
  {
  }

  lemma FramingLines(c: Card)
    ensures ParseLine(c, "BEGIN:VCARD") == ParseLine(c, "VERSION:4.0") == ParseLine(c, "END:VCARD") == c
    ensures Fits("BEGIN:VCARD") && Fits("VERSION:4.0") && Fits("END:VCARD")
  {
    hide ParseLine;
    UnknownLine(c, "BEGIN:VCARD", 5);
    UnknownLine(c, "VERSION:4.0", 7);
    UnknownLine(c, "END:VCARD", 3);
  }

  lemma FitTogether(a: seq<string>, b: seq<string>)
    requires AllFit(a) && AllFit(b)
    ensures AllFit(a + b)
  {
  }

  /** The state after the lines of one segment, given the state before it. */
  lemma NextSegment(c: Card, a: seq<string>, mid: Card, b: seq<string>, end: Card)
    requires ReadLines(c, a) == mid && ReadLines(mid, b) == end && AllFit(a) && AllFit(b)
    ensures ReadLines(c, a + b) == end && AllFit(a + b)
  {
    ReadConcat(c, a, b);
    FitTogether(a, b);
  }

  /** The body lines of a clean card put every field back into a blank contact. */
  lemma BodyReads(d: Card)
    requires Clean(d)
    ensures ReadLines(BLANK, BodyLines(d)) == d && AllFit(BodyLines(d))
  {
    hide ReadLines, FieldLine, Each, IfAny, GroupLines, PropertyNamed, AllFit, Capitals;
    KnownNames();
    var c1 := BLANK.(uid := d.uid);
    var c2 := c1.(fn := d.fn);
    var c3 := c2.(emails := d.emails);
    var c4 := c3.(phones := d.phones);
    var c5 := c4.(org := d.org);
    var c6 := c5.(note := d.note);
    var c7 := c6.(photo := d.photo);
    var l1 := IfAny(d.uid, "UID" + ":" + d.uid);
    var l2 := FieldLine("FN", d.fn);
    var l3, l4 := Each("EMAIL", d.emails), Each("TEL", d.phones);
    var l5, l6, l7 := FieldLine("ORG", d.org), FieldLine("NOTE", d.note), FieldLine("PHOTO", d.photo);
    var l8 := GroupLines(d.groups);
    assert [] + d.emails == d.emails && [] + d.phones == d.phones && [] + d.groups == d.groups;
    ReadUid(BLANK, d.uid);
    ReadField(c1, Fn, "FN", d.fn);
    NextSegment(BLANK, l1, c1, l2, c2);
    ReadEach(c2, Email, "EMAIL", d.emails);
    NextSegment(BLANK, l1 + l2, c2, l3, c3);
    ReadEach(c3, Tel, "TEL", d.phones);
    NextSegment(BLANK, l1 + l2 + l3, c3, l4, c4);
    ReadField(c4, Org, "ORG", d.org);
    NextSegment(BLANK, l1 + l2 + l3 + l4, c4, l5, c5);
    ReadField(c5, Note, "NOTE", d.note);
    NextSegment(BLANK, l1 + l2 + l3 + l4 + l5, c5, l6, c6);
    ReadField(c6, Photo, "PHOTO", d.photo);
    NextSegment(BLANK, l1 + l2 + l3 + l4 + l5 + l6, c6, l7, c7);
    ReadGroups(c7, d.groups);
    GroupLinesFit(d.groups);
    NextSegment(BLANK, l1 + l2 + l3 + l4 + l5 + l6 + l7, c7, l8, d);
  }

  lemma KnownNames()
    ensures PropertyNamed("FN") == Fn && PropertyNamed("EMAIL") == Email && PropertyNamed("TEL") == Tel
    ensures PropertyNamed("ORG") == Org && PropertyNamed("NOTE") == Note && PropertyNamed("PHOTO") == Photo
    ensures Capitals("FN") && Capitals("EMAIL") && Capitals("TEL")
    ensures Capitals("ORG") && Capitals("NOTE") && Capitals("PHOTO")
  {
  }

  /** The opening lines and the body, without the closing line. */
  function Opening(d: Card): seq<string> {
    ["BEGIN:VCARD", "VERSION:4.0"] + BodyLines(d)
  }

  lemma OpeningReads(d: Card)
    requires Clean(d)
    ensures ReadLines(BLANK, Opening(d)) == d && AllFit(Opening(d))
  {
    hide ReadLines, BodyLines, Clean, Fits;
    BodyReads(d);
    HeaderReads();
    NextSegment(BLANK, ["BEGIN:VCARD", "VERSION:4.0"], BLANK, BodyLines(d), d);
  }

  lemma HeaderReads()
    ensures ReadLines(BLANK, ["BEGIN:VCARD", "VERSION:4.0"]) == BLANK && AllFit(["BEGIN:VCARD", "VERSION:4.0"])
  {
    hide ParseLine, Fits;
    FramingLines(BLANK);
    ReadOne(BLANK, "BEGIN:VCARD");
    ReadOne(BLANK, "VERSION:4.0");
    NextSegment(BLANK, ["BEGIN:VCARD"], BLANK, ["VERSION:4.0"], BLANK);
  }

  lemma BuiltLines(d: Card)
    ensures Built(d) == Render(Opening(d) + ["END:VCARD"])
  {
    hide Render, BodyLines;
  }

  lemma FitsNothing()
    ensures Fits("")
  {
  }

  /** A built card, whole or cut off right after its closing line, parses back. */
  lemma BuiltParsesBack(d: Card)
    requires Clean(d)
    ensures Parsed(Built(d)) == d
    ensures Parsed(Render(Opening(d)) + "END:VCARD") == d
  {
    hide BodyLines, ParseLine, Clean, ReadLines, Render, Fits, AllFit, Parsed, Opening;
    OpeningReads(d);
    FramingLines(d);
    BuiltLines(d);
    FitsNothing();
    ParsedRendered(Opening(d), "END:VCARD");
    ReadsClosing(d);
    ParsedRendered(Opening(d) + ["END:VCARD"], "");
    assert Built(d) == Built(d) + "";
  }

  lemma ReadsClosing(d: Card)
    requires ReadLines(BLANK, Opening(d)) == d && AllFit(Opening(d))
    ensures ReadLines(BLANK, Opening(d) + ["END:VCARD"]) == d && AllFit(Opening(d) + ["END:VCARD"])
    ensures ParseLine(d, "") == d
  {
    FramingLines(d);
    ReadOne(d, "END:VCARD");
    hide ReadLines, ParseLine, Opening;
    NextSegment(BLANK, Opening(d), d, ["END:VCARD"], d);
    BlankLine(d);
  }

  lemma BlankLine(c: Card)
    ensures ParseLine(c, "") == c
  {
  }

  /** Parsing a built card gives the draft back exactly when the draft is clean. */
  lemma RoundTrip(d: Card)
    ensures Parsed(Built(d)) == d <==> Clean(d)
  {
    ParseGivesClean(Built(d));
    if Clean(d) { BuiltParsesBack(d); }
  }
}
