/** Which field each line of a vCard fills (`ParseVCard` in internal/contactbridge/service.go), by the
    shape of content lines in section 3.3 of RFC 6350: a name, parameters, a colon and a value.
  */
module VCardFields {
  import opened Text
  import opened VCardText
  import opened VCard

  // ---- One line -------------------------------------------------------------------------------

  /** A value that may be blank, as a list. */
  function Filled(v: string): seq<string> {
    if v == "" then [] else [v]
  }

  /** What a line does to the contact: its name, in any letter case, says which field it fills, and its
      parameters say nothing. */
  lemma LineFills(c: Card, line: string, name: string, params: string, value: string)
    requires Spells(line, name, params, value)
    ensures var r, upper, v := ParseLine(c, line), ToUpper(name), Unescape(value);
      && (upper == "UID" ==> r == c.(uid := value))
      && (upper == "FN" ==> r == c.(fn := v))
      && (upper == "EMAIL" ==> r == c.(emails := c.emails + Filled(v)))
      && (upper == "TEL" ==> r == c.(phones := c.phones + Filled(v)))
      && (upper == "ORG" ==> r == c.(org := v))
      && (upper == "NOTE" ==> r == c.(note := v))
      && (upper == "PHOTO" ==> r == c.(photo := v))
      && (upper == "CATEGORIES" ==> r == c.(groups := c.groups + Kept(UnescapeEach(Pieces(value)))))
      && (upper !in {"UID", "FN", "EMAIL", "TEL", "ORG", "NOTE", "PHOTO", "CATEGORIES"} ==> r == c)
  {
    hide FirstOf, Unescape, Pieces, Kept, UnescapeEach, ToUpper;
    SpellsAt(line, name, params, value);
  }

  /** A line without a colon does nothing. */
  lemma NoColonIgnored(c: Card, line: string)
    requires ':' !in line
    ensures ParseLine(c, line) == c
  {
    NoneBefore(line, {':'});
  }

  // ---- All lines --------------------------------------------------------------------------------

  /** The name of a line, in capitals: what stands before its first semicolon or colon. */
  function NameOf(line: string): string {
    ToUpper(line[..FirstOf(line, {';', ':'})])
  }

  function ValueOf(line: string): string
    requires ':' in line
  {
    NoneBefore(line, {':'});
    line[FirstOf(line, {':'}) + 1..]
  }

  lemma NamesAndValues(line: string, name: string, params: string, value: string)
    requires Spells(line, name, params, value)
    ensures ':' in line && NameOf(line) == ToUpper(name) && ValueOf(line) == value
  {
    hide FirstOf, ToUpper;
    SpellsAt(line, name, params, value);
    assert line[|name| + |params|] == ':';
    FirstOfIs(line, {';', ':'}, |name|);
  }

  /** The values of the lines with this name, in order. */
  function Values(lines: seq<string>, name: string): seq<string> {
    if lines == [] then []
    else if ':' in lines[0] && NameOf(lines[0]) == name then [ValueOf(lines[0])] + Values(lines[1..], name)
    else Values(lines[1..], name)
  }

  /** The last value, or what was there before. */
  function Latest(before: string, vs: seq<string>): string {
    if vs == [] then before else vs[|vs| - 1]
  }

  function NonBlanks(vs: seq<string>): seq<string> {
    if vs == [] then [] else Filled(vs[0]) + NonBlanks(vs[1..])
  }

  /** The groups of all category lines. */
  function AllGroups(vs: seq<string>): seq<string> {
    if vs == [] then [] else Kept(UnescapeEach(Pieces(vs[0]))) + AllGroups(vs[1..])
  }

  /** The contact after these lines: the last of the single values, all of the repeated ones. */
  function Overlaid(c: Card, lines: seq<string>): Card {
    Card(Latest(c.uid, Values(lines, "UID")),
         Latest(c.fn, UnescapeEach(Values(lines, "FN"))),
         c.emails + NonBlanks(UnescapeEach(Values(lines, "EMAIL"))),
         c.phones + NonBlanks(UnescapeEach(Values(lines, "TEL"))),
         Latest(c.org, UnescapeEach(Values(lines, "ORG"))),
         Latest(c.note, UnescapeEach(Values(lines, "NOTE"))),
         Latest(c.photo, UnescapeEach(Values(lines, "PHOTO"))),
         c.groups + AllGroups(Values(lines, "CATEGORIES")))
  }

  /** What one line adds under a name. */
  function Own(line: string, name: string): seq<string> {
    if ':' in line && NameOf(line) == name then [ValueOf(line)] else []
  }

  lemma ValuesCons(line: string, rest: seq<string>, name: string)
    ensures Values([line] + rest, name) == Own(line, name) + Values(rest, name)
  {
    hide NameOf, ValueOf;
    assert ([line] + rest)[1..] == rest;
  }

  lemma LatestCons(before: string, a: seq<string>, b: seq<string>)
    requires |a| <= 1
    ensures Latest(Latest(before, a), b) == Latest(before, a + b)
    ensures Latest(Latest(before, UnescapeEach(a)), UnescapeEach(b)) == Latest(before, UnescapeEach(a + b))
  {
    hide Unescape;
  }

  lemma FilledCons(before: seq<string>, a: seq<string>, b: seq<string>)
    requires |a| <= 1
    ensures before + NonBlanks(UnescapeEach(a)) + NonBlanks(UnescapeEach(b)) ==
      before + NonBlanks(UnescapeEach(a + b))
  {
    hide Unescape;
    if a == [] {
      assert a + b == b && UnescapeEach(a) == [];
    } else {
      var all := UnescapeEach(a + b);
      assert all[1..] == UnescapeEach(b) && all[0] == Unescape(a[0]);
      assert UnescapeEach(a)[1..] == [];
    }
  }

  lemma GroupsCons(before: seq<string>, a: seq<string>, b: seq<string>)
    requires |a| <= 1
    ensures before + AllGroups(a) + AllGroups(b) == before + AllGroups(a + b)
  {
    hide Kept, UnescapeEach, Pieces;
    if a == [] {
      assert a + b == b;
    } else {
      assert (a + b)[1..] == b && a[1..] == [];
    }
  }

  lemma OverlaidCons(c: Card, line: string, rest: seq<string>)
    ensures Overlaid(Overlaid(c, [line]), rest) == Overlaid(c, [line] + rest)
  {
    hide Values, UnescapeEach, Latest, NonBlanks, AllGroups, Own;
    OwnValues(line);
    TakesOver(c.uid, line, rest, "UID");
    TakesOver(c.fn, line, rest, "FN");
    TakesOver(c.org, line, rest, "ORG");
    TakesOver(c.note, line, rest, "NOTE");
    TakesOver(c.photo, line, rest, "PHOTO");
    ValuesCons(line, rest, "EMAIL");
    FilledCons(c.emails, Own(line, "EMAIL"), Values(rest, "EMAIL"));
    ValuesCons(line, rest, "TEL");
    FilledCons(c.phones, Own(line, "TEL"), Values(rest, "TEL"));
    ValuesCons(line, rest, "CATEGORIES");
    GroupsCons(c.groups, Own(line, "CATEGORIES"), Values(rest, "CATEGORIES"));
  }

  lemma OwnValues(line: string)
    ensures forall name :: Values([line], name) == Own(line, name) && |Own(line, name)| <= 1
  {
    hide NameOf, ValueOf;
    forall name ensures Values([line], name) == Own(line, name) {
      ValuesCons(line, [], name);
      assert [line] + [] == [line];
    }
  }

  lemma TakesOver(before: string, line: string, rest: seq<string>, name: string)
    ensures Latest(Latest(before, Values([line], name)), Values(rest, name)) ==
      Latest(before, Values([line] + rest, name))
    ensures Latest(Latest(before, UnescapeEach(Values([line], name))), UnescapeEach(Values(rest, name))) ==
      Latest(before, UnescapeEach(Values([line] + rest, name)))
  {
    hide Values, UnescapeEach, Latest;
    OwnValues(line);
    ValuesCons(line, rest, name);
    LatestCons(before, Own(line, name), Values(rest, name));
  }

  lemma LineOverlays(c: Card, line: string)
    ensures ParseLine(c, line) == Overlaid(c, [line])
  {
    hide ParseLine, Overlaid, Values, Unescape, Pieces, Kept, NameOf, ValueOf, ToUpper, UnescapeEach;
    OwnValues(line);
    if ':' in line {
      var name, params, value := EveryLineSpells(line);
      NamesAndValues(line, name, params, value);
      LineFills(c, line, name, params, value);
      OverlaidOne(c, line, ToUpper(name), value);
    } else {
      NoColonIgnored(c, line);
      OverlaidNone(c, line);
    }
  }

  lemma OverlaidNone(c: Card, line: string)
    requires forall name :: Values([line], name) == []
    ensures Overlaid(c, [line]) == c
  {
    hide Values, Unescape;
    Nothing(c);
  }

  lemma OverlaidOne(c: Card, line: string, upper: string, value: string)
    requires forall name :: Values([line], name) == if name == upper then [value] else []
    ensures Overlaid(c, [line]) == Card(
      if upper == "UID" then value else c.uid,
      if upper == "FN" then Unescape(value) else c.fn,
      if upper == "EMAIL" then c.emails + Filled(Unescape(value)) else c.emails,
      if upper == "TEL" then c.phones + Filled(Unescape(value)) else c.phones,
      if upper == "ORG" then Unescape(value) else c.org,
      if upper == "NOTE" then Unescape(value) else c.note,
      if upper == "PHOTO" then Unescape(value) else c.photo,
      if upper == "CATEGORIES" then c.groups + Kept(UnescapeEach(Pieces(value))) else c.groups)
  {
    hide Values, Unescape, UnescapeEach, NonBlanks, AllGroups, Pieces, Kept, Filled;
    OneValue(value);
    Nothing(c);
  }

  lemma OneValue(v: string)
    ensures UnescapeEach([v]) == [Unescape(v)] && NonBlanks([Unescape(v)]) == Filled(Unescape(v))
    ensures AllGroups([v]) == Kept(UnescapeEach(Pieces(v)))
  {
    hide Unescape, Pieces, Kept;
    assert [v][1..] == [] && [Unescape(v)][1..] == [];
  }

  lemma Nothing(c: Card)
    ensures UnescapeEach([]) == [] && NonBlanks([]) == [] && AllGroups([]) == []
    ensures c.emails + [] == c.emails && c.phones + [] == c.phones && c.groups + [] == c.groups
  {
  }

  /** The lines without their trailing CRs. */
  function Trimmed(lines: seq<string>): (r: seq<string>)
    ensures |r| == |lines| && forall i :: 0 <= i < |r| ==> r[i] == TrimCR(lines[i])
  {
    seq(|lines|, i requires 0 <= i < |lines| => TrimCR(lines[i]))
  }

  lemma {:induction false} LinesOverlay(c: Card, lines: seq<string>)
    ensures ParseLines(c, lines) == Overlaid(c, Trimmed(lines))
    decreases |lines|
  {
    hide ParseLine, Overlaid;
    if lines == [] {
      OverlaidNothing(c);
    } else {
      var line := TrimCR(lines[0]);
      LineOverlays(c, line);
      LinesOverlay(ParseLine(c, line), lines[1..]);
      OverlaidCons(c, line, Trimmed(lines[1..]));
      assert Trimmed(lines) == [line] + Trimmed(lines[1..]);
    }
  }

  lemma OverlaidNothing(c: Card)
    ensures Overlaid(c, Trimmed([])) == c
  {
    Nothing(c);
  }

  /** What a parse reads, field by field: of UID, FN, ORG, NOTE and PHOTO the last line, of EMAIL, TEL and
      CATEGORIES every line, and of other lines nothing. */
  lemma ParsedFields(raw: string)
    ensures Parsed(raw) == Overlaid(BLANK, Trimmed(Split(raw, '\n')))
  {
    hide Overlaid;
    LinesOverlay(BLANK, Split(raw, '\n'));
  }
}
