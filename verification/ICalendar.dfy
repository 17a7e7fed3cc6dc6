/** iCalendar unfolding, field extraction and PARTSTAT rewriting of
    internal/calendarbridge/calendarbridge.go (section 3.1 of RFC 5545). */
module ICalendar {
  import opened Text

  // ---- Lines ----------------------------------------------------------------------------

  /** `strings.ReplaceAll(ical, "\r\n", "\n")`. */
  function Normalized(s: string): string {
    if s == [] then []
    else if |s| > 1 && s[0] == '\r' && s[1] == '\n' then ['\n'] + Normalized(s[2..])
    else [s[0]] + Normalized(s[1..])
  }

  predicate Continues(line: string) {
    line != "" && (line[0] == ' ' || line[0] == '\t')
  }

  lemma BlankStart(line: string)
    ensures HasPrefix(line, " ") || HasPrefix(line, "\t") <==> Continues(line)
  {
    if line != "" { assert line[..1] == [line[0]]; }
  }

  /** One turn of the unfolding loop. */
  function FoldIn(out: seq<string>, line: string): (r: seq<string>)
    ensures r != []
  {
    if Continues(line) && out != [] then out[|out| - 1 := out[|out| - 1] + line[1..]] else out + [line]
  }

  function Unfold(out: seq<string>, raw: seq<string>): seq<string>
    decreases |raw|
  {
    if raw == [] then out else Unfold(FoldIn(out, raw[0]), raw[1..])
  }

  /** The logical lines of a payload. */
  function Lines(ical: string): seq<string> {
    Unfold([], Split(Normalized(ical), '\n'))
  }

  /** `splitICalLines`: continuation lines are appended to the last line in place. */
  method SplitICalLines(ical: string) returns (out: seq<string>)
    ensures out == Lines(ical)
  {
    var raw := Split(Normalized(ical), '\n');
    out := [];
    assert raw[0..] == raw;
    hide Split, Normalized, HasPrefix;
    for i := 0 to |raw|
      invariant Unfold(out, raw[i..]) == Lines(ical)
    {
      assert raw[i..][1..] == raw[i + 1..];
      var line := raw[i];
      BlankStart(line);
      if (HasPrefix(line, " ") || HasPrefix(line, "\t")) && |out| > 0 {
        out := out[|out| - 1 := out[|out| - 1] + line[1..]];
        continue;
      }
      out := out + [line];
    }
    assert raw[|raw|..] == [];
  }

  /** Each line followed by CRLF. */
  function Render(lines: seq<string>): string {
    if lines == [] then "" else lines[0] + "\r\n" + Render(lines[1..])
  }

  lemma {:induction false} NormalizedLine(line: string, rest: string)
    requires '\n' !in line
    ensures Normalized(line + "\r\n" + rest) == line + "\n" + Normalized(rest)
  {
    var s := line + "\r\n" + rest;
    if line == [] {
      assert s[2..] == rest;
    } else {
      assert s[1..] == line[1..] + "\r\n" + rest;
      NormalizedLine(line[1..], rest);
      assert s[1] == (if |line| > 1 then line[1] else '\r');
      assert line + "\n" + Normalized(rest) == [line[0]] + (line[1..] + "\n" + Normalized(rest));
    }
  }

  predicate NoNewlines(lines: seq<string>) {
    forall i :: 0 <= i < |lines| ==> '\n' !in lines[i]
  }

  lemma {:induction false} SplitRendered(lines: seq<string>)
    requires NoNewlines(lines)
    ensures Split(Normalized(Render(lines)), '\n') == lines + [""]
  {
    if lines != [] {
      SplitRendered(lines[1..]);
      NormalizedLine(lines[0], Render(lines[1..]));
      SplitLine(lines[0], Normalized(Render(lines[1..])), '\n');
      assert lines + [""] == [lines[0]] + (lines[1..] + [""]);
    }
  }

  /** Logical lines hold no newline. */
  lemma {:induction false} UnfoldNoNewlines(out: seq<string>, raw: seq<string>)
    requires NoNewlines(out) && NoNewlines(raw)
    ensures NoNewlines(Unfold(out, raw))
    decreases |raw|
  {
    if raw != [] {
      UnfoldNoNewlines(FoldIn(out, raw[0]), raw[1..]);
    }
  }

  lemma LinesNoNewlines(ical: string)
    ensures NoNewlines(Lines(ical)) && Lines(ical) != []
  {
    var raw := Split(Normalized(ical), '\n');
    assert forall i :: 0 <= i < |raw| ==> raw[i] in raw;
    UnfoldNoNewlines([], raw);
    UnfoldNonEmpty([], raw);
  }

  lemma {:induction false} UnfoldNonEmpty(out: seq<string>, raw: seq<string>)
    requires out != [] || raw != []
    ensures Unfold(out, raw) != []
    decreases |raw|
  {
    if raw != [] { UnfoldNonEmpty(FoldIn(out, raw[0]), raw[1..]); }
  }

  /** No line but the first would be taken for a continuation. */
  predicate Stable(lines: seq<string>) {
    forall i :: 0 < i < |lines| ==> !Continues(lines[i])
  }

  /** How many lines unfolding leaves. */
  lemma {:induction false} UnfoldLength(out: seq<string>, raw: seq<string>)
    requires out != []
    ensures |Unfold(out, raw)| <= |out| + |raw|
    ensures |Unfold(out, raw)| == |out| + |raw| <==> forall i :: 0 <= i < |raw| ==> !Continues(raw[i])
    ensures (forall i :: 0 <= i < |raw| ==> !Continues(raw[i])) ==> Unfold(out, raw) == out + raw
    decreases |raw|
  {
    if raw != [] {
      UnfoldLength(FoldIn(out, raw[0]), raw[1..]);
      assert forall i :: 0 < i < |raw| ==> raw[i] == raw[1..][i - 1];
      if !Continues(raw[0]) {
        assert out + [raw[0]] + raw[1..] == out + raw;
      }
    }
  }

  /** Writing logical lines out and unfolding them again gives them back, plus the empty line
      after the last CRLF, exactly when none but the first starts with a blank. */
  lemma UnfoldRendered(lines: seq<string>)
    requires lines != [] && NoNewlines(lines)
    ensures Lines(Render(lines)) == lines + [""] <==> Stable(lines)
  {
    SplitRendered(lines);
    var raw := lines + [""];
    assert raw[1..] == lines[1..] + [""];
    assert FoldIn([], raw[0]) == [lines[0]];
    UnfoldLength([lines[0]], raw[1..]);
    assert forall i :: 0 < i < |raw| ==> raw[1..][i - 1] == raw[i];
    assert [lines[0]] + raw[1..] == raw;
    assert Stable(lines) <==> forall i :: 0 <= i < |raw[1..]| ==> !Continues(raw[1..][i]) by {
      if forall i :: 0 <= i < |raw[1..]| ==> !Continues(raw[1..][i]) {
        forall i | 0 < i < |lines| ensures !Continues(lines[i]) { assert raw[1..][i - 1] == lines[i]; }
      }
    }
  }

  // ---- Folding ---------------------------------------------------------------------------

  /** A logical line in pieces, each after the first on a line of its own that starts with a blank. */
  function FoldedLine(pieces: seq<string>, blank: char): (r: seq<string>)
    requires pieces != []
    ensures |r| == |pieces|
  {
    if |pieces| == 1 then pieces else FoldedLine(pieces[..|pieces| - 1], blank) + [[blank] + pieces[|pieces| - 1]]
  }

  function Unbroken(pieces: seq<string>): string {
    if pieces == [] then "" else Unbroken(pieces[..|pieces| - 1]) + pieces[|pieces| - 1]
  }

  ghost predicate Foldable(lines: seq<seq<string>>) {
    forall i :: 0 <= i < |lines| ==> lines[i] != [] && NoNewlines(lines[i]) && !Continues(lines[i][0])
  }

  function FoldedLines(lines: seq<seq<string>>, blank: char): seq<string>
    requires forall i :: 0 <= i < |lines| ==> lines[i] != []
  {
    if lines == [] then [] else FoldedLines(lines[..|lines| - 1], blank) + FoldedLine(lines[|lines| - 1], blank)
  }

  function AllUnbroken(lines: seq<seq<string>>): seq<string> {
    if lines == [] then [] else AllUnbroken(lines[..|lines| - 1]) + [Unbroken(lines[|lines| - 1])]
  }

  lemma {:induction false} UnfoldConcat(out: seq<string>, a: seq<string>, b: seq<string>)
    ensures Unfold(out, a + b) == Unfold(Unfold(out, a), b)
    decreases |a|
  {
    hide FoldIn;
    if a == [] {
      assert a + b == b;
    } else {
      assert (a + b)[1..] == a[1..] + b;
      UnfoldConcat(FoldIn(out, a[0]), a[1..], b);
    }
  }

  lemma UnfoldOne(out: seq<string>, line: string)
    ensures Unfold(out, [line]) == FoldIn(out, line)
  {
    assert [line][1..] == [];
  }

  lemma {:induction false} UnfoldLine(out: seq<string>, pieces: seq<string>, blank: char)
    requires pieces != [] && NoNewlines(pieces) && !Continues(pieces[0]) && blank in {' ', '\t'}
    ensures Unfold(out, FoldedLine(pieces, blank)) == out + [Unbroken(pieces)]
    ensures NoNewlines(FoldedLine(pieces, blank))
  {
    hide Unfold;
    var n := |pieces| - 1;
    if n == 0 {
      assert pieces == [pieces[0]];
      UnfoldOne(out, pieces[0]);
      assert Unbroken(pieces[..0]) == "" && "" + pieces[0] == pieces[0];
    } else {
      var last := [blank] + pieces[n];
      UnfoldLine(out, pieces[..n], blank);
      UnfoldConcat(out, FoldedLine(pieces[..n], blank), [last]);
      UnfoldOne(out + [Unbroken(pieces[..n])], last);
      assert last[1..] == pieces[n];
    }
  }

  lemma {:induction false} UnfoldFolded(lines: seq<seq<string>>, blank: char)
    requires Foldable(lines) && blank in {' ', '\t'}
    ensures Unfold([], FoldedLines(lines, blank)) == AllUnbroken(lines) && NoNewlines(FoldedLines(lines, blank))
  {
    hide Unfold, FoldedLine, Unbroken, Continues;
    if lines == [] {
      UnfoldNothing();
    } else {
      var n := |lines| - 1;
      UnfoldFolded(lines[..n], blank);
      UnfoldConcat([], FoldedLines(lines[..n], blank), FoldedLine(lines[n], blank));
      UnfoldLine(AllUnbroken(lines[..n]), lines[n], blank);
    }
  }

  lemma UnfoldNothing()
    ensures Unfold([], []) == []
  {
  }

  /** Unfolding undoes folding: lines folded anywhere, with spaces or tabs, read back whole. */
  lemma UnfoldInvertsFold(lines: seq<seq<string>>, blank: char)
    requires Foldable(lines) && blank in {' ', '\t'}
    ensures Lines(Render(FoldedLines(lines, blank))) == AllUnbroken(lines) + [""]
  {
    hide Unfold, Normalized, Split, FoldedLines, AllUnbroken;
    UnfoldFolded(lines, blank);
    SplitRendered(FoldedLines(lines, blank));
    UnfoldConcat([], FoldedLines(lines, blank), [""]);
    UnfoldOne(AllUnbroken(lines), "");
  }

  // ---- Fields ---------------------------------------------------------------------------

  datatype Field = Absent | Present(value: string)

  function FieldOf(line: string, name: string): Field {
    var split := FirstOf(line, {';', ':'});
    if split == |line| || !EqualFold(line[..split], name) then Absent else
      var colon := FirstOf(line, {':'});
      if colon == |line| then Absent else Present(TrimSpace(line[colon + 1..]))
  }

  function FirstField(lines: seq<string>, name: string): string {
    if lines == [] then ""
    else if FieldOf(lines[0], name).Present? then FieldOf(lines[0], name).value
    else FirstField(lines[1..], name)
  }

  /** `extractICalField`. */
  method ExtractICalField(ical: string, name: string) returns (value: string)
    ensures value == FirstField(Lines(ical), name)
  {
    var lines := SplitICalLines(ical);
    assert lines[0..] == lines;
    hide Lines, EqualFold, TrimSpace;
    for i := 0 to |lines|
      invariant FirstField(lines[i..], name) == FirstField(lines, name)
    {
      assert lines[i..][1..] == lines[i + 1..];
      var line := lines[i];
      var split := FirstOf(line, {';', ':'});
      if split == |line| {
        continue;
      }
      if !EqualFold(line[..split], name) {
        continue;
      }
      var colon := FirstOf(line, {':'});
      if colon == |line| {
        continue;
      }
      return TrimSpace(line[colon + 1..]);
    }
    assert lines[|lines|..] == [];
    return "";
  }

  /** A line of a name, parameters, a colon and a value has that property, in any letter case of the name,
      with the value trimmed, and no other. */
  lemma FieldOfLine(line: string, name: string, params: string, value: string, wanted: string)
    requires Spells(line, name, params, value)
    ensures FieldOf(line, wanted) == if EqualFold(name, wanted) then Present(TrimSpace(value)) else Absent
  {
    hide FirstOf, TrimSpace, EqualFold;
    SpellsAt(line, name, params, value);
    FirstOfIs(line, {';', ':'}, |name|);
  }

  /** A line without a colon has none. */
  lemma NoColonNoField(line: string, wanted: string)
    requires ':' !in line
    ensures FieldOf(line, wanted).Absent?
  {
    NoneBefore(line, {':'});
  }

  /** The field extracted is that of the first line that has it, or empty. */
  lemma {:induction false} FirstFieldIs(lines: seq<string>, name: string, i: nat)
    requires i <= |lines| && forall k :: 0 <= k < i ==> FieldOf(lines[k], name).Absent?
    ensures i == |lines| ==> FirstField(lines, name) == ""
    ensures i < |lines| && FieldOf(lines[i], name).Present? ==> FirstField(lines, name) == FieldOf(lines[i], name).value
  {
    hide FieldOf;
    if i > 0 {
      assert forall k :: 0 <= k < i - 1 ==> lines[1..][k] == lines[k + 1];
      FirstFieldIs(lines[1..], name, i - 1);
    }
  }

  // ---- Rewriting one ATTENDEE line ------------------------------------------------------

  const KEY := "partstat="

  predicate SeparatorFree(s: string) {
    forall i :: 0 <= i < |s| ==> s[i] != ';' && s[i] != ':'
  }

  /** `rewriteAttendeeLine`. */
  function RewriteAttendeeLine(line: string, partstat: string): string {
    match IndexOf(ToLower(line), KEY)
    case At(i) => line[..i] + "PARTSTAT=" + partstat + line[i + FirstOf(line[i..], {';', ':'})..]
    case Missing =>
      var colon := FirstOf(line, {':'});
      if colon == |line| then line else line[..colon] + ";PARTSTAT=" + partstat + line[colon..]
  }

  /** The key put after text without one is the first in the line. */
  lemma KeyFirst(prefix: string, rest: string)
    requires Lacks(ToLower(prefix), KEY)
    ensures IndexOf(ToLower(prefix + "PARTSTAT=" + rest), KEY) == At(|prefix|)
  {
    hide IndexOf, Lacks;
    LowerConcat(prefix + "PARTSTAT=", rest);
    LowerConcat(prefix, "PARTSTAT=");
    assert ToLower("PARTSTAT=") == KEY;
    MarkerFirst(ToLower(prefix), KEY, ToLower(rest));
  }

  /** A line with the key at the end of `prefix` and its value running to `rest`. */
  lemma RewriteAt(prefix: string, value: string, rest: string, partstat: string)
    requires Lacks(ToLower(prefix), KEY)
    requires SeparatorFree(value) && (rest == "" || rest[0] == ';' || rest[0] == ':')
    ensures RewriteAttendeeLine(prefix + "PARTSTAT=" + value + rest, partstat) == prefix + "PARTSTAT=" + partstat + rest
  {
    hide IndexOf, Lacks, ToLower;
    var line := prefix + "PARTSTAT=" + value + rest;
    assert line == prefix + "PARTSTAT=" + (value + rest);
    KeyFirst(prefix, value + rest);
    ValueEnds(value, rest);
    var n := |KEY| + |value|;
    assert line[|prefix|..] == "PARTSTAT=" + value + rest;
    assert line[..|prefix|] == prefix && line[|prefix| + n..] == rest;
  }

  lemma ValueEnds(value: string, rest: string)
    requires SeparatorFree(value) && (rest == "" || rest[0] == ';' || rest[0] == ':')
    ensures FirstOf("PARTSTAT=" + value + rest, {';', ':'}) == |KEY| + |value|
  {
    assert SeparatorFree("PARTSTAT=");
    var field := "PARTSTAT=" + value;
    assert SeparatorFree(field);
    FirstOfConcat(field, rest, {';', ':'});
  }

  /** What follows a value starts with a separator, if anything follows. */
  lemma ValueTail(line: string, i: nat)
    requires i <= |line|
    ensures var rest := line[i + FirstOf(line[i..], {';', ':'})..]; rest == "" || rest[0] == ';' || rest[0] == ':'
  {
    var end := FirstOf(line[i..], {';', ':'});
    if i + end < |line| { assert line[i..][end] == line[i + end..][0]; }
  }

  /** The last rewrite wins: rewriting with `a` and then `b` is rewriting with `b`. */
  lemma RewriteTwice(line: string, a: string, b: string)
    requires SeparatorFree(a)
    ensures RewriteAttendeeLine(RewriteAttendeeLine(line, a), b) == RewriteAttendeeLine(line, b)
  {
    hide Lacks, ToLower;
    match IndexOf(ToLower(line), KEY) {
      case At(i) =>
        LowerPrefix(line, i);
        LacksPrefix(ToLower(line), i, KEY);
        ValueTail(line, i);
        hide IndexOf, OccursAt, FirstOf;
        RewriteAt(line[..i], a, line[i + FirstOf(line[i..], {';', ':'})..], b);
      case Missing =>
        var colon := FirstOf(line, {':'});
        if colon < |line| {
          LowerPrefix(line, colon);
          LacksPrefix(ToLower(line), colon, KEY);
          SeparatorLacksKey(line[..colon]);
          hide IndexOf, OccursAt;
          RewriteAt(line[..colon] + ";", a, line[colon..], b);
          InsertIsRewrite(line, colon, a);
          InsertIsRewrite(line, colon, b);
        }
    }
  }

  lemma LowerPrefix(line: string, i: nat)
    requires i <= |line|
    ensures ToLower(line[..i]) == ToLower(line)[..i]
  {
  }

  lemma SeparatorLacksKey(s: string)
    requires Lacks(ToLower(s), KEY)
    ensures Lacks(ToLower(s + ";"), KEY)
  {
    hide Lacks;
    LowerConcat(s, ";");
    assert ToLower(";") == ";";
    LacksSnoc(ToLower(s), ';', KEY);
  }

  lemma InsertIsRewrite(line: string, colon: nat, value: string)
    requires colon <= |line|
    ensures line[..colon] + ";PARTSTAT=" + value + line[colon..] ==
      line[..colon] + ";" + "PARTSTAT=" + value + line[colon..]
  {
    assert ";PARTSTAT=" == ";" + "PARTSTAT=";
    assert line[..colon] + (";" + "PARTSTAT=") == line[..colon] + ";" + "PARTSTAT=";
  }

  // ---- Rewriting a payload --------------------------------------------------------------

  const ATTENDEE := "ATTENDEE"

  /** The line starts, in any case, with the property name. */
  predicate IsAttendee(s: string) {
    HasPrefix(ToUpper(s), ATTENDEE)
  }

  predicate Matches(line: string, mailto: string) {
    IsAttendee(line) && Contains(ToLower(line), mailto)
  }

  function RewriteLine(line: string, mailto: string, partstat: string): string {
    if Matches(line, mailto) then RewriteAttendeeLine(line, partstat) else line
  }

  function RewriteEach(lines: seq<string>, mailto: string, partstat: string): (r: seq<string>)
    ensures |r| == |lines| && forall i :: 0 <= i < |lines| ==> r[i] == RewriteLine(lines[i], mailto, partstat)
  {
    seq(|lines|, i requires 0 <= i < |lines| => RewriteLine(lines[i], mailto, partstat))
  }

  datatype Partstat = UnknownResponse | Known(text: string)

  function PartstatOf(response: string): Partstat {
    match ToLower(response)
    case "accepted" => Known("ACCEPTED")
    case "tentative" => Known("TENTATIVE")
    case "declined" => Known("DECLINED")
    case "needs-action" => Known("NEEDS-ACTION")
    case _ => UnknownResponse
  }

  datatype Rewrite = Rewritten(ical: string) | InvalidResponse | NoAttendee

  /** The four responses, in lower case. */
  const RESPONSES: set<string> := {"accepted", "tentative", "declined", "needs-action"}

  /** A known response is written in capitals. */
  lemma PartstatIsUpper(response: string)
    ensures PartstatOf(response).Known? <==> ToLower(response) in RESPONSES
    ensures PartstatOf(response).Known? ==> PartstatOf(response).text == ToUpper(response)
  {
    hide ToLower, ToUpper;
    var low, text := ToLower(response), ToUpper(response);
    UpperOfLower(response);
    assert ToUpper("accepted") == "ACCEPTED" && ToUpper("tentative") == "TENTATIVE";
    assert ToUpper("declined") == "DECLINED" && ToUpper("needs-action") == "NEEDS-ACTION";
  }

  lemma UpperOfLower(s: string)
    ensures ToUpper(ToLower(s)) == ToUpper(s)
  {
  }

  /** `rewritePartstat`. */
  method RewritePartstat(ical: string, email: string, response: string) returns (r: Rewrite)
    ensures r.InvalidResponse? <==> ToLower(response) !in RESPONSES
    ensures r.NoAttendee? ==> NoneMatch(Lines(ical), "mailto:" + ToLower(email))
    ensures r.Rewritten? ==> !NoneMatch(Lines(ical), "mailto:" + ToLower(email))
    ensures r.Rewritten? ==>
      r.ical == Render(RewriteEach(Lines(ical), "mailto:" + ToLower(email), ToUpper(response)))
  {
    hide Lines, NoneMatch, Render, RewriteEach, PartstatOf, ToLower, ToUpper;
    PartstatIsUpper(response);
    var partstat := PartstatOf(response);
    if partstat.UnknownResponse? {
      return InvalidResponse;
    }
    var lines := SplitICalLines(ical);
    var out, found := WriteRewritten(lines, "mailto:" + ToLower(email), partstat.text);
    if !found {
      return NoAttendee;
    }
    return Rewritten(out);
  }

  predicate NoneMatch(lines: seq<string>, mailto: string) {
    forall i :: 0 <= i < |lines| ==> !Matches(lines[i], mailto)
  }

  /** The loop of `rewritePartstat`. */
  method WriteRewritten(lines: seq<string>, mailto: string, partstat: string) returns (out: string, found: bool)
    ensures out == Render(RewriteEach(lines, mailto, partstat))
    ensures found <==> !NoneMatch(lines, mailto)
  {
    hide Matches, RewriteAttendeeLine, Render;
    out, found := "", false;
    RenderNothing();
    for i := 0 to |lines|
      invariant out == Render(RewriteEach(lines[..i], mailto, partstat))
      invariant found <==> !NoneMatch(lines[..i], mailto)
    {
      var line := lines[i];
      assert lines[..i + 1] == lines[..i] + [line];
      if Matches(line, mailto) {
        line := RewriteAttendeeLine(line, partstat);
        found := true;
      }
      assert RewriteEach(lines[..i + 1], mailto, partstat) == RewriteEach(lines[..i], mailto, partstat) + [line];
      RenderSnoc(RewriteEach(lines[..i], mailto, partstat), line);
      out := out + line + "\r\n";
    }
    assert lines[..|lines|] == lines;
  }

  lemma RenderNothing()
    ensures Render([]) == ""
  {
  }

  lemma {:induction false} RenderSnoc(lines: seq<string>, line: string)
    ensures Render(lines + [line]) == Render(lines) + line + "\r\n"
  {
    if lines == [] {
      assert [line][1..] == [];
    } else {
      RenderSnoc(lines[1..], line);
      assert (lines + [line])[1..] == lines[1..] + [line];
    }
  }

  /** The name is letters, none of them the key's first. */
  lemma AttendeeLetters(line: string)
    requires IsAttendee(line)
    ensures |line| >= 8 && forall i :: 0 <= i < 8 ==> line[i] != ';' && line[i] != ':' && LowerChar(line[i]) != 'p'
  {
    forall i | 0 <= i < 8 ensures UpperChar(line[i]) == ATTENDEE[i] {
      assert ToUpper(line)[..8][i] == UpperChar(line[i]); }
  }

  lemma KeepsPrefix(line: string, k: nat, rest: string)
    requires 8 <= k <= |line|
    ensures HasPrefix(line[..k] + rest, line[..8])
  {
    assert (line[..k] + rest)[..8] == line[..8];
  }

  /** The key and the colon come after the name. */
  lemma KeyAfterName(line: string)
    requires IsAttendee(line)
    ensures |line| >= 8 && FirstOf(line, {':'}) >= 8
    ensures IndexOf(ToLower(line), KEY).At? ==> IndexOf(ToLower(line), KEY).i >= 8
  {
    hide IsAttendee, FirstOf, IndexOf;
    AttendeeLetters(line);
    var at := IndexOf(ToLower(line), KEY);
    if at.At? { assert ToLower(line)[at.i] == ToLower(line)[at.i..at.i + |KEY|][0]; }
  }

  /** A rewrite keeps the line up to the key, or up to the colon. */
  lemma RewriteKeepsFront(line: string, partstat: string) returns (k: nat, rest: string)
    requires |line| >= 8 && FirstOf(line, {':'}) >= 8
    requires IndexOf(ToLower(line), KEY).At? ==> IndexOf(ToLower(line), KEY).i >= 8
    ensures 8 <= k <= |line| && RewriteAttendeeLine(line, partstat) == line[..k] + rest
  {
    hide IndexOf, FirstOf, ToLower;
    match IndexOf(ToLower(line), KEY) {
      case At(i) =>
        var tail := line[i + FirstOf(line[i..], {';', ':'})..];
        k, rest := i, "PARTSTAT=" + partstat + tail;
        Regroup(line[..k], "PARTSTAT=", partstat, tail);
      case Missing =>
        k := FirstOf(line, {':'});
        rest := if k == |line| then "" else ";PARTSTAT=" + partstat + line[k..];
        Regroup(line[..k], ";PARTSTAT=", partstat, line[k..]);
        assert k == |line| ==> line[..k] + "" == line;
    }
  }

  lemma Regroup(a: string, b: string, c: string, d: string)
    ensures a + (b + c + d) == a + b + c + d
  {
  }

  /** Rewriting leaves the property name alone. */
  lemma RewriteKeepsName(line: string, partstat: string)
    requires IsAttendee(line)
    ensures |line| >= 8 && HasPrefix(RewriteAttendeeLine(line, partstat), line[..8])
  {
    hide IndexOf, FirstOf, HasPrefix, IsAttendee, ToLower, RewriteAttendeeLine;
    KeyAfterName(line);
    var k, rest := RewriteKeepsFront(line, partstat);
    KeepsPrefix(line, k, rest);
  }

  lemma RewriteLineShape(line: string, mailto: string, partstat: string)
    requires '\n' !in line && '\n' !in partstat
    ensures '\n' !in RewriteLine(line, mailto, partstat)
    ensures Continues(RewriteLine(line, mailto, partstat)) <==> Continues(line)
  {
    if Matches(line, mailto) {
      RewriteKeepsName(line, partstat);
      var r := RewriteAttendeeLine(line, partstat);
      assert r[..8][0] == line[..8][0];
      hide IndexOf;
    }
  }

  lemma RewriteEachShape(lines: seq<string>, mailto: string, partstat: string)
    requires NoNewlines(lines) && '\n' !in partstat
    ensures NoNewlines(RewriteEach(lines, mailto, partstat))
    ensures Stable(RewriteEach(lines, mailto, partstat)) <==> Stable(lines)
  {
    var r := RewriteEach(lines, mailto, partstat);
    forall i | 0 <= i < |lines| ensures '\n' !in r[i] && (Continues(r[i]) <==> Continues(lines[i])) {
      RewriteLineShape(lines[i], mailto, partstat);
    }
    hide RewriteLine, Continues;
  }

  /** Unfolding a rewritten payload gives the input's logical lines, the matching ones rewritten,
      and one empty line: exactly when no logical line but the first starts with a blank. */
  lemma RewriteUnfolds(ical: string, mailto: string, partstat: string)
    requires '\n' !in partstat
    ensures Lines(Render(RewriteEach(Lines(ical), mailto, partstat))) ==
      RewriteEach(Lines(ical), mailto, partstat) + [""]
      <==> Stable(Lines(ical))
  {
    hide Lines, RewriteLine, NoNewlines, Stable, Render;
    LinesNoNewlines(ical);
    RewriteEachShape(Lines(ical), mailto, partstat);
    UnfoldRendered(RewriteEach(Lines(ical), mailto, partstat));
  }

  lemma FoldedUpper(a: string, b: string)
    requires EqualFold(a, b)
    ensures ToUpper(a) == ToUpper(b)
  {
    assert |a| == |ToLower(a)| == |ToLower(b)| == |b|;
    forall i | 0 <= i < |a| ensures UpperChar(a[i]) == UpperChar(b[i]) {
      assert ToLower(a)[i] == ToLower(b)[i];
    }
  }

  /** An ATTENDEE line holds no other property. */
  lemma AttendeeIsNotOther(line: string, name: string)
    requires IsAttendee(line) && !IsAttendee(name)
    ensures FieldOf(line, name) == Absent
  {
    var split := FirstOf(line, {';', ':'});
    AttendeeLetters(line);
    assert split >= 8;
    assert ToUpper(line[..split])[..8] == ToUpper(line)[..8];
    if EqualFold(line[..split], name) {
      FoldedUpper(line[..split], name);
    }
  }

  lemma RewriteKeepsField(line: string, mailto: string, partstat: string, name: string)
    requires !IsAttendee(name)
    ensures FieldOf(RewriteLine(line, mailto, partstat), name) == FieldOf(line, name)
  {
    if Matches(line, mailto) {
      RewriteKeepsName(line, partstat);
      var r := RewriteAttendeeLine(line, partstat);
      assert ToUpper(r)[..8] == ToUpper(line[..8]) == ToUpper(line)[..8];
      AttendeeIsNotOther(line, name);
      AttendeeIsNotOther(r, name);
    }
  }

  lemma {:induction false} RewriteKeepsFirstField(lines: seq<string>, mailto: string, partstat: string, name: string)
    requires !IsAttendee(name)
    ensures FirstField(RewriteEach(lines, mailto, partstat) + [""], name) == FirstField(lines, name)
  {
    hide RewriteLine, IsAttendee;
    var r := RewriteEach(lines, mailto, partstat) + [""];
    if lines == [] {
      BlankHasNoField(name);
      assert r == [""] && r[1..] == [];
    } else {
      RewriteKeepsField(lines[0], mailto, partstat, name);
      RewriteKeepsFirstField(lines[1..], mailto, partstat, name);
      assert r[1..] == RewriteEach(lines[1..], mailto, partstat) + [""];
      assert r[0] == RewriteLine(lines[0], mailto, partstat);
      hide FieldOf;
    }
  }

  lemma BlankHasNoField(name: string)
    ensures FieldOf("", name) == Absent
  {
  }

  /** So every property whose name is not ATTENDEE... extracts unchanged. */
  lemma RewriteKeepsOtherFields(ical: string, mailto: string, partstat: string, name: string)
    requires '\n' !in partstat && Stable(Lines(ical)) && !IsAttendee(name)
    ensures FirstField(Lines(Render(RewriteEach(Lines(ical), mailto, partstat))), name) == FirstField(Lines(ical), name)
  {
    hide Lines, Stable, IsAttendee, Render, FirstField;
    RewriteUnfolds(ical, mailto, partstat);
    RewriteKeepsFirstField(Lines(ical), mailto, partstat, name);
  }

  // ---- When the logical lines are stable ------------------------------------------------

  /** No continuation line directly follows an empty physical line. */
  predicate NoFoldAfterBlank(raw: seq<string>) {
    forall i :: 0 < i < |raw| && Continues(raw[i]) ==> raw[i - 1] != ""
  }

  lemma {:induction false} UnfoldStable(out: seq<string>, raw: seq<string>)
    requires Stable(out) && NoFoldAfterBlank(raw)
    requires raw != [] && Continues(raw[0]) && |out| > 1 ==> out[|out| - 1] != ""
    ensures Stable(Unfold(out, raw))
    decreases |raw|
  {
    if raw != [] {
      var next := FoldIn(out, raw[0]);
      assert forall i :: 0 < i < |raw[1..]| ==> raw[1..][i] == raw[i + 1] && raw[1..][i - 1] == raw[i];
      UnfoldStable(next, raw[1..]);
    }
  }

  /** The condition on the payload as written: blank lines are not folded onto. */
  lemma LinesStable(ical: string)
    requires NoFoldAfterBlank(Split(Normalized(ical), '\n'))
    ensures Stable(Lines(ical))
  {
    UnfoldStable([], Split(Normalized(ical), '\n'));
  }

  lemma {:induction false} NormalizedPlain(s: string)
    requires '\r' !in s
    ensures Normalized(s) == s
  {
    if s != [] {
      NormalizedPlain(s[1..]);
    }
  }

  /** A payload that folds onto an empty line after one other line. */
  function Folded(first: string): string {
    first + ['\n'] + ("" + ['\n'] + "  b")
  }

  lemma FoldedPayload(first: string)
    requires '\n' !in first && '\r' !in first && !Continues(first)
    ensures Lines(Folded(first)) == [first, " b"]
  {
    hide Split, Normalized, Unfold, Continues;
    NormalizedPlain(Folded(first));
    SplitLine(first, "" + ['\n'] + "  b", '\n');
    SplitLine("", "  b", '\n');
    SplitNone("  b", '\n');
    assert [first] + ([""] + ["  b"]) == [first, "", "  b"];
    UnfoldThree(first);
  }

  lemma UnfoldStep(out: seq<string>, line: string, rest: seq<string>)
    ensures Unfold(out, [line] + rest) == Unfold(FoldIn(out, line), rest) && Unfold(out, []) == out
  {
    hide FoldIn;
    assert ([line] + rest)[1..] == rest;
  }

  lemma UnfoldThree(first: string)
    requires !Continues(first)
    ensures Unfold([], [first, "", "  b"]) == [first, " b"]
  {
    hide Unfold;
    UnfoldStep([], first, ["", "  b"]);
    UnfoldStep([first], "", ["  b"]);
    UnfoldStep([first, ""], "  b", []);
    UnfoldStep([first, " b"], "", []);
    assert [first] + ["", "  b"] == [first, "", "  b"] && [""] + ["  b"] == ["", "  b"] && ["  b"] + [] == ["  b"];
    assert "  b"[1..] == " b" && "" + " b" == " b";
    assert FoldIn([], first) == [first] && FoldIn([first], "") == [first, ""];
    assert FoldIn([first, ""], "  b") == [first, " b"];
  }

  const INVITEE := "ATTENDEE:mailto:a"

  lemma FoldedMatches()
    ensures Matches(INVITEE, "mailto:a")
  {
    hide ToUpper, ToLower;
    var line := INVITEE;
    assert ToUpper(line)[..8] == "ATTENDEE";
    assert ToLower(line)[9..17] == "mailto:a";
    assert OccursAt(ToLower(line), "mailto:a", 9);
  }

  /** A fold after a blank line breaks it: the payload has a matching attendee, so the rewrite
      succeeds, and what it writes unfolds to other lines. */
  lemma FoldAfterBlankBreaks(partstat: string)
    requires '\n' !in partstat
    ensures !NoneMatch(Lines(Folded(INVITEE)), "mailto:a")
    ensures var written := RewriteEach(Lines(Folded(INVITEE)), "mailto:a", partstat);
      Lines(Render(written)) != written + [""]
  {
    hide Lines, Render, RewriteEach, Matches, Folded;
    FoldedPayload(INVITEE);
    FoldedMatches();
    assert Lines(Folded(INVITEE))[0] == INVITEE;
    assert Continues(Lines(Folded(INVITEE))[1]);
    RewriteUnfolds(Folded(INVITEE), "mailto:a", partstat);
  }

  // ---- What an answered line carries ------------------------------------------------------------

  /** The first PARTSTAT parameter of the line, in any letter case of its name, is this one. */
  ghost predicate Carries(line: string, prefix: string, partstat: string, rest: string) {
    line == prefix + "PARTSTAT=" + partstat + rest && Lacks(ToLower(prefix), KEY) &&
    (rest == "" || rest[0] == ';' || rest[0] == ':')
  }

  /** A line without the parameter gets it before its first colon. */
  lemma InsertAt(front: string, rest: string, partstat: string)
    requires ':' !in front && IndexOf(ToLower(front + ":" + rest), KEY).Missing?
    ensures RewriteAttendeeLine(front + ":" + rest, partstat) == front + ";PARTSTAT=" + partstat + ":" + rest
  {
    hide IndexOf, FirstOf, ToLower;
    var line := front + ":" + rest;
    FirstOfIs(line, {':'}, |front|);
    assert line[..|front|] == front && line[|front|..] == ":" + rest;
    assert front + ";PARTSTAT=" + partstat + (":" + rest) == front + ";PARTSTAT=" + partstat + ":" + rest;
  }

  /** Every answered line carries the answer: in place of the value it had, or before the colon. */
  lemma AnswerCarried(line: string, mailto: string, partstat: string) returns (prefix: string, rest: string)
    requires Matches(line, mailto) && ':' in mailto
    ensures Carries(RewriteLine(line, mailto, partstat), prefix, partstat, rest)
  {
    hide Lacks, ToLower, ToUpper;
    match IndexOf(ToLower(line), KEY) {
      case At(i) =>
        LowerPrefix(line, i);
        LacksPrefix(ToLower(line), i, KEY);
        ValueTail(line, i);
        prefix, rest := line[..i], line[i + FirstOf(line[i..], {';', ':'})..];
      case Missing =>
        HasColon(line, mailto);
        var colon := FirstOf(line, {':'});
        LowerPrefix(line, colon);
        LacksPrefix(ToLower(line), colon, KEY);
        SeparatorLacksKey(line[..colon]);
        InsertIsRewrite(line, colon, partstat);
        prefix, rest := line[..colon] + ";", line[colon..];
    }
  }

  lemma HasColon(line: string, mailto: string)
    requires Contains(ToLower(line), mailto) && ':' in mailto
    ensures FirstOf(line, {':'}) < |line| && line[FirstOf(line, {':'})] == ':'
  {
    hide FirstOf, OccursAt, ToLower;
    var k: nat :| k <= |ToLower(line)| && OccursAt(ToLower(line), mailto, k);
    var i: nat :| i < |mailto| && mailto[i] == ':';
    OccursChar(ToLower(line), mailto, k, i);
    LowerColon(line, k + i);
    ColonFound(line, k + i);
  }

  lemma OccursChar(s: string, p: string, k: nat, i: nat)
    requires OccursAt(s, p, k) && i < |p|
    ensures k + i < |s| && s[k + i] == p[i]
  {
    assert s[k..k + |p|][i] == s[k + i];
  }

  lemma LowerColon(line: string, i: nat)
    requires i < |line| && ToLower(line)[i] == ':'
    ensures line[i] == ':'
  {
  }

  lemma {:induction false} ColonFound(line: string, i: nat)
    requires i < |line| && line[i] == ':'
    ensures FirstOf(line, {':'}) <= i && line[FirstOf(line, {':'})] == ':'
  {
    if line[0] != ':' {
      assert line[1..][i - 1] == ':';
      ColonFound(line[1..], i - 1);
    }
  }

  // ---- Whose line is answered ----------------------------------------------------------------

  const SCHEME := "mailto:"

  /** The calendar address of a line, in lower case. */
  function Address(line: string): string {
    match IndexOf(ToLower(line), SCHEME)
    case At(i) => ToLower(line)[i + |SCHEME|..]
    case Missing => ""
  }

  /** The line names one calendar user. */
  ghost predicate OneAddress(line: string) {
    IndexOf(ToLower(line), SCHEME).At? &&
    forall k: nat :: OccursAt(ToLower(line), SCHEME, k) ==> k == IndexOf(ToLower(line), SCHEME).i
  }

  lemma OccursSplit(s: string, p: string, q: string, k: nat)
    ensures OccursAt(s, p + q, k) <==> OccursAt(s, p, k) && HasPrefix(s[k + |p|..], q)
  {
    if OccursAt(s, p, k) && k + |p + q| <= |s| {
      assert s[k..k + |p + q|] == s[k..k + |p|] + s[k + |p|..][..|q|];
    }
    if OccursAt(s, p + q, k) {
      assert s[k..k + |p|] == s[k..k + |p + q|][..|p|] == p;
      assert s[k + |p|..][..|q|] == s[k..k + |p + q|][|p|..] == q;
    }
  }

  /** An attendee is answered for when the responder's address is the start of theirs. */
  lemma MatchesIff(line: string, email: string)
    requires IsAttendee(line) && OneAddress(line)
    ensures Matches(line, SCHEME + ToLower(email)) <==> HasPrefix(Address(line), ToLower(email))
  {
    hide IsAttendee, IndexOf, HasPrefix, ToLower;
    var low, e := ToLower(line), ToLower(email);
    var i := IndexOf(low, SCHEME).i;
    OccursSplit(low, SCHEME, e, i);
    if Matches(line, SCHEME + e) {
      var k: nat :| k <= |low| && OccursAt(low, SCHEME + e, k);
      OccursSplit(low, SCHEME, e, k);
    }
  }

  /** Only lines that name the responder are answered. */
  ghost predicate AnswersOnly(lines: seq<string>, email: string) {
    forall i :: 0 <= i < |lines| && Matches(lines[i], SCHEME + ToLower(email)) ==> Address(lines[i]) == ToLower(email)
  }

  /** The responder's address is not the start of another attendee's. */
  ghost predicate StartsNoOther(lines: seq<string>, email: string) {
    forall i :: 0 <= i < |lines| && IsAttendee(lines[i]) && HasPrefix(Address(lines[i]), ToLower(email)) ==>
      Address(lines[i]) == ToLower(email)
  }

  lemma AnswersOnlyIff(lines: seq<string>, email: string)
    requires forall i :: 0 <= i < |lines| && IsAttendee(lines[i]) ==> OneAddress(lines[i])
    ensures AnswersOnly(lines, email) <==> StartsNoOther(lines, email)
  {
    hide IsAttendee, OneAddress, HasPrefix, Address, ToLower, Contains;
    forall i | 0 <= i < |lines| && IsAttendee(lines[i])
      ensures Matches(lines[i], SCHEME + ToLower(email)) <==> HasPrefix(Address(lines[i]), ToLower(email))
    {
      MatchesIff(lines[i], email);
    }
  }

  /** It fails: an answer is written on the line of an attendee whose address goes on after the
      responder's, as `bob@x.com` goes on after `bob@x.co`. */
  lemma LongerAddressAnswered(email: string, more: string, partstat: string)
    requires '=' !in email + more
    ensures var line := "ATTENDEE:mailto:" + email + more;
      RewriteLine(line, SCHEME + ToLower(email), partstat) ==
      "ATTENDEE;PARTSTAT=" + partstat + (":mailto:" + email + more)
  {
    hide RewriteAttendeeLine, Matches, ToLower;
    var tail := ":mailto:" + email + more;
    assert "ATTENDEE:mailto:" + email + more == "ATTENDEE" + tail;
    LongerMatches(email, more);
    KeyInserted(tail, partstat);
  }

  lemma KeyInserted(tail: string, partstat: string)
    requires '=' !in tail && tail != "" && tail[0] == ':'
    ensures RewriteAttendeeLine("ATTENDEE" + tail, partstat) == "ATTENDEE;PARTSTAT=" + partstat + tail
  {
    hide IndexOf, FirstOf, ToLower;
    var line := "ATTENDEE" + tail;
    NoKey(line);
    FirstOfIs(line, {':'}, 8);
    assert line[..8] == "ATTENDEE" && line[8..] == tail;
    assert "ATTENDEE" + ";PARTSTAT=" == "ATTENDEE;PARTSTAT=";
  }

  lemma NoKey(line: string)
    requires '=' !in line
    ensures IndexOf(ToLower(line), KEY).Missing?
  {
    hide IndexOf;
    var low := ToLower(line);
    assert '=' !in low;
    forall k: nat ensures !OccursAt(low, KEY, k) {
      if k + |KEY| <= |low| {
        assert low[k..k + |KEY|][8] == low[k + 8];
      }
    }
  }

  lemma LongerMatches(email: string, more: string)
    ensures Matches("ATTENDEE:mailto:" + email + more, SCHEME + ToLower(email))
  {
    hide ToUpper, ToLower;
    var line := "ATTENDEE:mailto:" + email + more;
    assert ToUpper(line)[..8] == "ATTENDEE";
    LowerConcat("ATTENDEE:mailto:" + email, more);
    LowerConcat("ATTENDEE:mailto:", email);
    var low := ToLower(line);
    assert ToLower("ATTENDEE:mailto:") == "attendee:" + SCHEME;
    assert low == "attendee:" + (SCHEME + ToLower(email)) + ToLower(more);
    assert OccursAt(low, SCHEME + ToLower(email), 9);
  }
}
