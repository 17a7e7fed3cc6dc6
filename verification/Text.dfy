/** The parts of Go's `strings` package the bridges use, on ASCII text. */
module Text {

  datatype Index = Missing | At(i: nat)

  predicate HasPrefix(s: string, p: string) {
    |p| <= |s| && s[..|p|] == p
  }

  predicate HasSuffix(s: string, p: string) {
    |p| <= |s| && s[|s| - |p|..] == p
  }

  /** `p` occurs in `s` at position `i`. */
  predicate OccursAt(s: string, p: string, i: nat) {
    i + |p| <= |s| && s[i..i + |p|] == p
  }

  predicate Contains(s: string, p: string) {
    exists i: nat :: i <= |s| && OccursAt(s, p, i)
  }

  /** `strings.Index`: the first occurrence. */
  function IndexOf(s: string, p: string): (r: Index)
    ensures r.At? ==> OccursAt(s, p, r.i) && forall k: nat :: k < r.i ==> !OccursAt(s, p, k)
    ensures r.Missing? ==> forall k: nat :: !OccursAt(s, p, k)
  {
    IndexFrom(s, p, 0)
  }

  function IndexFrom(s: string, p: string, from: nat): (r: Index)
    requires from <= |s| + 1
    ensures r.At? ==> from <= r.i && OccursAt(s, p, r.i) && forall k: nat :: from <= k < r.i ==> !OccursAt(s, p, k)
    ensures r.Missing? ==> forall k: nat :: from <= k ==> !OccursAt(s, p, k)
    decreases |s| + 1 - from
  {
    if from > |s| then Missing else if OccursAt(s, p, from) then At(from) else IndexFrom(s, p, from + 1)
  }

  /** The first occurrence is where it is found. */
  lemma IndexOfIs(s: string, p: string, i: nat)
    requires OccursAt(s, p, i) && forall k: nat :: k < i ==> !OccursAt(s, p, k)
    ensures IndexOf(s, p) == At(i)
  {
  }

  /** `p` occurs nowhere in `s`. */
  ghost predicate Lacks(s: string, p: string) {
    forall k: nat :: !OccursAt(s, p, k)
  }

  lemma LacksPrefix(s: string, i: nat, p: string)
    requires i <= |s| && forall k: nat :: k < i ==> !OccursAt(s, p, k)
    requires p != ""
    ensures Lacks(s[..i], p)
  {
    forall k: nat ensures !OccursAt(s[..i], p, k) {
      if k + |p| <= i {
        assert s[..i][k..k + |p|] == s[k..k + |p|];
        assert !OccursAt(s, p, k);
      }
    }
  }

  lemma LacksSnoc(s: string, c: char, p: string)
    requires Lacks(s, p) && p != "" && p[|p| - 1] != c
    ensures Lacks(s + [c], p)
  {
    var t := s + [c];
    forall k: nat ensures !OccursAt(t, p, k) {
      if k + |p| <= |s| {
        assert t[k..k + |p|] == s[k..k + |p|];
        assert !OccursAt(s, p, k);
      } else if k + |p| == |t| {
        assert t[k..k + |p|][|p| - 1] == c;
      }
    }
  }

  /** A marker whose first character does not recur in it, put after text without one, is the
      first in the text. */
  lemma MarkerFirst(a: string, p: string, b: string)
    requires Lacks(a, p) && p != "" && p[0] !in p[1..]
    ensures IndexOf(a + p + b, p) == At(|a|)
  {
    var t := a + p + b;
    assert t[|a|..|a| + |p|] == p;
    forall k: nat | k < |a| ensures !OccursAt(t, p, k) {
      if k + |p| <= |a| {
        assert t[k..k + |p|] == a[k..k + |p|];
        assert !OccursAt(a, p, k);
      } else if k + |p| <= |t| {
        var o := |a| - k;
        assert t[k..k + |p|][o] == t[|a|] == p[0];
        assert p[o] == p[1..][o - 1];
      }
    }
    IndexOfIs(t, p, |a|);
  }

  /** The first position holding one of the characters, or the length. */
  function FirstOf(s: string, chars: set<char>): (i: nat)
    ensures i <= |s| && (i < |s| ==> s[i] in chars)
    ensures forall k :: 0 <= k < i ==> s[k] !in chars
  {
    if s == [] || s[0] in chars then 0 else 1 + FirstOf(s[1..], chars)
  }

  lemma FirstOfIs(s: string, chars: set<char>, i: nat)
    requires i <= |s| && (i < |s| ==> s[i] in chars) && forall k :: 0 <= k < i ==> s[k] !in chars
    ensures FirstOf(s, chars) == i
  {
  }

  lemma FirstOfConcat(a: string, b: string, chars: set<char>)
    requires forall k :: 0 <= k < |a| ==> a[k] !in chars
    ensures FirstOf(a + b, chars) == |a| + FirstOf(b, chars)
  {
    var n := FirstOf(b, chars);
    assert forall k :: |a| <= k < |a| + n ==> (a + b)[k] == b[k - |a|];
    FirstOfIs(a + b, chars, |a| + n);
  }

  // ---- Splitting ------------------------------------------------------------------------

  /** `strings.Split` on a single character. */
  function Split(s: string, c: char): (parts: seq<string>)
    ensures parts != [] && forall p :: p in parts ==> c !in p
  {
    if s == [] then [""]
    else
      var rest := Split(s[1..], c);
      if s[0] == c then [""] + rest else [[s[0]] + rest[0]] + rest[1..]
  }

  lemma {:induction false} SplitLine(line: string, rest: string, c: char)
    requires c !in line
    ensures Split(line + [c] + rest, c) == [line] + Split(rest, c)
  {
    if line == [] {
      assert line + [c] + rest == [c] + rest;
      assert ([c] + rest)[1..] == rest;
    } else {
      SplitLine(line[1..], rest, c);
      assert (line + [c] + rest)[1..] == line[1..] + [c] + rest;
      assert [line[0]] + line[1..] == line;
    }
  }

  lemma {:induction false} SplitNone(s: string, c: char)
    requires c !in s
    ensures Split(s, c) == [s]
  {
    if s != [] {
      SplitNone(s[1..], c);
      assert [s[0]] + s[1..] == s;
    }
  }

  // ---- Content lines --------------------------------------------------------------------

  /** The line is `name`, then parameters that each start with a semicolon, then a colon and `value`. */
  predicate Spells(line: string, name: string, params: string, value: string) {
    line == name + params + ":" + value && ':' !in name && ';' !in name && ':' !in params &&
    (params == "" || params[0] == ';')
  }

  lemma SpellsAt(line: string, name: string, params: string, value: string)
    requires Spells(line, name, params, value)
    ensures var colon := |name| + |params|;
      && FirstOf(line, {':'}) == colon < |line| && FirstOf(line[..colon], {';'}) == |name|
      && line[..|name|] == name && line[colon + 1..] == value
  {
    hide FirstOf;
    var front := name + params;
    var colon := |front|;
    assert line[..colon] == front && line[colon] == ':';
    FirstOfIs(line, {':'}, colon);
    FirstOfIs(front, {';'}, |name|);
  }

  /** Every line with a colon is of that shape, in one way. */
  lemma EveryLineSpells(line: string) returns (name: string, params: string, value: string)
    requires ':' in line
    ensures Spells(line, name, params, value)
  {
    hide FirstOf;
    NoneBefore(line, {':'});
    var colon := FirstOf(line, {':'});
    var front := line[..colon];
    NoneBefore(front, {';'});
    var semi := FirstOf(front, {';'});
    name, params, value := front[..semi], front[semi..], line[colon + 1..];
    SpelledFrom(line, colon, semi);
  }

  lemma SpelledFrom(line: string, colon: nat, semi: nat)
    requires semi <= colon < |line| && line[colon] == ':' && (semi < colon ==> line[semi] == ';')
    requires forall k :: 0 <= k < colon ==> line[k] != ':'
    requires forall k :: 0 <= k < semi ==> line[k] != ';'
    ensures Spells(line, line[..colon][..semi], line[..colon][semi..], line[colon + 1..])
  {
    var front := line[..colon];
    assert front == front[..semi] + front[semi..] && line == front + ":" + line[colon + 1..];
  }

  lemma {:induction false} NoneBefore(s: string, chars: set<char>)
    ensures var i := FirstOf(s, chars);
      i <= |s| && (i < |s| ==> s[i] in chars) && (i == |s| ==> forall c :: c in s ==> c !in chars) &&
      forall k :: 0 <= k < i ==> s[k] !in chars
  {
    if s != [] && s[0] !in chars {
      NoneBefore(s[1..], chars);
      assert forall k :: 0 < k < |s| ==> s[k] == s[1..][k - 1];
    }
  }

  // ---- Case -----------------------------------------------------------------------------

  function LowerChar(c: char): char {
    if 'A' <= c <= 'Z' then (c as int + 32) as char else c
  }

  function UpperChar(c: char): char {
    if 'a' <= c <= 'z' then (c as int - 32) as char else c
  }

  function ToLower(s: string): (r: string)
    ensures |r| == |s| && forall i :: 0 <= i < |s| ==> r[i] == LowerChar(s[i])
  {
    seq(|s|, i requires 0 <= i < |s| => LowerChar(s[i]))
  }

  function ToUpper(s: string): (r: string)
    ensures |r| == |s| && forall i :: 0 <= i < |s| ==> r[i] == UpperChar(s[i])
  {
    seq(|s|, i requires 0 <= i < |s| => UpperChar(s[i]))
  }

  predicate EqualFold(a: string, b: string) {
    ToLower(a) == ToLower(b)
  }

  lemma LowerConcat(a: string, b: string)
    ensures ToLower(a + b) == ToLower(a) + ToLower(b)
  {
  }

  /** Text found in another, both in lower case, stands in it in some letter case. */
  lemma ContainsIff(t: string, n: string)
    ensures Contains(ToLower(t), ToLower(n)) <==> exists a, b :: EqualFold(t, a + n + b)
  {
    hide ToLower;
    var low := ToLower(t);
    if Contains(low, ToLower(n)) {
      var i: nat :| i <= |low| && OccursAt(low, ToLower(n), i);
      FoldAround(t, n, i);
    }
    if a, b :| EqualFold(t, a + n + b) {
      LowerConcat(a + n, b);
      LowerConcat(a, n);
      assert (ToLower(a) + ToLower(n) + ToLower(b))[|a|..|a| + |n|] == ToLower(n);
      assert OccursAt(low, ToLower(n), |a|);
    }
  }

  lemma FoldAround(t: string, n: string, i: nat)
    requires OccursAt(ToLower(t), ToLower(n), i)
    ensures i + |n| <= |t| && EqualFold(t, t[..i] + n + t[i + |n|..])
  {
    hide ToLower;
    var k := i + |n|;
    LowerConcat(t[..i] + n, t[k..]);
    LowerConcat(t[..i], n);
    LowerSlices(t, i);
    LowerSlices(t, k);
    ThreeParts(ToLower(t), ToLower(n), i);
  }

  lemma LowerSlices(t: string, i: nat)
    requires i <= |t|
    ensures ToLower(t[..i]) == ToLower(t)[..i] && ToLower(t[i..]) == ToLower(t)[i..]
  {
  }

  lemma ThreeParts(s: string, p: string, i: nat)
    requires OccursAt(s, p, i)
    ensures s == s[..i] + p + s[i + |p|..]
  {
    assert s[i..i + |p|] == p;
  }

  // ---- Trimming -------------------------------------------------------------------------

  predicate IsSpace(c: char) {
    c == ' ' || '\t' <= c <= '\r'
  }

  function TrimLeft(s: string): (r: string)
    ensures r == [] || !IsSpace(r[0])
    ensures s == [] || !IsSpace(s[0]) ==> r == s
  {
    if s != [] && IsSpace(s[0]) then TrimLeft(s[1..]) else s
  }

  function TrimRight(s: string): (r: string)
    ensures r <= s && (r == [] || !IsSpace(r[|r| - 1]))
    ensures s == [] || !IsSpace(s[|s| - 1]) ==> r == s
  {
    if s != [] && IsSpace(s[|s| - 1]) then TrimRight(s[..|s| - 1]) else s
  }

  /** `strings.TrimSpace`. */
  function TrimSpace(s: string): (r: string)
    ensures r == [] || (!IsSpace(r[0]) && !IsSpace(r[|r| - 1]))
    ensures s == [] || (!IsSpace(s[0]) && !IsSpace(s[|s| - 1])) ==> r == s
  {
    var l := TrimLeft(s);
    var r := TrimRight(l);
    assert r != [] ==> r[0] == l[0];
    r
  }

  predicate AllSpace(s: string) {
    forall i :: 0 <= i < |s| ==> IsSpace(s[i])
  }

  /** Exactly the whitespace around a text is trimmed. */
  lemma TrimSpaceIs(a: string, h: string, b: string)
    requires AllSpace(a) && AllSpace(b) && (h == "" || (!IsSpace(h[0]) && !IsSpace(h[|h| - 1])))
    ensures TrimSpace(a + h + b) == h
  {
    hide TrimLeft, TrimRight;
    TrimLeftIs(a, h + b);
    assert a + h + b == a + (h + b);
    TrimRightIs(h, b);
    if h == "" {
      assert h + b == b;
      TrimRightIs("", TrimLeft(b));
      assert "" + TrimLeft(b) == TrimLeft(b);
    }
  }

  lemma {:induction false} TrimLeftIs(a: string, rest: string)
    requires AllSpace(a)
    ensures TrimLeft(a + rest) == TrimLeft(rest) && (AllSpace(rest) ==> AllSpace(TrimLeft(rest)))
    decreases |a| + |rest|
  {
    if a != "" {
      assert (a + rest)[1..] == a[1..] + rest;
      TrimLeftIs(a[1..], rest);
    } else {
      assert a + rest == rest;
      if rest != "" && IsSpace(rest[0]) {
        TrimLeftIs("", rest[1..]);
      }
    }
  }

  lemma {:induction false} TrimRightIs(h: string, b: string)
    requires AllSpace(b)
    ensures TrimRight(h + b) == TrimRight(h)
    decreases |b|
  {
    if b == "" {
      assert h + b == h;
    } else {
      assert (h + b)[..|h + b| - 1] == h + b[..|b| - 1];
      TrimRightIs(h, b[..|b| - 1]);
    }
  }

  predicate EndsWithCR(s: string) {
    s != [] && s[|s| - 1] == '\r'
  }

  /** `strings.TrimRight(s, "\r")`. */
  function TrimCR(s: string): (r: string)
    ensures r <= s && !EndsWithCR(r)
    ensures !EndsWithCR(s) ==> r == s
  {
    if EndsWithCR(s) then TrimCR(s[..|s| - 1]) else s
  }
}
