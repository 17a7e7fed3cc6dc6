/** The deterministic metadata serialisation of internal/audit/audit.go.

    Go's `range` over a map visits the keys in an unspecified order; the method below picks
    them with `:|`, so its contract holds for every visiting order.  A metadata value is kept
    as the text `json.Marshal` gives for it, and `quote` stands for `json.Marshal` of a key.
  */
module CanonicalJson {

  type Metadata = map<string, string>

  /** `sort.Strings` order: bytewise lexicographic. */
  predicate Less(a: string, b: string) {
    b != [] && (a == [] || a[0] < b[0] || (a[0] == b[0] && Less(a[1..], b[1..])))
  }

  /** `a` and `b` agree up to position `i`, where `a` has the smaller character. */
  predicate SmallerAt(a: string, b: string, i: nat) {
    i < |a| && i < |b| && a[..i] == b[..i] && a[i] < b[i]
  }

  lemma SmallerCons(a: string, b: string, i: nat)
    requires a != [] && b != []
    ensures SmallerAt(a, b, i + 1) <==> a[0] == b[0] && SmallerAt(a[1..], b[1..], i)
  {
    var x, y := a[1..], b[1..];
    if i < |x| && i < |y| {
      assert a[..i + 1] == [a[0]] + x[..i] && b[..i + 1] == [b[0]] + y[..i];
      assert a[..i + 1][1..] == x[..i] && b[..i + 1][1..] == y[..i];
    }
  }

  lemma PrefixCons(a: string, b: string)
    requires a != [] && b != []
    ensures a < b <==> a[0] == b[0] && a[1..] < b[1..]
  {
    assert a == [a[0]] + a[1..] && b == [b[0]] + b[1..];
  }

  /** Lexicographic order: a proper prefix, or the smaller character at the first difference. */
  lemma {:induction false} LessIff(a: string, b: string)
    ensures Less(a, b) <==> a < b || exists i :: SmallerAt(a, b, i)
  {
    if a != [] && b != [] {
      LessIff(a[1..], b[1..]);
      PrefixCons(a, b);
      assert SmallerAt(a, b, 0) <==> a[0] < b[0];
      hide SmallerAt;
      if i: nat :| SmallerAt(a[1..], b[1..], i) {
        SmallerCons(a, b, i);
      }
      if i: nat :| SmallerAt(a, b, i) {
        if i > 0 {
          SmallerCons(a, b, i - 1);
        }
      }
    } else {
      assert forall i :: !SmallerAt(a, b, i);
    }
  }

  lemma {:induction false} LessTotal(a: string, b: string)
    ensures !Less(a, a)
    ensures a == b || Less(a, b) || Less(b, a)
  {
    if a != [] && b != [] {
      LessTotal(a[1..], b[1..]);
      if a[0] == b[0] && a[1..] == b[1..] {
        assert a == [a[0]] + a[1..] == b;
      }
    } else if a != [] {
      LessTotal(a[1..], []);
    }
  }

  lemma {:induction false} LessTransitive(a: string, b: string, c: string)
    requires Less(a, b) && Less(b, c)
    ensures Less(a, c)
  {
    if a != [] && a[0] == b[0] == c[0] {
      LessTransitive(a[1..], b[1..], c[1..]);
    }
  }

  ghost predicate StrictlySorted(keys: seq<string>) {
    forall i, j :: 0 <= i < j < |keys| ==> Less(keys[i], keys[j])
  }

  ghost function Elements(keys: seq<string>): set<string> {
    set k | k in keys
  }

  /** A set of strings has one ascending listing. */
  lemma {:induction false} SortedUnique(a: seq<string>, b: seq<string>)
    requires StrictlySorted(a) && StrictlySorted(b) && Elements(a) == Elements(b)
    ensures a == b
  {
    EmptyElements(a);
    EmptyElements(b);
    if a != [] {
      SameHead(a, b);
      TailElements(a);
      TailElements(b);
      SortedUnique(a[1..], b[1..]);
    }
  }

  lemma EmptyElements(a: seq<string>)
    ensures a == [] <==> Elements(a) == {}
  {
    if a != [] { assert a[0] in Elements(a); }
  }

  lemma SameHead(a: seq<string>, b: seq<string>)
    requires a != [] && b != []
    requires StrictlySorted(a) && StrictlySorted(b) && Elements(a) == Elements(b)
    ensures a[0] == b[0]
  {
    assert a[0] in Elements(b) && b[0] in Elements(a);
    if a[0] != b[0] {
      LessTransitive(a[0], b[0], a[0]);
      LessTotal(a[0], a[0]);
    }
  }

  lemma TailElements(a: seq<string>)
    requires a != [] && StrictlySorted(a)
    ensures StrictlySorted(a[1..]) && Elements(a[1..]) == Elements(a) - {a[0]}
  {
    LessTotal(a[0], a[0]);
    assert a == [a[0]] + a[1..];
  }

  /** Insertion into an ascending listing; `sort.Strings` built from it. */
  function Insert(k: string, keys: seq<string>): (r: seq<string>)
    requires StrictlySorted(keys) && k !in keys
    ensures StrictlySorted(r) && Elements(r) == Elements(keys) + {k}
  {
    if keys == [] then [k]
    else if Less(k, keys[0]) then
      assert forall j :: 0 <= j < |keys| ==> Less(k, keys[j]) by {
        forall j | 0 < j < |keys| ensures Less(k, keys[j]) { LessTransitive(k, keys[0], keys[j]); }
      }
      [k] + keys
    else
      LessTotal(k, keys[0]);
      TailElements(keys);
      var rest := Insert(k, keys[1..]);
      assert forall j :: 0 <= j < |rest| ==> Less(keys[0], rest[j]) by {
        forall j | 0 <= j < |rest| ensures Less(keys[0], rest[j]) { assert rest[j] in Elements(rest); }
      }
      [keys[0]] + rest
  }

  ghost function SortedKeys(keys: set<string>): (r: seq<string>)
    ensures StrictlySorted(r) && Elements(r) == keys
  {
    if keys == {} then [] else
      var k :| k in keys;
      Insert(k, SortedKeys(keys - {k}))
  }

  function Member(m: Metadata, quote: string -> string, k: string): string
    requires k in m
  {
    quote(k) + ":" + m[k]
  }

  /** The opened object: a brace, then the members of `keys` separated by commas. */
  function Opened(m: Metadata, quote: string -> string, keys: seq<string>): string
    requires forall k :: k in keys ==> k in m
  {
    if keys == [] then "{" else
      var n := |keys| - 1;
      var text := Opened(m, quote, keys[..n]);
      (if n > 0 then text + "," else text) + Member(m, quote, keys[n])
  }

  ghost function CanonicalText(m: Metadata, quote: string -> string): string {
    var keys := SortedKeys(m.Keys);
    assert forall k :: k in keys ==> k in Elements(keys);
    Opened(m, quote, keys) + "}"
  }

  /** `sort.Strings` on a slice without duplicates. */
  method SortStrings(keys: seq<string>) returns (sorted: seq<string>)
    requires forall i, j :: 0 <= i < j < |keys| ==> keys[i] != keys[j]
    ensures StrictlySorted(sorted) && Elements(sorted) == Elements(keys)
  {
    sorted := [];
    for i := 0 to |keys|
      invariant StrictlySorted(sorted) && Elements(sorted) == Elements(keys[..i])
    {
      assert keys[i] !in Elements(sorted);
      assert keys[..i + 1] == keys[..i] + [keys[i]];
      sorted := Insert(keys[i], sorted);
    }
    assert keys[..|keys|] == keys;
  }

  /** The `range` loop over the map: every key once, in some order. */
  method CollectKeys(m: Metadata) returns (keys: seq<string>)
    ensures forall i, j :: 0 <= i < j < |keys| ==> keys[i] != keys[j]
    ensures Elements(keys) == m.Keys
  {
    keys := [];
    var pending := m.Keys;
    while pending != {}
      invariant forall i, j :: 0 <= i < j < |keys| ==> keys[i] != keys[j]
      invariant Elements(keys) == m.Keys - pending && pending <= m.Keys
      decreases pending
    {
      var k :| k in pending;
      assert k !in Elements(keys);
      assert Elements(keys + [k]) == Elements(keys) + {k};
      keys := keys + [k];
      pending := pending - {k};
    }
  }

  method Render(m: Metadata, quote: string -> string, keys: seq<string>) returns (text: string)
    requires forall k :: k in keys ==> k in m
    ensures text == Opened(m, quote, keys) + "}"
  {
    text := "{";
    for i := 0 to |keys|
      invariant text == Opened(m, quote, keys[..i])
    {
      assert keys[..i + 1][..i] == keys[..i];
      if i > 0 {
        text := text + ",";
      }
      text := text + Member(m, quote, keys[i]);
    }
    assert keys[..|keys|] == keys;
    text := text + "}";
  }

  /** `canonicalJSON`: whatever order the map yields its keys in, the text is the same. */
  method CanonicalJSON(m: Metadata, quote: string -> string) returns (text: string)
    ensures text == CanonicalText(m, quote)
  {
    EmptyElements(SortedKeys(m.Keys));
    if |m| == 0 {
      assert m.Keys == {};
      return "{}";
    }
    var keys := CollectKeys(m);
    keys := SortStrings(keys);
    SortedUnique(keys, SortedKeys(m.Keys));
    assert forall k :: k in keys ==> k in Elements(keys);
    text := Render(m, quote, keys);
  }

  // ---- What the text holds --------------------------------------------------------------------

  function Commas(parts: seq<string>): string {
    if parts == [] then "" else if |parts| == 1 then parts[0] else parts[0] + "," + Commas(parts[1..])
  }

  /** Each key quoted, a colon and its value. */
  function Pairs(m: Metadata, quote: string -> string, keys: seq<string>): (r: seq<string>)
    requires forall k :: k in keys ==> k in m
    ensures |r| == |keys| && forall i :: 0 <= i < |r| ==> r[i] == quote(keys[i]) + ":" + m[keys[i]]
  {
    seq(|keys|, i requires 0 <= i < |keys| => quote(keys[i]) + ":" + m[keys[i]])
  }

  lemma {:induction false} CommasSnoc(parts: seq<string>, last: string)
    ensures Commas(parts + [last]) == if parts == [] then last else Commas(parts) + "," + last
  {
    if parts == [] {
      assert parts + [last] == [last];
    } else {
      assert (parts + [last])[1..] == parts[1..] + [last];
      CommasSnoc(parts[1..], last);
      if |parts| > 1 {
        assert parts[0] + "," + (Commas(parts[1..]) + "," + last) == parts[0] + "," + Commas(parts[1..]) + "," + last;
      }
    }
  }

  lemma {:induction false} OpenedIs(m: Metadata, quote: string -> string, keys: seq<string>)
    requires forall k :: k in keys ==> k in m
    ensures Opened(m, quote, keys) == "{" + Commas(Pairs(m, quote, keys))
  {
    hide Commas;
    if keys == [] {
      CommasNothing();
      assert "{" + "" == "{";
    } else {
      var n := |keys| - 1;
      OpenedIs(m, quote, keys[..n]);
      var front, last := Pairs(m, quote, keys[..n]), quote(keys[n]) + ":" + m[keys[n]];
      assert Pairs(m, quote, keys) == front + [last];
      CommasSnoc(front, last);
      if n > 0 {
        assert "{" + Commas(front) + "," + last == "{" + (Commas(front) + "," + last);
      } else {
        CommasNothing();
      }
    }
  }

  lemma CommasNothing()
    ensures Commas([]) == ""
  {
  }

  /** The text of metadata: its pairs in ascending order of the keys, between braces. */
  lemma CanonicalTextIs(m: Metadata, quote: string -> string, keys: seq<string>)
    requires StrictlySorted(keys) && Elements(keys) == m.Keys
    ensures forall k :: k in keys ==> k in Elements(keys)
    ensures CanonicalText(m, quote) == "{" + Commas(Pairs(m, quote, keys)) + "}"
  {
    hide Commas, Opened, SortedKeys;
    SortedUnique(keys, SortedKeys(m.Keys));
    OpenedIs(m, quote, keys);
  }

  lemma SingleText(k: string, v: string, quote: string -> string)
    ensures CanonicalText(map[k := v], quote) == "{" + quote(k) + ":" + v + "}"
  {
    hide CanonicalText;
    LessTotal(k, k);
    assert Elements([k]) == {k} == map[k := v].Keys;
    CanonicalTextIs(map[k := v], quote, [k]);
    assert "{" + (quote(k) + ":" + v) + "}" == "{" + quote(k) + ":" + v + "}";
  }

  // ---- It determines the metadata -------------------------------------------------------------

  /** Quoted keys end where the colon after them starts. */
  ghost predicate QuotesApart(quote: string -> string) {
    forall k, l, x, y :: quote(k) + ":" + x == quote(l) + ":" + y ==> k == l
  }

  /** What follows a value. */
  predicate Closes(x: string) {
    x != "" && x[0] in {',', '}'}
  }

  /** Value texts end where what follows them starts, as those of `json.Marshal` do. */
  ghost predicate SelfDelimiting(isValue: string -> bool) {
    forall v, w, x, y :: isValue(v) && isValue(w) && Closes(x) && Closes(y) && v + x == w + y ==> v == w
  }

  ghost predicate HoldsValues(m: Metadata, isValue: string -> bool) {
    forall k :: k in m ==> isValue(m[k])
  }

  /** What follows the value of the first key. */
  function After(m: Metadata, quote: string -> string, keys: seq<string>): string
    requires keys != [] && forall k :: k in keys ==> k in m
  {
    if |keys| == 1 then "}" else "," + (Commas(Pairs(m, quote, keys[1..])) + "}")
  }

  lemma FirstPair(m: Metadata, quote: string -> string, keys: seq<string>)
    requires keys != [] && forall k :: k in keys ==> k in m
    ensures Commas(Pairs(m, quote, keys)) + "}" == quote(keys[0]) + ":" + (m[keys[0]] + After(m, quote, keys))
  {
    var pairs := Pairs(m, quote, keys);
    assert |keys| > 1 ==> pairs[1..] == Pairs(m, quote, keys[1..]);
  }

  lemma OnlyBrace(m: Metadata, quote: string -> string, keys: seq<string>)
    requires forall k :: k in keys ==> k in m
    ensures keys == [] <==> |Commas(Pairs(m, quote, keys)) + "}"| == 1
  {
    if keys != [] { FirstPair(m, quote, keys); }
  }

  lemma Drop(a: string, x: string, y: string)
    requires a + x == a + y
    ensures x == y
  {
    assert (a + x)[|a|..] == x && (a + y)[|a|..] == y;
  }

  lemma {:induction false} PairsDetermine(m: Metadata, a: seq<string>, n: Metadata, b: seq<string>,
      quote: string -> string, isValue: string -> bool)
    requires (forall k :: k in a ==> k in m) && (forall k :: k in b ==> k in n)
    requires QuotesApart(quote) && SelfDelimiting(isValue) && HoldsValues(m, isValue) && HoldsValues(n, isValue)
    requires Commas(Pairs(m, quote, a)) + "}" == Commas(Pairs(n, quote, b)) + "}"
    ensures a == b && forall k :: k in a ==> m[k] == n[k]
  {
    hide Commas, QuotesApart, SelfDelimiting, HoldsValues, Pairs, After;
    OnlyBrace(m, quote, a);
    OnlyBrace(n, quote, b);
    if a != [] && b != [] {
      FirstPair(m, quote, a);
      FirstPair(n, quote, b);
      FirstDetermined(m, a, n, b, quote, isValue);
      if |a| > 1 && |b| > 1 {
        PairsDetermine(m, a[1..], n, b[1..], quote, isValue);
      }
      assert a == [a[0]] + a[1..] && b == [b[0]] + b[1..];
    }
  }

  lemma FirstDetermined(m: Metadata, a: seq<string>, n: Metadata, b: seq<string>,
      quote: string -> string, isValue: string -> bool)
    requires a != [] && b != [] && (forall k :: k in a ==> k in m) && (forall k :: k in b ==> k in n)
    requires QuotesApart(quote) && SelfDelimiting(isValue) && HoldsValues(m, isValue) && HoldsValues(n, isValue)
    requires quote(a[0]) + ":" + (m[a[0]] + After(m, quote, a)) == quote(b[0]) + ":" + (n[b[0]] + After(n, quote, b))
    ensures a[0] == b[0] && m[a[0]] == n[b[0]] && (|a| == 1 <==> |b| == 1)
    ensures |a| > 1 && |b| > 1 ==> Commas(Pairs(m, quote, a[1..])) + "}" == Commas(Pairs(n, quote, b[1..])) + "}"
  {
    hide Commas, Pairs;
    Drop(quote(a[0]) + ":", m[a[0]] + After(m, quote, a), n[b[0]] + After(n, quote, b));
    var x, y := After(m, quote, a), After(n, quote, b);
    assert x[0] == (if |a| == 1 then '}' else ',') && y[0] == (if |b| == 1 then '}' else ',');
    assert Closes(x) && Closes(y);
    Drop(m[a[0]], x, y);
    if |a| > 1 && |b| > 1 {
      Drop(",", Commas(Pairs(m, quote, a[1..])) + "}", Commas(Pairs(n, quote, b[1..])) + "}");
    }
  }

  /** Metadata with the same text is the same metadata. */
  lemma TextDeterminesMetadata(m: Metadata, n: Metadata, quote: string -> string, isValue: string -> bool)
    requires QuotesApart(quote) && SelfDelimiting(isValue) && HoldsValues(m, isValue) && HoldsValues(n, isValue)
    requires CanonicalText(m, quote) == CanonicalText(n, quote)
    ensures m == n
  {
    hide CanonicalText, SortedKeys, Commas, QuotesApart, SelfDelimiting;
    var a, b := SortedKeys(m.Keys), SortedKeys(n.Keys);
    CanonicalTextIs(m, quote, a);
    CanonicalTextIs(n, quote, b);
    var s, t := Commas(Pairs(m, quote, a)), Commas(Pairs(n, quote, b));
    assert "{" + s + "}" == "{" + (s + "}") && "{" + t + "}" == "{" + (t + "}");
    Drop("{", s + "}", t + "}");
    PairsDetermine(m, a, n, b, quote, isValue);
    assert forall k :: k in m.Keys ==> k in Elements(a);
  }
}
