/** The TTLV wire format of internal/cmk/kmip.go (section 9.1 of the OASIS KMIP Specification):
    a 3-byte tag, a type byte, a 4-byte big-endian length, and the value padded to 8 bytes.
  */
module Ttlv {

  type byte = x: int | 0 <= x < 256
  type Bytes = seq<byte>

  const STRUCTURE: byte := 1
  const INTEGER: byte := 2
  const ENUMERATION: byte := 5
  const TEXT_STRING: byte := 7
  const BYTE_STRING: byte := 8

  const TAG_LIMIT: nat := 0x100_0000
  const LENGTH_LIMIT: nat := 0x1_0000_0000

  /** `paddedLen`: the least multiple of 8 that is no smaller. */
  function PaddedLen(n: nat): (r: nat)
    ensures r % 8 == 0 && n <= r < n + 8
  {
    if n % 8 == 0 then n else n + (8 - n % 8)
  }

  lemma PaddedLenLeast(n: nat, m: nat)
    requires n <= m && m % 8 == 0
    ensures PaddedLen(n) <= m
    ensures PaddedLen(n + 8) == PaddedLen(n) + 8
  {
  }

  /** The low 24 bits, big-endian. */
  function Tag24(n: nat): (b: Bytes)
    ensures |b| == 3
  {
    [n / 0x1_0000 % 0x100, n / 0x100 % 0x100, n % 0x100]
  }

  /** The low 32 bits, big-endian. */
  function Word32(n: nat): (b: Bytes)
    ensures |b| == 4
  {
    [n / 0x100_0000 % 0x100, n / 0x1_0000 % 0x100, n / 0x100 % 0x100, n % 0x100]
  }

  function ReadTag24(b: Bytes): nat
    requires |b| == 3
  {
    b[0] as int * 0x1_0000 + b[1] as int * 0x100 + b[2] as int
  }

  function ReadWord32(b: Bytes): nat
    requires |b| == 4
  {
    b[0] as int * 0x100_0000 + b[1] as int * 0x1_0000 + b[2] as int * 0x100 + b[3] as int
  }

  lemma WordRoundTrip(n: nat)
    ensures n < LENGTH_LIMIT ==> ReadWord32(Word32(n)) == n
    ensures n < TAG_LIMIT ==> ReadTag24(Tag24(n)) == n
  {
    assert n / 0x1_0000 == n / 0x100 / 0x100;
    assert n / 0x100_0000 == n / 0x1_0000 / 0x100;
  }

  // ---- Encoding -------------------------------------------------------------------------

  function Zeros(n: nat): (z: Bytes)
    ensures |z| == n
  {
    seq(n, _ => 0)
  }

  function Header(tag: nat, typ: byte, length: nat): (h: Bytes)
    ensures |h| == 8
  {
    Tag24(tag) + [typ] + Word32(length)
  }

  function Encode(tag: nat, typ: byte, val: Bytes): (b: Bytes)
    ensures |b| == 8 + PaddedLen(|val|)
  {
    Header(tag, typ, |val|) + val + Zeros(PaddedLen(|val|) - |val|)
  }

  lemma HeaderIs(tag: nat, typ: byte, length: nat)
    ensures Header(tag, typ, length) ==
      [tag / 0x1_0000 % 0x100, tag / 0x100 % 0x100, tag % 0x100, typ] + Word32(length)
  {
    hide Word32;
  }

  /** `encodeTTLV` fills a zeroed buffer. */
  method EncodeTTLV(tag: nat, typ: byte, val: Bytes) returns (out: array<byte>)
    ensures fresh(out) && out[..] == Encode(tag, typ, val)
  {
    hide PaddedLen, Header, Word32;
    HeaderIs(tag, typ, |val|);
    var length := Word32(|val|);
    var header := [tag / 0x1_0000 % 0x100, tag / 0x100 % 0x100, tag % 0x100, typ] + length;
    out := new byte[8 + PaddedLen(|val|)](_ => 0);
    ghost var blank := out[..];
    CopyInto(out, 0, header);
    ghost var framed := out[..];
    assert framed[8..] == blank[8..];
    CopyInto(out, 8, val);
    assert out[8 + |val|..] == framed[8 + |val|..] == blank[8 + |val|..];
    assert blank[8 + |val|..] == Zeros(PaddedLen(|val|) - |val|);
    assert out[..8] == header;
    assert out[..] == out[..8] + out[8..8 + |val|] + out[8 + |val|..];
  }

  /** Go's `copy(dst[at:], src)` with room for all of `src`. */
  method CopyInto(dst: array<byte>, at: nat, src: Bytes)
    requires at + |src| <= dst.Length
    modifies dst
    ensures dst[at..at + |src|] == src
    ensures dst[..at] == old(dst[..at]) && dst[at + |src|..] == old(dst[at + |src|..])
  {
    for i := 0 to |src|
      invariant dst[at..at + i] == src[..i]
      invariant dst[..at] == old(dst[..at]) && dst[at + i..] == old(dst[at + i..])
    {
      dst[at + i] := src[i];
    }
  }

  // ---- Decoding -------------------------------------------------------------------------

  datatype Decoded = Item(tag: nat, typ: byte, val: Bytes) | ShortHeader | LengthExceeds

  function DecodeTTLV(buf: Bytes): Decoded {
    if |buf| < 8 then ShortHeader
    else if ReadWord32(buf[4..8]) > |buf| - 8 then LengthExceeds
    else Item(ReadTag24(buf[0..3]), buf[3], buf[8..8 + ReadWord32(buf[4..8])])
  }

  lemma HeaderFields(tag: nat, typ: byte, length: nat)
    requires tag < TAG_LIMIT && length < LENGTH_LIMIT
    ensures var h := Header(tag, typ, length);
      ReadTag24(h[0..3]) == tag && h[3] == typ && ReadWord32(h[4..8]) == length
  {
    WordRoundTrip(tag);
    WordRoundTrip(length);
    var h := Header(tag, typ, length);
    assert h[0..3] == Tag24(tag) && h[4..8] == Word32(length);
  }

  /** An item in front of any bytes, padded or cut off after its value, decodes to itself. */
  lemma DecodeEncode(tag: nat, typ: byte, val: Bytes, rest: Bytes)
    requires tag < TAG_LIMIT && |val| < LENGTH_LIMIT
    ensures DecodeTTLV(Encode(tag, typ, val) + rest) == Item(tag, typ, val)
    ensures DecodeTTLV(Header(tag, typ, |val|) + val) == Item(tag, typ, val)
  {
    hide PaddedLen, Header, ReadTag24, ReadWord32;
    HeaderFields(tag, typ, |val|);
    var pad := Zeros(PaddedLen(|val|) - |val|) + rest;
    assert Encode(tag, typ, val) + rest == Header(tag, typ, |val|) + val + pad;
    DecodeFramed(Header(tag, typ, |val|), val, pad);
    DecodeFramed(Header(tag, typ, |val|), val, []);
    assert Header(tag, typ, |val|) + val + [] == Header(tag, typ, |val|) + val;
  }

  lemma DecodeFramed(h: Bytes, val: Bytes, rest: Bytes)
    requires |h| == 8 && ReadWord32(h[4..8]) == |val|
    ensures DecodeTTLV(h + val + rest) == Item(ReadTag24(h[0..3]), h[3], val)
  {
    hide ReadTag24, ReadWord32;
    var buf := h + val + rest;
    assert buf[0..3] == h[0..3] && buf[4..8] == h[4..8] && buf[8..8 + |val|] == val;
  }

  // ---- Walking --------------------------------------------------------------------------

  /** How a walk stops: with nothing left, at bytes that are no item, or at an item whose padding
      runs past the end, where the slice expression panics. */
  datatype Ending = AtEnd | BadItem | PastEnd

  /** What a walk with `rest[paddedLen(len(v)+8):]` sees, and how it stops. */
  datatype Walked = Walked(items: seq<Decoded>, end: Ending)

  function Walk(buf: Bytes): (w: Walked)
    ensures forall i :: 0 <= i < |w.items| ==> w.items[i].Item?
    decreases |buf|
  {
    if buf == [] then Walked([], AtEnd) else
      var d := DecodeTTLV(buf);
      if !d.Item? then Walked([], BadItem)
      else if PaddedLen(|d.val| + 8) > |buf| then Walked([], PastEnd)
      else
        var w := Walk(buf[PaddedLen(|d.val| + 8)..]);
        Walked([d] + w.items, w.end)
  }

  lemma DecodedFits(buf: Bytes)
    requires DecodeTTLV(buf).Item?
    ensures |DecodeTTLV(buf).val| + 8 <= |buf|
  {
    hide ReadWord32, ReadTag24;
  }

  /** A walk over whole 8-byte groups never steps past the end, whatever the lengths in it say. */
  lemma {:induction false} AlignedStaysInside(buf: Bytes)
    requires |buf| % 8 == 0
    ensures Walk(buf).end != PastEnd
    decreases |buf|
  {
    hide DecodeTTLV, PaddedLen;
    var d := DecodeTTLV(buf);
    if d.Item? {
      DecodedFits(buf);
      PaddedLenLeast(|d.val| + 8, |buf|);
      AlignedStaysInside(buf[PaddedLen(|d.val| + 8)..]);
    }
  }

  // ---- Trees ----------------------------------------------------------------------------

  datatype Tree = Node(tag: nat, children: seq<Tree>) | Leaf(tag: nat, typ: byte, val: Bytes)

  function EncodeTree(t: Tree): Bytes {
    match t
    case Leaf(tag, typ, val) => Encode(tag, typ, val)
    case Node(tag, children) => Encode(tag, STRUCTURE, EncodeAll(children))
  }

  function EncodeAll(ts: seq<Tree>): Bytes {
    if ts == [] then [] else EncodeTree(ts[0]) + EncodeAll(ts[1..])
  }

  /** The item a walk meets at this node. */
  function Head(t: Tree): Decoded {
    match t
    case Leaf(tag, typ, val) => Item(tag, typ, val)
    case Node(tag, children) => Item(tag, STRUCTURE, EncodeAll(children))
  }

  function Heads(ts: seq<Tree>): (r: seq<Decoded>)
    ensures |r| == |ts|
    ensures forall i :: 0 <= i < |ts| ==> r[i] == Head(ts[i])
  {
    if ts == [] then [] else [Head(ts[0])] + Heads(ts[1..])
  }

  /** 24-bit tags, 32-bit lengths, and structure items only as nodes. */
  predicate WellFormed(t: Tree) {
    t.tag < TAG_LIMIT && |Head(t).val| < LENGTH_LIMIT &&
    match t
    case Leaf(_, typ, _) => typ != STRUCTURE
    case Node(_, children) => forall c :: c in children ==> WellFormed(c)
  }

  predicate AllWellFormed(ts: seq<Tree>) {
    forall t :: t in ts ==> WellFormed(t)
  }

  lemma {:induction false} TreeLength(t: Tree)
    ensures |EncodeTree(t)| == PaddedLen(|Head(t).val| + 8) && |EncodeTree(t)| % 8 == 0
  {
    PaddedLenLeast(|Head(t).val|, PaddedLen(|Head(t).val|));
  }

  lemma {:induction false} ForestLength(ts: seq<Tree>)
    ensures |EncodeAll(ts)| % 8 == 0
  {
    hide EncodeTree;
    if ts != [] {
      TreeLength(ts[0]);
      ForestLength(ts[1..]);
    }
  }

  lemma DecodeTree(t: Tree, rest: Bytes)
    requires WellFormed(t)
    ensures DecodeTTLV(EncodeTree(t) + rest) == Head(t)
  {
    hide DecodeTTLV, PaddedLen, Encode;
    assert EncodeTree(t) == Encode(t.tag, Head(t).typ, Head(t).val);
    DecodeEncode(t.tag, Head(t).typ, Head(t).val, rest);
  }

  /** Walking concatenated encodings meets exactly the items, in order, and ends at the end. */
  lemma {:induction false} WalkForest(ts: seq<Tree>)
    requires AllWellFormed(ts)
    ensures Walk(EncodeAll(ts)) == Walked(Heads(ts), AtEnd)
  {
    hide EncodeTree, DecodeTTLV, PaddedLen, WellFormed;
    if ts != [] {
      DecodeTree(ts[0], EncodeAll(ts[1..]));
      TreeLength(ts[0]);
      assert (EncodeTree(ts[0]) + EncodeAll(ts[1..]))[|EncodeTree(ts[0])|..] == EncodeAll(ts[1..]);
      WalkForest(ts[1..]);
    }
  }

  /** The bytes determine the tree. */
  lemma {:induction false} TreeInjective(t: Tree, u: Tree)
    requires WellFormed(t) && WellFormed(u) && EncodeTree(t) == EncodeTree(u)
    ensures t == u
    decreases t, 1
  {
    DecodeTree(t, []);
    DecodeTree(u, []);
    assert EncodeTree(t) + [] == EncodeTree(u) + [];
    assert Head(t) == Head(u);
    if t.Node? {
      ForestInjective(t.children, u.children);
    }
  }

  lemma {:induction false} ForestInjective(ts: seq<Tree>, us: seq<Tree>)
    requires AllWellFormed(ts) && AllWellFormed(us) && EncodeAll(ts) == EncodeAll(us)
    ensures ts == us
    decreases ts, 0
  {
    WalkForest(ts);
    WalkForest(us);
    assert |ts| == |Heads(ts)| == |Heads(us)| == |us|;
    forall i | 0 <= i < |ts| ensures ts[i] == us[i] {
      assert Head(ts[i]) == Heads(ts)[i] == Heads(us)[i] == Head(us[i]);
      TreeInjective(ts[i], us[i]);
    }
  }
}
