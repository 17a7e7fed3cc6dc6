/** KMIP requests and responses of internal/cmk/kmip.go over the TTLV codec.

    The walking parsers slice `rest[paddedLen(len(v)+8):]` without checking that the padding is
    there.  On an item whose padding is missing that expression panics; each parser has an outcome
    for it.
  */
module Kmip {
  import opened Ttlv

  const REQUEST_MESSAGE: nat := 0x420078
  const REQUEST_HEADER: nat := 0x420077
  const PROTOCOL_VERSION: nat := 0x420069
  const PROTOCOL_VERSION_MAJOR: nat := 0x42006A
  const PROTOCOL_VERSION_MINOR: nat := 0x42006B
  const BATCH_COUNT: nat := 0x42000D
  const BATCH_ITEM: nat := 0x42000F
  const OPERATION: nat := 0x42005C
  const REQUEST_PAYLOAD: nat := 0x420079
  const RESPONSE_MESSAGE: nat := 0x42007B
  const RESPONSE_PAYLOAD: nat := 0x42007C
  const RESULT_STATUS: nat := 0x42007F
  const UNIQUE_IDENTIFIER: nat := 0x420094
  const ATTRIBUTE: nat := 0x420008
  const ATTRIBUTE_NAME: nat := 0x42000A
  const ATTRIBUTE_VALUE: nat := 0x42000B
  const CRYPTOGRAPHIC_PARAMETERS: nat := 0x42002B
  const BLOCK_CIPHER_MODE: nat := 0x420011
  const CRYPTOGRAPHIC_ALGORITHM: nat := 0x420028
  const DATA: nat := 0x4200C2
  const IV_COUNTER_NONCE: nat := 0x42003D

  const OP_LOCATE: nat := 0x08
  const OP_ENCRYPT: nat := 0x1F
  const OP_DECRYPT: nat := 0x20
  const ALG_AES: nat := 0x03
  const MODE_GCM: nat := 0x05

  // ---- Finding the response payload -----------------------------------------------------

  datatype Extracted = Found(payload: Bytes) | WrongMessage | Malformed | ShortStatus | Refused | NoPayload | Panic

  /** What an item inside a batch item settles; `NoPayload` when it settles nothing. */
  function Judge(d: Decoded): Extracted
    requires d.Item?
  {
    if d.tag == RESULT_STATUS && d.typ == ENUMERATION then
      if |d.val| < 4 then ShortStatus else if ReadWord32(d.val[..4]) != 0 then Refused else NoPayload
    else if d.tag == RESPONSE_PAYLOAD && d.typ == STRUCTURE then Found(d.val)
    else NoPayload
  }

  predicate IsBatchItem(d: Decoded) {
    d.Item? && d.tag == BATCH_ITEM && d.typ == STRUCTURE
  }

  /** What a loop answers when the walk stops before anything is settled. */
  function Stopped(end: Ending): Extracted {
    match end
    case AtEnd => NoPayload
    case BadItem => Malformed
    case PastEnd => Panic
  }

  function ScanBatchItem(w: Walked): Extracted
    requires forall d :: d in w.items ==> d.Item?
    decreases |w.items|
  {
    if w.items == [] then Stopped(w.end)
    else if Judge(w.items[0]) != NoPayload then Judge(w.items[0])
    else ScanBatchItem(Walked(w.items[1..], w.end))
  }

  function ScanMessage(w: Walked): Extracted
    decreases |w.items|
  {
    if w.items == [] then Stopped(w.end)
    else
      var rest := Walked(w.items[1..], w.end);
      if !IsBatchItem(w.items[0]) then ScanMessage(rest)
      else
        var r := ScanBatchItem(Walk(w.items[0].val));
        if r == NoPayload then ScanMessage(rest) else r
  }

  function Extract(msg: Bytes): Extracted {
    var d := DecodeTTLV(msg);
    if !d.Item? then Malformed
    else if d.tag != RESPONSE_MESSAGE || d.typ != STRUCTURE then WrongMessage
    else ScanMessage(Walk(d.val))
  }

  /** One turn of a walking loop. */
  lemma WalkStep(buf: Bytes)
    requires buf != [] && DecodeTTLV(buf).Item?
    ensures var d := DecodeTTLV(buf);
      var n := PaddedLen(|d.val| + 8);
      Walk(buf) == if n > |buf| then Walked([], PastEnd) else Walked([d] + Walk(buf[n..]).items, Walk(buf[n..]).end)
  {
  }

  /** The inner loop of `extractResponsePayload`. */
  method ScanInner(v: Bytes) returns (r: Extracted)
    ensures r == ScanBatchItem(Walk(v))
  {
    hide DecodeTTLV, PaddedLen, Judge;
    var inner := v;
    while |inner| > 0
      invariant ScanBatchItem(Walk(inner)) == ScanBatchItem(Walk(v))
      decreases |inner|
    {
      var d := DecodeTTLV(inner);
      if !d.Item? {
        return Malformed;
      }
      WalkStep(inner);
      if PaddedLen(|d.val| + 8) > |inner| {
        return Panic;
      }
      inner := inner[PaddedLen(|d.val| + 8)..];
      var verdict := Judge(d);
      if verdict != NoPayload {
        return verdict;
      }
      assert ([d] + Walk(inner).items)[1..] == Walk(inner).items;
    }
    return NoPayload;
  }

  /** `extractResponsePayload`. */
  method ExtractResponsePayload(msg: Bytes) returns (r: Extracted)
    ensures r == Extract(msg)
  {
    var d := DecodeTTLV(msg);
    if !d.Item? {
      return Malformed;
    }
    if d.tag != RESPONSE_MESSAGE || d.typ != STRUCTURE {
      return WrongMessage;
    }
    r := ScanOuter(d.val);
  }

  method ScanOuter(val: Bytes) returns (r: Extracted)
    ensures r == ScanMessage(Walk(val))
  {
    hide DecodeTTLV, PaddedLen, ScanBatchItem;
    var rest := val;
    while |rest| > 0
      invariant ScanMessage(Walk(rest)) == ScanMessage(Walk(val))
      decreases |rest|
    {
      var d := DecodeTTLV(rest);
      if !d.Item? {
        return Malformed;
      }
      WalkStep(rest);
      if PaddedLen(|d.val| + 8) > |rest| {
        return Panic;
      }
      ghost var w := Walk(rest);
      rest := rest[PaddedLen(|d.val| + 8)..];
      assert w.items[1..] == Walk(rest).items && w.items[0] == d;
      if IsBatchItem(d) {
        var verdict := ScanInner(d.val);
        if verdict != NoPayload {
          return verdict;
        }
      }
    }
    return NoPayload;
  }

  /** A batch item of whole 8-byte groups never makes the inner loop panic. */
  lemma {:induction false} AlignedScan(w: Walked)
    requires (forall d :: d in w.items ==> d.Item?) && w.end != PastEnd
    ensures ScanBatchItem(w) != Panic
    decreases |w.items|
  {
    if w.items != [] {
      AlignedScan(Walked(w.items[1..], w.end));
    }
  }

  /** A message whose structures are whole 8-byte groups is never a reason to panic, whatever its
      lengths and tags say. */
  lemma {:induction false} AlignedMessageScan(w: Walked)
    requires w.end != PastEnd && forall d :: d in w.items && IsBatchItem(d) ==> |d.val| % 8 == 0
    ensures ScanMessage(w) != Panic
    decreases |w.items|
  {
    hide ScanBatchItem, Walk;
    if w.items != [] {
      AlignedMessageScan(Walked(w.items[1..], w.end));
      if IsBatchItem(w.items[0]) {
        AlignedStaysInside(w.items[0].val);
        AlignedScan(Walk(w.items[0].val));
      }
    }
  }

  // ---- Exactly when it panics -------------------------------------------------------------

  /** A batch item is walked past its end with nothing settled. */
  ghost predicate Overruns(w: Walked)
    requires forall d :: d in w.items ==> d.Item?
  {
    w.end == PastEnd && forall i :: 0 <= i < |w.items| ==> Judge(w.items[i]) == NoPayload
  }

  lemma {:induction false} BatchPanicsIff(w: Walked)
    requires forall d :: d in w.items ==> d.Item?
    ensures ScanBatchItem(w) == Panic <==> Overruns(w)
    decreases |w.items|
  {
    hide Judge;
    if w.items != [] {
      var rest := Walked(w.items[1..], w.end);
      BatchPanicsIff(rest);
      JudgeNeverPanics(w.items[0]);
      assert forall i :: 0 < i < |w.items| ==> w.items[i] == rest.items[i - 1];
    }
  }

  lemma JudgeNeverPanics(d: Decoded)
    requires d.Item?
    ensures Judge(d) != Panic
  {
  }

  /** The item settles nothing. */
  ghost predicate Passed(d: Decoded) {
    IsBatchItem(d) ==> ScanBatchItem(Walk(d.val)) == NoPayload
  }

  ghost predicate OverrunsAt(w: Walked, k: nat) {
    k < |w.items| && IsBatchItem(w.items[k]) && Overruns(Walk(w.items[k].val)) &&
    forall i :: 0 <= i < k ==> Passed(w.items[i])
  }

  /** Every item is passed, and the message itself is walked past its end. */
  ghost predicate OverrunsEnd(w: Walked) {
    w.end == PastEnd && forall i :: 0 <= i < |w.items| ==> Passed(w.items[i])
  }

  /** The parser panics exactly when the first batch item that is not passed is walked past its end
      with nothing settled, or all are passed and the message is walked past its end. */
  lemma {:induction false} MessagePanicsIff(w: Walked)
    ensures ScanMessage(w) == Panic <==> (exists k: nat :: OverrunsAt(w, k)) || OverrunsEnd(w)
    decreases |w.items|
  {
    hide ScanBatchItem, Walk, Overruns;
    if w.items == [] {
      assert forall k: nat :: !OverrunsAt(w, k);
    } else {
      var rest := Walked(w.items[1..], w.end);
      MessagePanicsIff(rest);
      if IsBatchItem(w.items[0]) {
        BatchPanicsIff(Walk(w.items[0].val));
      }
      PanicsCons(w);
    }
  }

  lemma PanicsCons(w: Walked)
    requires w.items != []
    ensures var rest := Walked(w.items[1..], w.end);
      && (OverrunsEnd(w) <==> Passed(w.items[0]) && OverrunsEnd(rest))
      && ((exists k: nat :: OverrunsAt(w, k)) <==>
          OverrunsAt(w, 0) || (Passed(w.items[0]) && exists k: nat :: OverrunsAt(rest, k)))
  {
    hide Passed, Overruns, IsBatchItem;
    var rest := Walked(w.items[1..], w.end);
    assert forall i :: 0 < i < |w.items| ==> w.items[i] == rest.items[i - 1];
    if k: nat :| OverrunsAt(w, k) {
      if k > 0 {
        assert OverrunsAt(rest, k - 1);
      }
    }
    if k: nat :| Passed(w.items[0]) && OverrunsAt(rest, k) {
      assert OverrunsAt(w, k + 1);
    }
  }

  /** A payload of whole 8-byte groups makes neither response parser panic. */
  lemma AlignedPayload(payload: Bytes, tag: nat, typ: byte)
    requires |payload| % 8 == 0
    ensures EncryptOutcome(Walk(payload)) != EncryptPanic && FirstOutcome(Walk(payload), tag, typ) != ValuePanic
  {
    hide Walk, Values;
    AlignedStaysInside(payload);
  }

  // ---- The same on trees ----------------------------------------------------------------

  /** The items of all batch items, in order: everything the scan may look at. */
  function Inspected(children: seq<Tree>): seq<Tree> {
    if children == [] then []
    else
      var first := children[0];
      (if IsBatchItem(Head(first)) && first.Node? then first.children else []) + Inspected(children[1..])
  }

  /** Item `k` settles the outcome, and none before it does. */
  predicate DecidedAt(ts: seq<Tree>, k: nat)
    requires k < |ts|
  {
    Judge(Head(ts[k])) != NoPayload && forall i :: 0 <= i < k ==> Judge(Head(ts[i])) == NoPayload
  }

  /** The first item that settles the outcome. */
  function FirstDecisive(ts: seq<Tree>): Extracted {
    if ts == [] then NoPayload
    else if Judge(Head(ts[0])) != NoPayload then Judge(Head(ts[0]))
    else FirstDecisive(ts[1..])
  }

  lemma {:induction false} FirstDecisiveIs(ts: seq<Tree>, k: nat)
    requires k < |ts| && DecidedAt(ts, k)
    ensures FirstDecisive(ts) == Judge(Head(ts[k]))
  {
    hide Judge;
    if k > 0 {
      assert Judge(Head(ts[0])) == NoPayload;
      assert forall i :: 0 <= i < k ==> ts[1..][i] == ts[i + 1];
      FirstDecisiveIs(ts[1..], k - 1);
    }
  }

  lemma {:induction false} NothingDecisive(ts: seq<Tree>)
    requires forall i :: 0 <= i < |ts| ==> Judge(Head(ts[i])) == NoPayload
    ensures FirstDecisive(ts) == NoPayload
  {
    if ts != [] { NothingDecisive(ts[1..]); }
  }

  lemma {:induction false} FirstDecisiveConcat(a: seq<Tree>, b: seq<Tree>)
    ensures FirstDecisive(a + b) == if FirstDecisive(a) == NoPayload then FirstDecisive(b) else FirstDecisive(a)
  {
    if a == [] {
      assert a + b == b;
    } else {
      assert (a + b)[1..] == a[1..] + b;
      FirstDecisiveConcat(a[1..], b);
    }
  }

  lemma {:induction false} ScanBatchOfTrees(ts: seq<Tree>)
    ensures ScanBatchItem(Walked(Heads(ts), AtEnd)) == FirstDecisive(ts)
  {
    if ts != [] {
      ScanBatchOfTrees(ts[1..]);
      assert Heads(ts)[1..] == Heads(ts[1..]);
    }
  }

  lemma {:induction false} ScanMessageOfTrees(ts: seq<Tree>)
    requires AllWellFormed(ts)
    ensures ScanMessage(Walked(Heads(ts), AtEnd)) == FirstDecisive(Inspected(ts))
  {
    hide ScanBatchItem, Walk, EncodeAll, Judge;
    if ts != [] {
      var t := ts[0];
      ScanMessageOfTrees(ts[1..]);
      assert Heads(ts)[1..] == Heads(ts[1..]);
      if IsBatchItem(Head(t)) {
        assert WellFormed(t);
        WalkForest(t.children);
        ScanBatchOfTrees(t.children);
        FirstDecisiveConcat(t.children, Inspected(ts[1..]));
      } else {
        assert Inspected(ts) == Inspected(ts[1..]);
      }
    }
  }

  function TreeExtract(msg: Tree): Extracted {
    if msg.Node? && msg.tag == RESPONSE_MESSAGE then FirstDecisive(Inspected(msg.children)) else WrongMessage
  }

  /** On the encoding of any message tree, the extraction finds the first item of any batch item
      that decides: its payload, or the error of a bad status standing before it. */
  lemma ExtractOfTree(msg: Tree, rest: Bytes)
    requires WellFormed(msg)
    ensures Extract(EncodeTree(msg) + rest) == TreeExtract(msg)
  {
    DecodeTree(msg, rest);
    if msg.Node? {
      WalkForest(msg.children);
      ScanMessageOfTrees(msg.children);
    }
  }

  // ---- The same by tags and bytes -------------------------------------------------------------

  predicate IsBatch(t: Tree) {
    t.Node? && t.tag == BATCH_ITEM
  }

  predicate IsPayload(t: Tree) {
    t.Node? && t.tag == RESPONSE_PAYLOAD
  }

  predicate IsStatus(t: Tree) {
    t.Leaf? && t.tag == RESULT_STATUS && t.typ == ENUMERATION
  }

  /** A result status of success starts with four zero bytes. */
  predicate Succeeded(val: Bytes) {
    |val| >= 4 && val[0] == 0 && val[1] == 0 && val[2] == 0 && val[3] == 0
  }

  /** A payload, or a status that is not one of success; no other item settles anything. */
  predicate Settles(t: Tree) {
    IsPayload(t) || (IsStatus(t) && !Succeeded(t.val))
  }

  /** A batch item of which nothing settles the outcome, or no batch item. */
  predicate SettlesNothing(t: Tree) {
    IsBatch(t) ==> forall i :: 0 <= i < |t.children| ==> !Settles(t.children[i])
  }

  lemma JudgeByTags(t: Tree)
    requires WellFormed(t)
    ensures Judge(Head(t)) != NoPayload <==> Settles(t)
    ensures IsPayload(t) ==> Judge(Head(t)) == Found(EncodeAll(t.children))
    ensures IsStatus(t) && |t.val| < 4 ==> Judge(Head(t)) == ShortStatus
    ensures IsStatus(t) && |t.val| >= 4 && !Succeeded(t.val) ==> Judge(Head(t)) == Refused
  {
    hide EncodeAll;
    if IsStatus(t) && |t.val| >= 4 {
      ZeroWord(t.val);
    }
  }

  lemma ZeroWord(val: Bytes)
    requires |val| >= 4
    ensures ReadWord32(val[..4]) == 0 <==> Succeeded(val)
  {
    var b := val[..4];
    assert b[0] == val[0] && b[1] == val[1] && b[2] == val[2] && b[3] == val[3];
  }

  /** The first item that settles, in the first batch item that has one. */
  predicate SettledAt(children: seq<Tree>, p: nat, k: nat) {
    p < |children| && IsBatch(children[p]) && k < |children[p].children| && Settles(children[p].children[k]) &&
    (forall q :: 0 <= q < p ==> SettlesNothing(children[q])) &&
    forall i :: 0 <= i < k ==> !Settles(children[p].children[i])
  }

  lemma NothingSettled(t: Tree)
    requires WellFormed(t) && IsBatch(t) && SettlesNothing(t)
    ensures FirstDecisive(t.children) == NoPayload
  {
    hide Judge, Settles;
    forall i | 0 <= i < |t.children| ensures Judge(Head(t.children[i])) == NoPayload {
      JudgeByTags(t.children[i]);
    }
    NothingDecisive(t.children);
  }

  lemma SettledIn(t: Tree, k: nat)
    requires WellFormed(t) && IsBatch(t) && k < |t.children| && Settles(t.children[k])
    requires forall i :: 0 <= i < k ==> !Settles(t.children[i])
    ensures FirstDecisive(t.children) == Judge(Head(t.children[k])) != NoPayload
  {
    hide Judge, Settles;
    forall i | 0 <= i <= k ensures Judge(Head(t.children[i])) == NoPayload <==> i != k {
      JudgeByTags(t.children[i]);
    }
    FirstDecisiveIs(t.children, k);
  }

  lemma {:induction false} FirstSettled(children: seq<Tree>, p: nat, k: nat)
    requires AllWellFormed(children) && SettledAt(children, p, k)
    ensures FirstDecisive(Inspected(children)) == Judge(Head(children[p].children[k]))
  {
    hide Judge, Settles;
    var first, rest := children[0], children[1..];
    assert WellFormed(first);
    if IsBatch(first) {
      FirstDecisiveConcat(first.children, Inspected(rest));
    }
    if p == 0 {
      SettledIn(first, k);
    } else {
      assert rest[p - 1] == children[p] && forall q :: 0 <= q < p - 1 ==> rest[q] == children[q + 1];
      FirstSettled(rest, p - 1, k);
      if IsBatch(first) {
        NothingSettled(first);
      } else {
        assert Inspected(children) == Inspected(rest);
      }
    }
  }

  lemma {:induction false} NoneSettled(children: seq<Tree>)
    requires AllWellFormed(children) && forall q :: 0 <= q < |children| ==> SettlesNothing(children[q])
    ensures FirstDecisive(Inspected(children)) == NoPayload
  {
    hide Judge, Settles;
    if children != [] {
      var first, rest := children[0], children[1..];
      assert WellFormed(first);
      NoneSettled(rest);
      if IsBatch(first) {
        NothingSettled(first);
        FirstDecisiveConcat(first.children, Inspected(rest));
      } else {
        assert Inspected(children) == Inspected(rest);
      }
    }
  }

  /** What the parser answers on a response message: the bytes of the first payload if every status
      before it is one of success, and an error for the first status that is not, by its length. */
  lemma ExtractByTags(children: seq<Tree>, p: nat, k: nat, rest: Bytes)
    requires WellFormed(Node(RESPONSE_MESSAGE, children)) && SettledAt(children, p, k)
    ensures var r, t := Extract(EncodeTree(Node(RESPONSE_MESSAGE, children)) + rest), children[p].children[k];
      && (IsPayload(t) ==> r == Found(EncodeAll(t.children)))
      && (IsStatus(t) ==> r == if |t.val| < 4 then ShortStatus else Refused)
  {
    hide Judge, FirstDecisive, Inspected, Extract, EncodeTree, EncodeAll, Settles, SettlesNothing;
    ExtractOfTree(Node(RESPONSE_MESSAGE, children), rest);
    FirstSettled(children, p, k);
    assert WellFormed(children[p]);
    StatusOrPayload(children[p].children[k]);
  }

  lemma StatusOrPayload(t: Tree)
    requires WellFormed(t) && Settles(t)
    ensures IsPayload(t) ==> Judge(Head(t)) == Found(EncodeAll(t.children))
    ensures IsStatus(t) ==> Judge(Head(t)) == if |t.val| < 4 then ShortStatus else Refused
  {
    hide Judge, EncodeAll;
    JudgeByTags(t);
  }

  /** With neither, there is no payload. */
  lemma ExtractsNothing(children: seq<Tree>, rest: Bytes)
    requires WellFormed(Node(RESPONSE_MESSAGE, children))
    requires forall q :: 0 <= q < |children| ==> SettlesNothing(children[q])
    ensures Extract(EncodeTree(Node(RESPONSE_MESSAGE, children)) + rest) == NoPayload
  {
    hide Judge, FirstDecisive, Inspected, Extract, EncodeTree, EncodeAll, SettlesNothing;
    ExtractOfTree(Node(RESPONSE_MESSAGE, children), rest);
    NoneSettled(children);
  }

  // ---- Operation responses --------------------------------------------------------------

  /** The values of all items with this tag and type, in order. */
  function Values(items: seq<Decoded>, tag: nat, typ: byte): seq<Bytes> {
    if items == [] then [] else
      var d := items[|items| - 1];
      Values(items[..|items| - 1], tag, typ) + (if d.Item? && d.tag == tag && d.typ == typ then [d.val] else [])
  }

  function Last(vs: seq<Bytes>): Bytes {
    if vs == [] then [] else vs[|vs| - 1]
  }

  datatype EncryptResponse =
    Encrypted(ciphertext: Bytes, iv: Bytes) | EncryptMalformed | MissingCiphertext | EncryptPanic

  /** The last Data and the last IV, accepted exactly when some Data is non-empty. */
  function EncryptOutcome(w: Walked): EncryptResponse {
    if w.end == BadItem then EncryptMalformed
    else if w.end == PastEnd then EncryptPanic
    else if forall v :: v in Values(w.items, DATA, BYTE_STRING) ==> v == [] then MissingCiphertext
    else Encrypted(Last(Values(w.items, DATA, BYTE_STRING)), Last(Values(w.items, IV_COUNTER_NONCE, BYTE_STRING)))
  }

  /** The last Data that is not empty. */
  function LastNonEmpty(vs: seq<Bytes>): Bytes {
    if vs == [] then [] else if vs[|vs| - 1] != [] then vs[|vs| - 1] else LastNonEmpty(vs[..|vs| - 1])
  }

  lemma {:induction false} LastNonEmptyFound(vs: seq<Bytes>)
    ensures LastNonEmpty(vs) == [] <==> forall v :: v in vs ==> v == []
  {
    if vs != [] {
      var n := |vs| - 1;
      LastNonEmptyFound(vs[..n]);
      assert vs[n] in vs && forall v :: v in vs <==> v in vs[..n] || v == vs[n];
    }
  }

  /** An empty Data after the ciphertext displaces it: the answer is the last non-empty Data exactly
      when no empty one ends the list. */
  lemma EncryptAnswersLastNonEmpty(w: Walked)
    requires EncryptOutcome(w).Encrypted?
    ensures var vs := Values(w.items, DATA, BYTE_STRING); EncryptOutcome(w).ciphertext == LastNonEmpty(vs) <==>
      Last(vs) != []
  {
    LastNonEmptyFound(Values(w.items, DATA, BYTE_STRING));
  }

  lemma LaterEmptyDataWins(v: Bytes)
    requires v != []
    ensures EncryptOutcome(Walked([Item(DATA, BYTE_STRING, v), Item(DATA, BYTE_STRING, [])], AtEnd)) ==
      Encrypted([], [])
  {
    var a, b := Item(DATA, BYTE_STRING, v), Item(DATA, BYTE_STRING, []);
    assert [a, b][..1] == [a] && [a][..0] == [];
    assert forall t, k :: Values([], t, k) == [];
    assert Values([a], DATA, BYTE_STRING) == [v];
    assert Values([a], IV_COUNTER_NONCE, BYTE_STRING) == [];
    assert Values([a, b], IV_COUNTER_NONCE, BYTE_STRING) == [];
    var vs := Values([a, b], DATA, BYTE_STRING);
    assert vs == [v, []] && vs[0] == v && v in vs;
    assert Last(vs) == [] && EncryptOutcome(Walked([a, b], AtEnd)).Encrypted?;
  }

  /** A Go byte slice that may be nil. */
  datatype Slice = Nil | Some(bytes: Bytes)

  /** `append(s[:0], v...)`: appending nothing to a nil slice leaves it nil. */
  function Reuse(s: Slice, v: Bytes): Slice {
    if s.Nil? && v == [] then Nil else Some(v)
  }

  function Contents(s: Slice): Bytes {
    if s.Nil? then [] else s.bytes
  }

  ghost predicate Holds(s: Slice, vs: seq<Bytes>) {
    (s.Nil? <==> forall v :: v in vs ==> v == []) && Contents(s) == Last(vs)
  }

  lemma ReuseHolds(s: Slice, vs: seq<Bytes>, v: Bytes)
    requires Holds(s, vs)
    ensures Holds(Reuse(s, v), vs + [v])
  {
    var ws := vs + [v];
    assert v in ws;
    assert forall u :: u in ws <==> u in vs || u == v;
  }

  ghost predicate Visited(payload: Bytes, done: seq<Decoded>, rest: Bytes) {
    Walk(payload) == Walked(done + Walk(rest).items, Walk(rest).end)
  }

  lemma VisitNext(payload: Bytes, done: seq<Decoded>, rest: Bytes)
    requires Visited(payload, done, rest) && rest != [] && DecodeTTLV(rest).Item?
    requires PaddedLen(|DecodeTTLV(rest).val| + 8) <= |rest|
    ensures var d := DecodeTTLV(rest); Visited(payload, done + [d], rest[PaddedLen(|d.val| + 8)..])
  {
    WalkStep(rest);
    var d := DecodeTTLV(rest);
    var tail := Walk(rest[PaddedLen(|d.val| + 8)..]).items;
    assert done + ([d] + tail) == done + [d] + tail;
  }

  lemma ValuesSnoc(done: seq<Decoded>, d: Decoded, tag: nat, typ: byte)
    ensures Values(done + [d], tag, typ) ==
      if d.Item? && d.tag == tag && d.typ == typ then Values(done, tag, typ) + [d.val] else Values(done, tag, typ)
  {
    assert (done + [d])[..|done|] == done;
  }

  /** `parseEncryptResponse`. */
  method ParseEncryptResponse(payload: Bytes) returns (r: EncryptResponse)
    ensures r == EncryptOutcome(Walk(payload))
  {
    hide DecodeTTLV, PaddedLen, Values, Holds, Reuse;
    var rest, ciphertext, iv := payload, Nil, Nil;
    ghost var done: seq<Decoded> := [];
    NothingVisited(payload);
    while |rest| > 0
      invariant Visited(payload, done, rest)
      invariant Holds(ciphertext, Values(done, DATA, BYTE_STRING))
      invariant Holds(iv, Values(done, IV_COUNTER_NONCE, BYTE_STRING))
      decreases |rest|
    {
      var d := DecodeTTLV(rest);
      if !d.Item? {
        return EncryptMalformed;
      }
      if PaddedLen(|d.val| + 8) > |rest| {
        WalkStep(rest);
        return EncryptPanic;
      }
      VisitNext(payload, done, rest);
      ValuesSnoc(done, d, DATA, BYTE_STRING);
      ValuesSnoc(done, d, IV_COUNTER_NONCE, BYTE_STRING);
      rest := rest[PaddedLen(|d.val| + 8)..];
      if d.tag == DATA && d.typ == BYTE_STRING {
        ReuseHolds(ciphertext, Values(done, DATA, BYTE_STRING), d.val);
        ciphertext := Reuse(ciphertext, d.val);
      }
      if d.tag == IV_COUNTER_NONCE && d.typ == BYTE_STRING {
        ReuseHolds(iv, Values(done, IV_COUNTER_NONCE, BYTE_STRING), d.val);
        iv := Reuse(iv, d.val);
      }
      done := done + [d];
    }
    assert Walk(payload) == Walked(done, AtEnd) by { assert done + [] == done; }
    HoldsMeaning(ciphertext, Values(done, DATA, BYTE_STRING));
    HoldsMeaning(iv, Values(done, IV_COUNTER_NONCE, BYTE_STRING));
    if ciphertext.Nil? {
      return MissingCiphertext;
    }
    return Encrypted(ciphertext.bytes, Contents(iv));
  }

  lemma NothingVisited(payload: Bytes)
    ensures Visited(payload, [], payload)
    ensures Holds(Nil, Values([], DATA, BYTE_STRING)) && Holds(Nil, Values([], IV_COUNTER_NONCE, BYTE_STRING))
  {
    assert [] + Walk(payload).items == Walk(payload).items;
  }

  lemma HoldsMeaning(s: Slice, vs: seq<Bytes>)
    requires Holds(s, vs)
    ensures s.Nil? <==> forall v :: v in vs ==> v == []
    ensures Contents(s) == Last(vs)
  {
  }

  datatype FirstValue = Value(bytes: Bytes) | ValueMalformed | MissingValue | ValuePanic

  /** The first value with this tag and type, if the walk reaches one. */
  function FirstOutcome(w: Walked, tag: nat, typ: byte): FirstValue {
    var vs := Values(w.items, tag, typ);
    if vs != [] then Value(vs[0])
    else match w.end
      case AtEnd => MissingValue
      case BadItem => ValueMalformed
      case PastEnd => ValuePanic
  }

  lemma {:induction false} ValuesOfMore(done: seq<Decoded>, more: seq<Decoded>, tag: nat, typ: byte)
    requires Values(done, tag, typ) != []
    ensures Values(done + more, tag, typ) != [] && Values(done + more, tag, typ)[0] == Values(done, tag, typ)[0]
  {
    if more == [] {
      assert done + more == done;
    } else {
      var n := |more| - 1;
      assert done + more == (done + more[..n]) + [more[n]];
      ValuesSnoc(done + more[..n], more[n], tag, typ);
      ValuesOfMore(done, more[..n], tag, typ);
    }
  }

  /** The loop shared by `parseDecryptResponse` (Data) and `parseLocateResponse` (identifier). */
  method ParseFirst(payload: Bytes, tag: nat, typ: byte) returns (r: FirstValue)
    ensures r == FirstOutcome(Walk(payload), tag, typ)
  {
    hide DecodeTTLV, PaddedLen;
    var rest := payload;
    ghost var done: seq<Decoded> := [];
    NothingVisited(payload);
    while |rest| > 0
      invariant Visited(payload, done, rest) && Values(done, tag, typ) == []
      decreases |rest|
    {
      var d := DecodeTTLV(rest);
      if !d.Item? {
        assert Walk(payload) == Walked(done, BadItem) by { assert done + [] == done; }
        return ValueMalformed;
      }
      if PaddedLen(|d.val| + 8) > |rest| {
        WalkStep(rest);
        assert Walk(payload) == Walked(done, PastEnd) by { assert done + [] == done; }
        return ValuePanic;
      }
      VisitNext(payload, done, rest);
      ValuesSnoc(done, d, tag, typ);
      rest := rest[PaddedLen(|d.val| + 8)..];
      done := done + [d];
      if d.tag == tag && d.typ == typ {
        ValuesOfMore(done, Walk(rest).items, tag, typ);
        return Value(d.val);
      }
    }
    assert Walk(payload) == Walked(done, AtEnd) by { assert done + [] == done; }
    return MissingValue;
  }

  /** On the encoding of any payload trees the three response parsers read the trees' values. */
  lemma ResponsesOfTrees(ts: seq<Tree>, tag: nat, typ: byte)
    requires AllWellFormed(ts)
    ensures EncryptOutcome(Walk(EncodeAll(ts))) == EncryptOutcome(Walked(Heads(ts), AtEnd))
    ensures FirstOutcome(Walk(EncodeAll(ts)), tag, typ) ==
      var vs := Values(Heads(ts), tag, typ); if vs == [] then MissingValue else Value(vs[0])
  {
    WalkForest(ts);
  }

  predicate Has(t: Tree, tag: nat, typ: byte) {
    t.Leaf? && t.tag == tag && t.typ == typ
  }

  /** Item `i` is the last with this tag and type. */
  predicate LastWith(ts: seq<Tree>, i: nat, tag: nat, typ: byte) {
    i < |ts| && Has(ts[i], tag, typ) && forall k :: i < k < |ts| ==> !Has(ts[k], tag, typ)
  }

  predicate FirstWith(ts: seq<Tree>, i: nat, tag: nat, typ: byte) {
    i < |ts| && Has(ts[i], tag, typ) && forall k :: 0 <= k < i ==> !Has(ts[k], tag, typ)
  }

  predicate NoneWith(ts: seq<Tree>, tag: nat, typ: byte) {
    forall k :: 0 <= k < |ts| ==> !Has(ts[k], tag, typ)
  }

  lemma ValuesOfTrees(ts: seq<Tree>, tag: nat, typ: byte)
    requires ts != [] && typ != STRUCTURE
    ensures var n := |ts| - 1;
      Values(Heads(ts), tag, typ) ==
      Values(Heads(ts[..n]), tag, typ) + if Has(ts[n], tag, typ) then [ts[n].val] else []
  {
    hide EncodeAll;
    var n := |ts| - 1;
    assert Heads(ts)[..n] == Heads(ts[..n]);
  }

  lemma {:induction false} LastValue(ts: seq<Tree>, i: nat, tag: nat, typ: byte)
    requires LastWith(ts, i, tag, typ) && typ != STRUCTURE
    ensures var vs := Values(Heads(ts), tag, typ); vs != [] && vs[|vs| - 1] == ts[i].val
  {
    hide Values, Heads, Has;
    var n := |ts| - 1;
    ValuesOfTrees(ts, tag, typ);
    if i < n {
      assert !Has(ts[n], tag, typ);
      LastValue(ts[..n], i, tag, typ);
    }
  }

  lemma {:induction false} NoValues(ts: seq<Tree>, tag: nat, typ: byte)
    requires NoneWith(ts, tag, typ) && typ != STRUCTURE
    ensures Values(Heads(ts), tag, typ) == []
  {
    if ts != [] {
      ValuesOfTrees(ts, tag, typ);
      NoValues(ts[..|ts| - 1], tag, typ);
    }
  }

  lemma {:induction false} FirstValueIs(ts: seq<Tree>, i: nat, tag: nat, typ: byte)
    requires FirstWith(ts, i, tag, typ) && typ != STRUCTURE
    ensures var vs := Values(Heads(ts), tag, typ); vs != [] && vs[0] == ts[i].val
  {
    hide Values, Heads, Has;
    var n := |ts| - 1;
    ValuesOfTrees(ts, tag, typ);
    if i < n {
      FirstValueIs(ts[..n], i, tag, typ);
    } else {
      NoValues(ts[..n], tag, typ);
    }
  }

  /** An Encrypt response answers with its last Data, when that is not empty, and its last nonce, by
      their tags. */
  lemma EncryptByTags(ts: seq<Tree>, i: nat)
    requires AllWellFormed(ts) && LastWith(ts, i, DATA, BYTE_STRING) && ts[i].val != []
    ensures var r := EncryptOutcome(Walk(EncodeAll(ts)));
      && r.Encrypted? && r.ciphertext == ts[i].val
      && (NoneWith(ts, IV_COUNTER_NONCE, BYTE_STRING) ==> r.iv == [])
      && forall j: nat | LastWith(ts, j, IV_COUNTER_NONCE, BYTE_STRING) :: r.iv == ts[j].val
  {
    hide Values, Walk, EncodeAll, Heads, NoneWith, EncryptOutcome;
    WalkForest(ts);
    LastValue(ts, i, DATA, BYTE_STRING);
    NonceOf(ts);
    EncryptedBy(Heads(ts), ts[i].val);
  }

  lemma EncryptedBy(items: seq<Decoded>, data: Bytes)
    requires data != [] && var vs := Values(items, DATA, BYTE_STRING); vs != [] && vs[|vs| - 1] == data
    ensures EncryptOutcome(Walked(items, AtEnd)) ==
      Encrypted(data, Last(Values(items, IV_COUNTER_NONCE, BYTE_STRING)))
  {
    hide Values;
    var vs := Values(items, DATA, BYTE_STRING);
    assert vs[|vs| - 1] in vs;
  }

  /** Without any Data the ciphertext is missing. */
  lemma NothingEncrypted(ts: seq<Tree>)
    requires AllWellFormed(ts) && NoneWith(ts, DATA, BYTE_STRING)
    ensures EncryptOutcome(Walk(EncodeAll(ts))) == MissingCiphertext
  {
    hide Values, Walk, EncodeAll, Heads;
    WalkForest(ts);
    NoValues(ts, DATA, BYTE_STRING);
  }

  lemma NonceOf(ts: seq<Tree>)
    ensures NoneWith(ts, IV_COUNTER_NONCE, BYTE_STRING) ==>
      Last(Values(Heads(ts), IV_COUNTER_NONCE, BYTE_STRING)) == []
    ensures forall j: nat | LastWith(ts, j, IV_COUNTER_NONCE, BYTE_STRING) ::
      Last(Values(Heads(ts), IV_COUNTER_NONCE, BYTE_STRING)) == ts[j].val
  {
    hide Values, Heads;
    if NoneWith(ts, IV_COUNTER_NONCE, BYTE_STRING) {
      NoValues(ts, IV_COUNTER_NONCE, BYTE_STRING);
    }
    forall j: nat | LastWith(ts, j, IV_COUNTER_NONCE, BYTE_STRING)
      ensures Last(Values(Heads(ts), IV_COUNTER_NONCE, BYTE_STRING)) == ts[j].val
    {
      LastValue(ts, j, IV_COUNTER_NONCE, BYTE_STRING);
    }
  }

  /** The other two parsers answer with the first item of their tag and type. */
  lemma FirstByTag(ts: seq<Tree>, i: nat, tag: nat, typ: byte)
    requires AllWellFormed(ts) && typ != STRUCTURE
    ensures FirstWith(ts, i, tag, typ) ==> FirstOutcome(Walk(EncodeAll(ts)), tag, typ) == Value(ts[i].val)
    ensures NoneWith(ts, tag, typ) ==> FirstOutcome(Walk(EncodeAll(ts)), tag, typ) == MissingValue
  {
    hide Values, Walk, EncodeAll, Heads;
    WalkForest(ts);
    if FirstWith(ts, i, tag, typ) {
      FirstValueIs(ts, i, tag, typ);
    }
    if NoneWith(ts, tag, typ) {
      NoValues(ts, tag, typ);
    }
  }

  // ---- Reading from the connection ------------------------------------------------------

  /** An `io.Reader` over the bytes that remain to be read. */
  class Reader {
    var rest: Bytes

    constructor (bytes: Bytes)
      ensures rest == bytes
    {
      rest := bytes;
    }

    /** `io.ReadFull`; a short stream is drained and reported. */
    method ReadFull(n: nat) returns (ok: bool, bytes: Bytes)
      modifies this
      ensures ok <==> n <= |old(rest)|
      ensures ok ==> bytes == old(rest)[..n] && rest == old(rest)[n..]
      ensures !ok ==> rest == []
    {
      ok := n <= |rest|;
      var k := if ok then n else |rest|;
      bytes, rest := rest[..k], rest[k..];
    }

    /** `readTTLV`: takes one whole padded item, and gives its header and unpadded value. */
    method ReadTTLV() returns (ok: bool, item: Bytes)
      modifies this
      ensures ok <==> HoldsItem(old(rest))
      ensures ok ==> item == FirstItem(old(rest)) && rest == AfterItem(old(rest))
    {
      ghost var stream := rest;
      var header, body;
      ok, header := ReadFull(8);
      if !ok {
        item := [];
        return;
      }
      assert header[4..8] == stream[4..8];
      var length := ReadWord32(header[4..8]);
      ok, body := ReadFull(PaddedLen(length));
      if !ok {
        item := [];
        return;
      }
      assert body == stream[8..8 + PaddedLen(length)];
      item := header + body[..length];
      assert item == stream[..8 + length];
      assert rest == stream[8 + PaddedLen(length)..];
    }

    /** The receiving half of `exchange`: one item is read and its payload extracted; a stream too
        short for an item is an error. */
    method ReceiveResponse() returns (r: Received)
      modifies this
      ensures r.ReadFailed? <==> !HoldsItem(old(rest))
      ensures r.Answer? ==> r.extracted == Extract(FirstItem(old(rest))) && rest == AfterItem(old(rest))
    {
      var ok, item := ReadTTLV();
      if !ok {
        return ReadFailed;
      }
      var extracted := ExtractResponsePayload(item);
      r := Answer(extracted);
    }
  }

  datatype Received = ReadFailed | Answer(extracted: Extracted)

  /** A whole padded item stands at the front of the stream. */
  predicate HoldsItem(stream: Bytes) {
    |stream| >= 8 && |stream| >= 8 + PaddedLen(ReadWord32(stream[4..8]))
  }

  /** Its header and value, without the padding. */
  function FirstItem(stream: Bytes): Bytes
    requires HoldsItem(stream)
  {
    stream[..8 + ReadWord32(stream[4..8])]
  }

  function AfterItem(stream: Bytes): Bytes
    requires HoldsItem(stream)
  {
    stream[8 + PaddedLen(ReadWord32(stream[4..8]))..]
  }

  /** On a stream that starts with any response tree, exactly that item is consumed and the answer is
      the tree's. */
  lemma ReceivedTree(msg: Tree, tail: Bytes)
    requires WellFormed(msg) && msg.Node?
    ensures var stream := EncodeTree(msg) + tail;
      HoldsItem(stream) && AfterItem(stream) == tail && Extract(FirstItem(stream)) == TreeExtract(msg)
  {
    hide PaddedLen, ReadWord32, EncodeTree, Extract;
    FramedTree(msg, tail);
    ExtractOfTree(msg, []);
    assert EncodeTree(msg) + [] == EncodeTree(msg);
  }

  /** For every stream: if the length of its first item and of every batch item in it is a multiple of
      8, the answer is no panic. */
  lemma AlignedResponse(stream: Bytes)
    requires HoldsItem(stream) && ReadWord32(stream[4..8]) % 8 == 0
    requires var val := stream[8..8 + ReadWord32(stream[4..8])];
      forall d :: d in Walk(val).items && IsBatchItem(d) ==> |d.val| % 8 == 0
    ensures Extract(FirstItem(stream)) != Panic
  {
    hide ReadWord32, ReadTag24, Walk, PaddedLen, ScanMessage;
    var n := ReadWord32(stream[4..8]);
    var item := FirstItem(stream);
    assert item[4..8] == stream[4..8] && item[8..8 + n] == stream[8..8 + n];
    AlignedStaysInside(stream[8..8 + n]);
    AlignedMessageScan(Walk(stream[8..8 + n]));
  }

  /** A response message whose one item has a value of any other length: reading the stream drops the
      padding, and the parser panics. */
  lemma UnpaddedResponsePanics(v: Bytes, tail: Bytes)
    requires |v| % 8 != 0 && |v| + 8 < LENGTH_LIMIT
    ensures var stream := Encode(RESPONSE_MESSAGE, STRUCTURE, Header(DATA, BYTE_STRING, |v|) + v) + tail;
      HoldsItem(stream) && Extract(FirstItem(stream)) == Panic
  {
    hide DecodeTTLV, Header, Encode, ReadWord32, ReadTag24, PaddedLen;
    var val := Header(DATA, BYTE_STRING, |v|) + v;
    FramedItem(RESPONSE_MESSAGE, STRUCTURE, val, tail);
    DecodeEncode(DATA, BYTE_STRING, v, []);
    WalkStep(val);
    PaddingIsLonger(|v|);
  }

  lemma PaddingIsLonger(n: nat)
    requires n % 8 != 0
    ensures PaddedLen(n + 8) > n + 8
  {
  }

  /** Such a stream, byte by byte. */
  const UNPADDED: Bytes := [
    0x42, 0x00, 0x7B, 0x01, 0, 0, 0, 9,
    0x42, 0x00, 0xC2, 0x08, 0, 0, 0, 1,
    7, 0, 0, 0, 0, 0, 0, 0]

  lemma UnpaddedPanics()
    ensures HoldsItem(UNPADDED) && Extract(FirstItem(UNPADDED)) == Panic
  {
    UnpaddedBytes();
    hide Extract, HoldsItem, FirstItem, Encode, Header;
    UnpaddedResponsePanics([7], []);
    var whole := Encode(RESPONSE_MESSAGE, STRUCTURE, Header(DATA, BYTE_STRING, 1) + [7]);
    assert whole + [] == whole;
  }

  lemma UnpaddedBytes()
    ensures UNPADDED == Encode(RESPONSE_MESSAGE, STRUCTURE, Header(DATA, BYTE_STRING, 1) + [7])
  {
    var inner := Header(DATA, BYTE_STRING, 1);
    assert inner == [0x42, 0x00, 0xC2, 0x08, 0, 0, 0, 1];
    var outer := Header(RESPONSE_MESSAGE, STRUCTURE, 9);
    assert outer == [0x42, 0x00, 0x7B, 0x01, 0, 0, 0, 9];
    hide Header;
    assert Zeros(7) == [0, 0, 0, 0, 0, 0, 0];
    assert |inner + [7]| == 9 && PaddedLen(9) == 16;
  }

  /** What `readTTLV` cuts off the front of a stream. */
  lemma FramedItem(tag: nat, typ: byte, val: Bytes, tail: Bytes)
    requires tag < TAG_LIMIT && |val| < LENGTH_LIMIT
    ensures var stream := Encode(tag, typ, val) + tail;
      |stream| >= 8 + PaddedLen(|val|) && ReadWord32(stream[4..8]) == |val| &&
      stream[..8 + |val|] == Header(tag, typ, |val|) + val && stream[8 + PaddedLen(|val|)..] == tail &&
      DecodeTTLV(stream[..8 + |val|]) == Item(tag, typ, val)
  {
    hide DecodeTTLV, PaddedLen, Header, ReadWord32;
    var stream := Encode(tag, typ, val) + tail;
    HeaderFields(tag, typ, |val|);
    DecodeEncode(tag, typ, val, tail);
    assert stream[4..8] == Header(tag, typ, |val|)[4..8];
    assert stream[..8 + |val|] == Header(tag, typ, |val|) + val;
  }

  lemma FramedTree(msg: Tree, tail: Bytes)
    requires WellFormed(msg) && msg.Node?
    ensures var stream := EncodeTree(msg) + tail;
      var n := |EncodeAll(msg.children)|;
      |stream| >= 8 + PaddedLen(n) && ReadWord32(stream[4..8]) == n &&
      stream[..8 + n] == EncodeTree(msg) && stream[8 + PaddedLen(n)..] == tail
  {
    var val := EncodeAll(msg.children);
    FramedItem(msg.tag, STRUCTURE, val, tail);
    ForestLength(msg.children);
    assert PaddedLen(|val|) == |val|;
    assert EncodeTree(msg) == Header(msg.tag, STRUCTURE, |val|) + val;
  }

  // ---- Requests -------------------------------------------------------------------------

  function EncodeStructure(tag: nat, body: Bytes): Bytes { Encode(tag, STRUCTURE, body) }
  function EncodeInteger(tag: nat, v: nat): Bytes { Encode(tag, INTEGER, Word32(v)) }
  function EncodeEnumeration(tag: nat, v: nat): Bytes { Encode(tag, ENUMERATION, Word32(v)) }
  function EncodeText(tag: nat, s: Bytes): Bytes { Encode(tag, TEXT_STRING, s) }
  function EncodeBytes(tag: nat, b: Bytes): Bytes { Encode(tag, BYTE_STRING, b) }

  function Concat(parts: seq<Bytes>): Bytes {
    if parts == [] then [] else parts[0] + Concat(parts[1..])
  }

  lemma {:induction false} ConcatSnoc(parts: seq<Bytes>, last: Bytes)
    ensures Concat(parts + [last]) == Concat(parts) + last
  {
    if parts != [] {
      assert (parts + [last])[1..] == parts[1..] + [last];
      ConcatSnoc(parts[1..], last);
    }
  }

  /** `concat` appends the parts to one buffer. */
  method ConcatParts(parts: seq<Bytes>) returns (out: Bytes)
    ensures out == Concat(parts)
  {
    out := [];
    for i := 0 to |parts|
      invariant out == Concat(parts[..i])
    {
      assert parts[..i + 1] == parts[..i] + [parts[i]];
      ConcatSnoc(parts[..i], parts[i]);
      out := out + parts[i];
    }
    assert parts[..|parts|] == parts;
  }

  function EncodeRequestMessage(operation: nat, payload: Bytes): Bytes {
    var header := EncodeStructure(REQUEST_HEADER, Concat([
      EncodeStructure(PROTOCOL_VERSION, Concat([
        EncodeInteger(PROTOCOL_VERSION_MAJOR, 1), EncodeInteger(PROTOCOL_VERSION_MINOR, 4)])),
      EncodeInteger(BATCH_COUNT, 1)]));
    var batchItem := EncodeStructure(BATCH_ITEM, Concat([
      EncodeEnumeration(OPERATION, operation), EncodeStructure(REQUEST_PAYLOAD, payload)]));
    EncodeStructure(REQUEST_MESSAGE, Concat([header, batchItem]))
  }

  function EncodeParameters(): Bytes {
    EncodeStructure(CRYPTOGRAPHIC_PARAMETERS, Concat([
      EncodeEnumeration(BLOCK_CIPHER_MODE, MODE_GCM), EncodeEnumeration(CRYPTOGRAPHIC_ALGORITHM, ALG_AES)]))
  }

  function EncodeEncryptRequest(keyId: Bytes, plaintext: Bytes): Bytes {
    Concat([EncodeText(UNIQUE_IDENTIFIER, keyId), EncodeParameters(), EncodeBytes(DATA, plaintext)])
  }

  function EncodeDecryptRequest(keyId: Bytes, ciphertext: Bytes, iv: Bytes): Bytes {
    Concat([EncodeText(UNIQUE_IDENTIFIER, keyId), EncodeParameters(), EncodeBytes(DATA, ciphertext),
            EncodeBytes(IV_COUNTER_NONCE, iv)])
  }

  /** The bytes of "Name". */
  const NAME: Bytes := [78, 97, 109, 101]

  function EncodeLocateRequest(name: Bytes): Bytes {
    EncodeStructure(ATTRIBUTE, Concat([EncodeText(ATTRIBUTE_NAME, NAME), EncodeText(ATTRIBUTE_VALUE, name)]))
  }

  datatype Request =
    | Encrypt(keyId: Bytes, plaintext: Bytes)
    | Decrypt(keyId: Bytes, ciphertext: Bytes, iv: Bytes)
    | Locate(name: Bytes)

  /** The bytes each client call puts on the wire. */
  function Wire(r: Request): Bytes {
    match r
    case Encrypt(k, p) => EncodeRequestMessage(OP_ENCRYPT, EncodeEncryptRequest(k, p))
    case Decrypt(k, c, iv) => EncodeRequestMessage(OP_DECRYPT, EncodeDecryptRequest(k, c, iv))
    case Locate(n) => EncodeRequestMessage(OP_LOCATE, EncodeLocateRequest(n))
  }

  // The same requests as trees.

  function HeaderTree(): Tree {
    Node(REQUEST_HEADER, [
      Node(PROTOCOL_VERSION,
        [Leaf(PROTOCOL_VERSION_MAJOR, INTEGER, Word32(1)), Leaf(PROTOCOL_VERSION_MINOR, INTEGER, Word32(4))]),
      Leaf(BATCH_COUNT, INTEGER, Word32(1))])
  }

  function MessageTree(operation: nat, payload: seq<Tree>): Tree {
    Node(REQUEST_MESSAGE, [HeaderTree(),
      Node(BATCH_ITEM, [Leaf(OPERATION, ENUMERATION, Word32(operation)), Node(REQUEST_PAYLOAD, payload)])])
  }

  function ParametersTree(): Tree {
    Node(CRYPTOGRAPHIC_PARAMETERS, [
      Leaf(BLOCK_CIPHER_MODE, ENUMERATION, Word32(MODE_GCM)),
      Leaf(CRYPTOGRAPHIC_ALGORITHM, ENUMERATION, Word32(ALG_AES))])
  }

  function PayloadTrees(r: Request): seq<Tree> {
    match r
    case Encrypt(k, p) =>
      [Leaf(UNIQUE_IDENTIFIER, TEXT_STRING, k), ParametersTree(), Leaf(DATA, BYTE_STRING, p)]
    case Decrypt(k, c, iv) =>
      [Leaf(UNIQUE_IDENTIFIER, TEXT_STRING, k), ParametersTree(), Leaf(DATA, BYTE_STRING, c),
       Leaf(IV_COUNTER_NONCE, BYTE_STRING, iv)]
    case Locate(n) =>
      [Node(ATTRIBUTE, [Leaf(ATTRIBUTE_NAME, TEXT_STRING, NAME), Leaf(ATTRIBUTE_VALUE, TEXT_STRING, n)])]
  }

  function OperationOf(r: Request): nat {
    match r
    case Encrypt(_, _) => OP_ENCRYPT
    case Decrypt(_, _, _) => OP_DECRYPT
    case Locate(_) => OP_LOCATE
  }

  lemma {:induction false} ConcatIsForest(parts: seq<Bytes>, ts: seq<Tree>)
    requires |parts| == |ts| && forall i :: 0 <= i < |ts| ==> parts[i] == EncodeTree(ts[i])
    ensures Concat(parts) == EncodeAll(ts)
  {
    hide EncodeTree;
    if ts != [] { ConcatIsForest(parts[1..], ts[1..]); }
  }

  lemma MessageIsTree(operation: nat, payload: seq<Tree>)
    ensures EncodeRequestMessage(operation, EncodeAll(payload)) == EncodeTree(MessageTree(operation, payload))
  {
    hide Encode, Word32, Concat, EncodeAll;
    var version := [Leaf(PROTOCOL_VERSION_MAJOR, INTEGER, Word32(1)), Leaf(PROTOCOL_VERSION_MINOR, INTEGER, Word32(4))];
    PairIsForest(EncodeInteger(PROTOCOL_VERSION_MAJOR, 1), EncodeInteger(PROTOCOL_VERSION_MINOR, 4),
                 version[0], version[1]);
    PairIsForest(EncodeStructure(PROTOCOL_VERSION, EncodeAll(version)), EncodeInteger(BATCH_COUNT, 1),
                 HeaderTree().children[0], HeaderTree().children[1]);
    var item := [Leaf(OPERATION, ENUMERATION, Word32(operation)), Node(REQUEST_PAYLOAD, payload)];
    PairIsForest(EncodeEnumeration(OPERATION, operation), EncodeStructure(REQUEST_PAYLOAD, EncodeAll(payload)),
                 item[0], item[1]);
    PairIsForest(EncodeStructure(REQUEST_HEADER, EncodeAll(HeaderTree().children)),
                 EncodeStructure(BATCH_ITEM, EncodeAll(item)), HeaderTree(), Node(BATCH_ITEM, item));
  }

  lemma PairIsForest(a: Bytes, b: Bytes, s: Tree, t: Tree)
    requires a == EncodeTree(s) && b == EncodeTree(t)
    ensures Concat([a, b]) == EncodeAll([s, t])
  {
    hide EncodeTree, Concat, EncodeAll;
    ConcatIsForest([a, b], [s, t]);
  }

  lemma ParametersIsTree()
    ensures EncodeParameters() == EncodeTree(ParametersTree())
  {
    hide Encode, Word32;
    ConcatIsForest([EncodeEnumeration(BLOCK_CIPHER_MODE, MODE_GCM),
                    EncodeEnumeration(CRYPTOGRAPHIC_ALGORITHM, ALG_AES)],
                   ParametersTree().children);
  }

  function RequestTree(r: Request): Tree {
    MessageTree(OperationOf(r), PayloadTrees(r))
  }

  /** Each request on the wire is the encoding of one tree. */
  lemma WireIsTree(r: Request)
    ensures Wire(r) == EncodeTree(RequestTree(r))
    ensures |Wire(r)| % 8 == 0
  {
    hide Encode, EncodeRequestMessage, MessageTree, EncodeParameters, ParametersTree;
    MessageIsTree(OperationOf(r), PayloadTrees(r));
    TreeLength(RequestTree(r));
    ParametersIsTree();
    var ts := PayloadTrees(r);
    match r {
      case Encrypt(k, p) =>
        ConcatIsForest([EncodeText(UNIQUE_IDENTIFIER, k), EncodeParameters(), EncodeBytes(DATA, p)], ts);
      case Decrypt(k, c, iv) =>
        ConcatIsForest([EncodeText(UNIQUE_IDENTIFIER, k), EncodeParameters(), EncodeBytes(DATA, c),
                        EncodeBytes(IV_COUNTER_NONCE, iv)], ts);
      case Locate(n) =>
        ConcatIsForest([EncodeText(ATTRIBUTE_NAME, NAME), EncodeText(ATTRIBUTE_VALUE, n)], ts[0].children);
        ConcatIsForest([EncodeLocateRequest(n)], ts);
        assert Concat([EncodeLocateRequest(n)]) == EncodeLocateRequest(n);
    }
  }

  /** Tags in range and structure types only at nodes. */
  predicate Shaped(t: Tree) {
    t.tag < TAG_LIMIT && (t.Leaf? ==> t.typ != STRUCTURE) && (t.Node? ==> forall c :: c in t.children ==> Shaped(c))
  }

  /** A tree whose encoding fits in a 32-bit length is well formed throughout. */
  lemma {:induction false} SmallIsWellFormed(t: Tree)
    requires Shaped(t) && |EncodeTree(t)| < LENGTH_LIMIT
    ensures WellFormed(t)
  {
    TreeLength(t);
    assert |Head(t).val| < |EncodeTree(t)|;
    if t.Node? {
      forall c | c in t.children ensures WellFormed(c) {
        PartFits(t.children, c);
        SmallIsWellFormed(c);
      }
    }
  }

  lemma {:induction false} PartFits(ts: seq<Tree>, t: Tree)
    requires t in ts
    ensures |EncodeTree(t)| <= |EncodeAll(ts)|
  {
    hide EncodeTree;
    if t != ts[0] { PartFits(ts[1..], t); }
  }

  lemma RequestShaped(r: Request)
    ensures Shaped(RequestTree(r))
  {
    var payload := PayloadTrees(r);
    assert Shaped(ParametersTree());
    assert forall t :: t in payload ==> Shaped(t);
    assert Shaped(HeaderTree().children[0]);
    assert Shaped(HeaderTree());
    var item := Node(BATCH_ITEM, [Leaf(OPERATION, ENUMERATION, Word32(OperationOf(r))),
      Node(REQUEST_PAYLOAD, payload)]);
    assert Shaped(item.children[1]);
    assert Shaped(item);
  }

  /** Request framing is injective: equal bytes come from the same call with the same operation,
      key id, data and IV. */
  lemma WireInjective(r: Request, s: Request)
    requires Wire(r) == Wire(s) && |Wire(r)| < LENGTH_LIMIT
    ensures r == s
  {
    hide Wire, EncodeTree, WellFormed, Shaped, ParametersTree, HeaderTree;
    WireIsTree(r);
    WireIsTree(s);
    RequestShaped(r);
    RequestShaped(s);
    SmallIsWellFormed(RequestTree(r));
    SmallIsWellFormed(RequestTree(s));
    TreeInjective(RequestTree(r), RequestTree(s));
    SamePayloadTrees(r, s);
  }

  lemma SamePayloadTrees(r: Request, s: Request)
    requires RequestTree(r) == RequestTree(s)
    ensures r == s
  {
    var p, q := PayloadTrees(r), PayloadTrees(s);
    var bi, bj := RequestTree(r).children[1], RequestTree(s).children[1];
    assert bi.children[1].children == p && bj.children[1].children == q;
    assert p == q;
    assert p[0] == q[0];
    match r {
      case Locate(n) => assert p[0].children[1] == q[0].children[1];
      case Encrypt(k, d) => assert p[2] == q[2];
      case Decrypt(k, c, iv) => assert p[2] == q[2] && p[3] == q[3];
    }
  }
}
