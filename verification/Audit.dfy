/** The tenant hash chain of internal/audit/audit.go: what is hashed, the chain walk, and what
    an accepted chain pins down.

    SHA-256 with hex encoding is a parameter.  Nothing is assumed of it beyond the shape of a
    digest, except that the payloads under discussion do not collide; a hash that never
    collides at all cannot exist, and is not needed.
  */
module Audit {
  import opened CanonicalJson

  datatype Entry = Entry(
    tenant: string, actor: string, actorType: string, action: string,
    resourceType: string, resourceId: string, metadata: Metadata, ip: string, userAgent: string)

  /** A stored row, read back field by field as it was hashed. */
  datatype Row = Row(entry: Entry, prevHash: string, entryHash: string)

  /** The library functions the chain is built over. */
  datatype Primitives = Primitives(sha256Hex: string -> string, quote: string -> string)

  // ---- What is hashed -------------------------------------------------------------------

  ghost function Fields(lib: Primitives, prev: string, e: Entry): seq<string> {
    [prev, e.tenant, e.actor, e.actorType, e.action, e.resourceType, e.resourceId,
     CanonicalText(e.metadata, lib.quote), e.ip, e.userAgent]
  }

  /** The fields separated by single pipes. */
  function Joined(fields: seq<string>): string
    requires fields != []
  {
    if |fields| == 1 then fields[0] else fields[0] + "|" + Joined(fields[1..])
  }

  ghost function Payload(lib: Primitives, prev: string, e: Entry): string {
    Joined(Fields(lib, prev, e))
  }

  ghost function EntryHash(lib: Primitives, prev: string, e: Entry): string {
    lib.sha256Hex(Payload(lib, prev, e))
  }

  /** `computeHash`. */
  method ComputeHash(lib: Primitives, prev: string, e: Entry) returns (digest: string)
    ensures digest == EntryHash(lib, prev, e)
  {
    var metadata := CanonicalJSON(e.metadata, lib.quote);
    var fields := [prev, e.tenant, e.actor, e.actorType, e.action, e.resourceType, e.resourceId,
                   metadata, e.ip, e.userAgent];
    var written := fields[|fields| - 1];
    var i := |fields| - 1;
    while i > 0
      invariant 0 <= i < |fields|
      invariant written == Joined(fields[i..])
    {
      i := i - 1;
      assert fields[i..][1..] == fields[i + 1..];
      written := fields[i] + "|" + written;
    }
    digest := lib.sha256Hex(written);
  }

  // ---- The chain and its verifier -------------------------------------------------------

  ghost function PrevOf(rows: seq<Row>, i: nat): string
    requires i <= |rows|
  {
    if i == 0 then "" else rows[i - 1].entryHash
  }

  ghost predicate Linked(lib: Primitives, rows: seq<Row>, i: nat)
    requires i < |rows|
  {
    rows[i].prevHash == PrevOf(rows, i) && rows[i].entryHash == EntryHash(lib, PrevOf(rows, i), rows[i].entry)
  }

  /** One unforked chain from the empty hash. */
  ghost predicate IsChain(lib: Primitives, rows: seq<Row>) {
    forall i :: 0 <= i < |rows| ==> Linked(lib, rows, i)
  }

  datatype Verdict = Intact | PrevMismatch(at: nat) | HashMismatch(at: nat)

  /** `VerifyChain` accepts exactly the chains, and otherwise names the first row out of place. */
  method VerifyChain(lib: Primitives, rows: seq<Row>) returns (v: Verdict)
    ensures v.Intact? <==> IsChain(lib, rows)
    ensures !v.Intact? ==> v.at < |rows| && IsChain(lib, rows[..v.at]) && !Linked(lib, rows, v.at)
    ensures v.PrevMismatch? ==> rows[v.at].prevHash != PrevOf(rows, v.at)
    ensures v.HashMismatch? ==> rows[v.at].prevHash == PrevOf(rows, v.at)
  {
    var prev := "";
    for i := 0 to |rows|
      invariant prev == PrevOf(rows, i)
      invariant forall k :: 0 <= k < i ==> Linked(lib, rows, k)
    {
      assert IsChain(lib, rows[..i]) by {
        forall k | 0 <= k < i ensures Linked(lib, rows[..i], k) { assert Linked(lib, rows, k); }
      }
      if rows[i].prevHash != prev {
        assert !Linked(lib, rows, i);
        return PrevMismatch(i);
      }
      var digest := ComputeHash(lib, prev, rows[i].entry);
      if digest != rows[i].entryHash {
        assert !Linked(lib, rows, i);
        return HashMismatch(i);
      }
      prev := rows[i].entryHash;
    }
    return Intact;
  }

  lemma ChainExtend(lib: Primitives, rows: seq<Row>, row: Row)
    requires IsChain(lib, rows)
    requires row.prevHash == PrevOf(rows, |rows|)
    requires row.entryHash == EntryHash(lib, row.prevHash, row.entry)
    ensures IsChain(lib, rows + [row])
  {
    var all := rows + [row];
    forall i | 0 <= i < |all| ensures Linked(lib, all, i) {
      if i < |rows| { assert Linked(lib, rows, i); }
    }
  }

  // ---- Tamper evidence ------------------------------------------------------------------

  predicate PipeFree(s: string) {
    '|' !in s
  }

  /** Digests are non-empty and hold no pipe (they are hexadecimal text). */
  ghost predicate DigestShape(lib: Primitives) {
    forall x :: lib.sha256Hex(x) != "" && PipeFree(lib.sha256Hex(x))
  }

  ghost function RowPayload(lib: Primitives, row: Row): string {
    Payload(lib, row.prevHash, row.entry)
  }

  /** No payload of one list collides with a payload of the other. */
  ghost predicate CollisionFree(lib: Primitives, r: seq<Row>, s: seq<Row>) {
    forall i, j :: 0 <= i < |r| && 0 <= j < |s| &&
      lib.sha256Hex(RowPayload(lib, r[i])) == lib.sha256Hex(RowPayload(lib, s[j]))
      ==> RowPayload(lib, r[i]) == RowPayload(lib, s[j])
  }

  /** Everything up to the first pipe is recovered from the text. */
  lemma {:induction false} SplitFirst(a: string, x: string, b: string, y: string)
    requires PipeFree(a) && PipeFree(b)
    requires a + "|" + x == b + "|" + y
    ensures a == b && x == y
  {
    var s := a + "|" + x;
    var t := b + "|" + y;
    assert forall i :: 0 <= i < |a| ==> s[i] == a[i];
    assert forall i :: 0 <= i < |b| ==> t[i] == b[i];
    assert s[|a|] == '|' && t[|b|] == '|';
    assert |a| == |b|;
    assert s[..|a|] == a && t[..|b|] == b;
    assert s[|a| + 1..] == x && t[|b| + 1..] == y;
  }

  lemma {:induction false} SplitLast(x: string, a: string, y: string, b: string)
    requires PipeFree(a) && PipeFree(b)
    requires x + "|" + a == y + "|" + b
    ensures a == b && x == y
  {
    var s := x + "|" + a;
    var t := y + "|" + b;
    assert forall i :: |x| < i < |s| ==> s[i] == a[i - |x| - 1];
    assert forall i :: |y| < i < |t| ==> t[i] == b[i - |y| - 1];
    assert s[|x|] == '|' && t[|y|] == '|';
    assert |x| == |y|;
    assert s[..|x|] == x && t[..|y|] == y;
    assert s[|x| + 1..] == a && t[|y| + 1..] == b;
  }

  ghost predicate PipeFreeOutsideMetadata(e: Entry) {
    PipeFree(e.tenant) && PipeFree(e.actor) && PipeFree(e.actorType) && PipeFree(e.action) &&
    PipeFree(e.resourceType) && PipeFree(e.resourceId) && PipeFree(e.ip) && PipeFree(e.userAgent)
  }

  /** All fields but the metadata value, which is kept as its canonical text. */
  ghost predicate SameFields(lib: Primitives, d: Entry, e: Entry) {
    d.(metadata := e.metadata) == e && CanonicalText(d.metadata, lib.quote) == CanonicalText(e.metadata, lib.quote)
  }

  /** Joined fields split back, from the left while they hold no pipe. */
  lemma {:induction false} JoinedHeads(f: seq<string>, g: seq<string>, n: nat)
    requires n < |f| && n < |g| && Joined(f) == Joined(g)
    requires forall i :: 0 <= i < n ==> PipeFree(f[i]) && PipeFree(g[i])
    ensures f[..n] == g[..n] && Joined(f[n..]) == Joined(g[n..])
  {
    if n > 0 {
      SplitFirst(f[0], Joined(f[1..]), g[0], Joined(g[1..]));
      JoinedHeads(f[1..], g[1..], n - 1);
      assert f[..n] == [f[0]] + f[1..][..n - 1] && g[..n] == [g[0]] + g[1..][..n - 1];
      assert f[1..][n - 1..] == f[n..] && g[1..][n - 1..] == g[n..];
    }
  }

  /** A payload determines the previous hash. */
  lemma PayloadPrev(lib: Primitives, p: string, d: Entry, q: string, e: Entry)
    requires PipeFree(p) && PipeFree(q) && Payload(lib, p, d) == Payload(lib, q, e)
    ensures p == q
  {
    var f, g := Fields(lib, p, d), Fields(lib, q, e);
    SplitFirst(f[0], Joined(f[1..]), g[0], Joined(g[1..]));
  }

  /** A payload determines every field when only the metadata may hold pipes. */
  lemma PayloadFields(lib: Primitives, p: string, d: Entry, q: string, e: Entry)
    requires PipeFree(p) && PipeFree(q) && Payload(lib, p, d) == Payload(lib, q, e)
    requires PipeFreeOutsideMetadata(d) && PipeFreeOutsideMetadata(e)
    ensures SameFields(lib, d, e)
  {
    var f, g := Fields(lib, p, d), Fields(lib, q, e);
    JoinedHeads(f, g, 7);
    assert forall i :: 0 <= i < 7 ==> f[i] == f[..7][i] && g[i] == g[..7][i];
    JoinedTail(f[7..]);
    JoinedTail(g[7..]);
    SplitLast(f[7] + "|" + f[8], f[9], g[7] + "|" + g[8], g[9]);
    SplitLast(f[7], f[8], g[7], g[8]);
    FieldsEqual(lib, p, d, q, e);
  }

  lemma FieldsEqual(lib: Primitives, p: string, d: Entry, q: string, e: Entry)
    requires forall i :: 0 <= i < 10 ==> Fields(lib, p, d)[i] == Fields(lib, q, e)[i]
    ensures SameFields(lib, d, e)
  {
    var f, g := Fields(lib, p, d), Fields(lib, q, e);
    assert f[1] == g[1] && f[2] == g[2] && f[3] == g[3] && f[4] == g[4] && f[5] == g[5];
    assert f[6] == g[6] && f[7] == g[7] && f[8] == g[8] && f[9] == g[9];
  }

  lemma JoinedTail(f: seq<string>)
    requires |f| == 3
    ensures Joined(f) == f[0] + "|" + f[1] + "|" + f[2]
  {
    assert Joined(f[1..][1..]) == f[2];
    assert Joined(f[1..]) == f[1] + "|" + f[2];
  }

  ghost predicate SamePayload(lib: Primitives, a: Row, b: Row) {
    a.prevHash == b.prevHash && a.entryHash == b.entryHash &&
    RowPayload(lib, a) == RowPayload(lib, b)
  }

  lemma PrevShape(lib: Primitives, rows: seq<Row>, i: nat)
    requires DigestShape(lib) && IsChain(lib, rows) && i <= |rows|
    ensures PipeFree(PrevOf(rows, i)) && (PrevOf(rows, i) == "" <==> i == 0)
  {
    if i > 0 { assert Linked(lib, rows, i - 1); }
  }

  /** One step back from rows with equal hashes. */
  lemma SameHashSamePayload(lib: Primitives, r: seq<Row>, m: nat, s: seq<Row>, n: nat)
    requires DigestShape(lib) && IsChain(lib, r) && IsChain(lib, s)
    requires m < |r| && n < |s| && r[m].entryHash == s[n].entryHash
    requires CollisionFree(lib, r, s)
    ensures SamePayload(lib, r[m], s[n]) && PrevOf(r, m) == PrevOf(s, n)
  {
    assert Linked(lib, r, m) && Linked(lib, s, n);
    assert RowPayload(lib, r[m]) == RowPayload(lib, s[n]);
    PrevShape(lib, r, m);
    PrevShape(lib, s, n);
    PayloadPrev(lib, r[m].prevHash, r[m].entry, s[n].prevHash, s[n].entry);
  }

  ghost predicate SamePayloads(lib: Primitives, r: seq<Row>, s: seq<Row>, n: nat)
    requires n <= |r| && n <= |s|
  {
    forall i :: 0 <= i < n ==> SamePayload(lib, r[i], s[i])
  }

  lemma SamePayloadsStep(lib: Primitives, r: seq<Row>, s: seq<Row>, n: nat)
    requires n < |r| && n < |s| && SamePayloads(lib, r, s, n) && SamePayload(lib, r[n], s[n])
    ensures SamePayloads(lib, r, s, n + 1)
  {
  }

  lemma {:induction false} SamePrefix(lib: Primitives, r: seq<Row>, m: nat, s: seq<Row>, n: nat)
    requires DigestShape(lib) && IsChain(lib, r) && IsChain(lib, s)
    requires m <= |r| && n <= |s| && PrevOf(r, m) == PrevOf(s, n)
    requires CollisionFree(lib, r, s)
    ensures m == n && SamePayloads(lib, r, s, m)
  {
    hide IsChain, CollisionFree, DigestShape, PipeFree;
    PrevShape(lib, r, m);
    PrevShape(lib, s, n);
    if m > 0 {
      SameHashSamePayload(lib, r, m - 1, s, n - 1);
      SamePrefix(lib, r, m - 1, s, n - 1);
      SamePayloadsStep(lib, r, s, m - 1);
    }
  }

  /** Two accepted chains that end in the same hash are the same chain: as long, and with the
      same payload at every position, unless a payload of one collides with one of the other. */
  lemma SameTailSameChain(lib: Primitives, r: seq<Row>, s: seq<Row>)
    requires DigestShape(lib) && IsChain(lib, r) && IsChain(lib, s)
    requires PrevOf(r, |r|) == PrevOf(s, |s|)
    requires CollisionFree(lib, r, s)
    ensures |r| == |s| && SamePayloads(lib, r, s, |r|)
  {
    SamePrefix(lib, r, |r|, s, |s|);
  }

  /** The same for the fields themselves, metadata as its canonical text, when no field of either
      history but the metadata holds a pipe. */
  lemma SameTailPlainFields(lib: Primitives, r: seq<Row>, s: seq<Row>)
    requires DigestShape(lib) && IsChain(lib, r) && IsChain(lib, s)
    requires PrevOf(r, |r|) == PrevOf(s, |s|)
    requires CollisionFree(lib, r, s)
    requires forall i :: 0 <= i < |r| ==> PipeFreeOutsideMetadata(r[i].entry)
    requires forall i :: 0 <= i < |s| ==> PipeFreeOutsideMetadata(s[i].entry)
    ensures SameHistories(lib, r, s)
  {
    SameTailSameChain(lib, r, s);
    forall i | 0 <= i < |r| ensures SameFields(lib, r[i].entry, s[i].entry) {
      assert SamePayload(lib, r[i], s[i]);
      assert Linked(lib, r, i);
      PrevShape(lib, r, i);
      PayloadFields(lib, r[i].prevHash, r[i].entry, s[i].prevHash, s[i].entry);
    }
  }

  ghost predicate SameHistories(lib: Primitives, r: seq<Row>, s: seq<Row>) {
    |r| == |s| && forall i :: 0 <= i < |r| ==> SameFields(lib, r[i].entry, s[i].entry)
  }
}
