/** Where the digest and the key lie in the 1536 bytes of a complex RTMP handshake, and what is signed. */
module Handshake {
  import opened Bytes
  import opened Buffers

  const SIZE: nat := 1536
  const BLOCK: nat := 764
  const DIGEST: nat := 32
  const KEY: nat := 128

  type Sum = s: seq<byte> | |s| == DIGEST witness seq(DIGEST, _ => 0)

  /** The keyed hash; its workings play no role. */
  type Hmac = (seq<byte>, seq<byte>) -> Sum

  datatype DigestBlock = DigestBlock(offset: nat, r0: seq<byte>, digest: seq<byte>, r1: seq<byte>)

  datatype KeyBlock = KeyBlock(offset: nat, r0: seq<byte>, key: seq<byte>, r1: seq<byte>)

  /** Schema 0 has the key block first, schema 1 the digest block. */
  datatype Hs = Hs(time: nat, version: nat, digest: DigestBlock, key: KeyBlock, digestFirst: bool)

  function ByteSum(offset: nat): nat {
    var w := WriteBe32(offset);
    Value(w[0]) + Value(w[1]) + Value(w[2]) + Value(w[3])
  }

  function DigestOffset(offset: nat): (o: nat)
    ensures o < BLOCK - DIGEST - 4
  {
    ByteSum(offset) % (BLOCK - DIGEST - 4)
  }

  function KeyOffset(offset: nat): (o: nat)
    ensures o < BLOCK - KEY - 4
  {
    ByteSum(offset) % (BLOCK - KEY - 4)
  }

  // ---- parsing

  function Word(b: seq<byte>, i: nat): (n: nat)
    requires i + 4 <= |b|
    ensures n < U32
  {
    Be32(b[i], b[i + 1], b[i + 2], b[i + 3])
  }

  function ParseDigest(b: seq<byte>): DigestBlock
    requires |b| == BLOCK
  {
    var at := 4 + DigestOffset(Word(b, 0));
    DigestBlock(Word(b, 0), b[4..at], b[at..at + DIGEST], b[at + DIGEST..])
  }

  function ParseKey(b: seq<byte>): KeyBlock
    requires |b| == BLOCK
  {
    var at := KeyOffset(Word(b, BLOCK - 4));
    KeyBlock(Word(b, BLOCK - 4), b[..at], b[at..at + KEY], b[at + KEY..BLOCK - 4])
  }

  function Parse(b: seq<byte>, digestFirst: bool): Hs
    requires |b| == SIZE
  {
    var first, second := b[8..8 + BLOCK], b[8 + BLOCK..];
    if digestFirst then Hs(Word(b, 0), Word(b, 4), ParseDigest(first), ParseKey(second), true)
    else Hs(Word(b, 0), Word(b, 4), ParseDigest(second), ParseKey(first), false)
  }

  // ---- putting together again

  function DigestBytes(d: DigestBlock, withDigest: bool): seq<byte> {
    WriteBe32(d.offset) + d.r0 + (if withDigest then d.digest else []) + d.r1
  }

  function KeyBytes(k: KeyBlock): seq<byte> {
    k.r0 + k.key + k.r1 + WriteBe32(k.offset)
  }

  function Joined(p: Hs, withDigest: bool): seq<byte> {
    var head := WriteBe32(p.time) + WriteBe32(p.version);
    if p.digestFirst then head + DigestBytes(p.digest, withDigest) + KeyBytes(p.key)
    else head + KeyBytes(p.key) + DigestBytes(p.digest, withDigest)
  }

  /** The random parts have the lengths that the offsets ask for. */
  predicate WellFormed(p: Hs) {
    && p.time < U32 && p.version < U32 && p.digest.offset < U32 && p.key.offset < U32
    && |p.digest.r0| == DigestOffset(p.digest.offset) && |p.digest.digest| == DIGEST
    && |p.digest.r0| + |p.digest.r1| == BLOCK - DIGEST - 4
    && |p.key.r0| == KeyOffset(p.key.offset) && |p.key.key| == KEY
    && |p.key.r0| + |p.key.r1| == BLOCK - KEY - 4
  }

  lemma WordBytes(b: seq<byte>, i: nat)
    requires i + 4 <= |b|
    ensures WriteBe32(Word(b, i)) == b[i..i + 4]
  {
    SplitBe32(b[i], b[i + 1], b[i + 2], b[i + 3]);
  }

  lemma WordOf(n: nat, b: seq<byte>, i: nat)
    requires n < U32 && i + 4 <= |b| && b[i..i + 4] == WriteBe32(n)
    ensures Word(b, i) == n
  {
    Be32Inverse(n);
    var w := b[i..i + 4];
    assert w[0] == b[i] && w[1] == b[i + 1] && w[2] == b[i + 2] && w[3] == b[i + 3];
  }

  lemma DigestRoundTrip(b: seq<byte>)
    requires |b| == BLOCK
    ensures DigestBytes(ParseDigest(b), true) == b
    ensures var at := 4 + DigestOffset(Word(b, 0)); DigestBytes(ParseDigest(b), false) == b[..at] + b[at + DIGEST..]
  {
    hide DigestOffset, Word;
    WordBytes(b, 0);
    var at := 4 + DigestOffset(Word(b, 0));
    assert b[0..4] + b[4..at] == b[..at];
    assert b[..at] + b[at..at + DIGEST] + b[at + DIGEST..] == b;
    assert b[..at] + [] + b[at + DIGEST..] == b[..at] + b[at + DIGEST..];
  }

  lemma KeyRoundTrip(b: seq<byte>)
    requires |b| == BLOCK
    ensures KeyBytes(ParseKey(b)) == b
  {
    hide KeyOffset, Word;
    WordBytes(b, BLOCK - 4);
    var at := KeyOffset(Word(b, BLOCK - 4));
    assert b[..at] + b[at..at + KEY] + b[at + KEY..BLOCK - 4] + b[BLOCK - 4..BLOCK] == b;
  }

  /** Where the digest is. */
  function DigestAt(b: seq<byte>, digestFirst: bool): (at: nat)
    requires |b| == SIZE
    ensures at + DIGEST <= SIZE
  {
    var block := if digestFirst then 8 else 8 + BLOCK;
    block + 4 + DigestOffset(Word(b[block..block + BLOCK], 0))
  }

  /** Every 1536 bytes are put together again as they were, in either schema; without the digest, exactly
      its 32 bytes are missing. */
  lemma ParseThenJoin(b: seq<byte>, digestFirst: bool)
    requires |b| == SIZE
    ensures Joined(Parse(b, digestFirst), true) == b
    ensures var at := DigestAt(b, digestFirst); Joined(Parse(b, digestFirst), false) == b[..at] + b[at + DIGEST..]
  {
    hide DigestOffset, ParseKey, ParseDigest, DigestBytes, KeyBytes, Word;
    var first, second := b[8..8 + BLOCK], b[8 + BLOCK..];
    WordBytes(b, 0);
    WordBytes(b, 4);
    assert b[0..4] + b[4..8] == b[..8];
    assert b[..8] + first + second == b;
    assert second == b[8 + BLOCK..8 + BLOCK + BLOCK];
    var d := if digestFirst then first else second;
    DigestRoundTrip(d);
    KeyRoundTrip(if digestFirst then second else first);
    var at := 4 + DigestOffset(Word(d, 0));
    if digestFirst {
      assert b[..8] + (first[..at] + first[at + DIGEST..]) + second == b[..8 + at] + b[8 + at + DIGEST..];
    } else {
      assert b[..8] + first + (second[..at] + second[at + DIGEST..]) == b[..8 + BLOCK + at] + b[8 + BLOCK + at + DIGEST..];
    }
  }

  lemma ParsesAreWellFormed(b: seq<byte>, digestFirst: bool)
    requires |b| == SIZE
    ensures WellFormed(Parse(b, digestFirst))
  {
  }

  lemma KeyParses(k: KeyBlock)
    requires k.offset < U32 && |k.r0| == KeyOffset(k.offset) && |k.key| == KEY && |k.r0| + |k.r1| == BLOCK - KEY - 4
    ensures |KeyBytes(k)| == BLOCK && ParseKey(KeyBytes(k)) == k
  {
    hide KeyOffset, Word, Be32, WriteBe32;
    var b, at := KeyBytes(k), |k.r0|;
    assert b[BLOCK - 4..BLOCK - 4 + 4] == WriteBe32(k.offset);
    WordOf(k.offset, b, BLOCK - 4);
    assert b[..at] == k.r0 && b[at..at + KEY] == k.key && b[at + KEY..BLOCK - 4] == k.r1;
  }

  lemma DigestParses(d: DigestBlock)
    requires d.offset < U32 && |d.r0| == DigestOffset(d.offset) && |d.digest| == DIGEST
    requires |d.r0| + |d.r1| == BLOCK - DIGEST - 4
    ensures |DigestBytes(d, true)| == BLOCK && ParseDigest(DigestBytes(d, true)) == d
  {
    hide DigestOffset, Word, Be32, WriteBe32;
    var b, at := DigestBytes(d, true), 4 + |d.r0|;
    assert b[0..0 + 4] == WriteBe32(d.offset);
    WordOf(d.offset, b, 0);
    assert b[4..at] == d.r0 && b[at..at + DIGEST] == d.digest && b[at + DIGEST..] == d.r1;
  }

  /** The other way round: every well-formed structure is parsed from its bytes. */
  lemma JoinThenParse(p: Hs)
    requires WellFormed(p)
    ensures |Joined(p, true)| == SIZE && Parse(Joined(p, true), p.digestFirst) == p
  {
    hide KeyOffset, DigestOffset, Word, Be32, WriteBe32, ParseKey, ParseDigest, KeyBytes, DigestBytes;
    KeyParses(p.key);
    DigestParses(p.digest);
    var b, t, v := Joined(p, true), WriteBe32(p.time), WriteBe32(p.version);
    assert b[0..0 + 4] == t && b[4..4 + 4] == v;
    WordOf(p.time, b, 0);
    WordOf(p.version, b, 4);
    if p.digestFirst {
      assert b[8..8 + BLOCK] == DigestBytes(p.digest, true) && b[8 + BLOCK..] == KeyBytes(p.key);
    } else {
      assert b[8..8 + BLOCK] == KeyBytes(p.key) && b[8 + BLOCK..] == DigestBytes(p.digest, true);
    }
  }

  /** The sum of four bytes. */
  function SumOf(b: seq<byte>, i: nat): int
    requires i + 4 <= |b|
  {
    Value(b[i]) + Value(b[i + 1]) + Value(b[i + 2]) + Value(b[i + 3])
  }

  lemma ByteSumIs(b: seq<byte>, i: nat)
    requires i + 4 <= |b|
    ensures ByteSum(Word(b, i)) == SumOf(b, i)
  {
    WordBytes(b, i);
    var w := b[i..i + 4];
    assert w[0] == b[i] && w[1] == b[i + 1] && w[2] == b[i + 2] && w[3] == b[i + 3];
  }

  /** The two blocks of 764 bytes follow eight bytes of time and version.  The digest block begins with the four bytes
      whose sum, modulo 728, says how many bytes lie between them and the digest. */
  lemma DigestIsAt(b: seq<byte>, digestFirst: bool)
    requires |b| == 1536
    ensures var block := if digestFirst then 8 else 772;
            var at := block + 4 + SumOf(b, block) % 728;
            DigestAt(b, digestFirst) == at && Parse(b, digestFirst).digest.digest == b[at..at + 32]
  {
    hide ByteSum, Word, Parse, SumOf;
    var block := if digestFirst then 8 else 772;
    DigestPlace(b, digestFirst);
    ByteSumIs(b[block..block + 764], 0);
    SumIn(b, block, 0);
  }

  lemma SumIn(b: seq<byte>, block: nat, i: nat)
    requires block + 764 <= |b| && i + 4 <= 764
    ensures SumOf(b[block..block + 764], i) == SumOf(b, block + i)
  {
    hide Value;
    var d := b[block..block + 764];
    assert d[i] == b[block + i] && d[i + 1] == b[block + i + 1] && d[i + 2] == b[block + i + 2] && d[i + 3] == b[block + i + 3];
  }

  /** The key block ends with four such bytes; their sum, modulo 632, says where in the block the key begins. */
  lemma KeyIsAt(b: seq<byte>, digestFirst: bool)
    requires |b| == 1536
    ensures var block := if digestFirst then 772 else 8;
            var at := block + SumOf(b, block + 760) % 632;
            at + 128 <= 1536 && Parse(b, digestFirst).key.key == b[at..at + 128]
  {
    hide ByteSum, Word, ParseDigest, SumOf;
    var block := if digestFirst then 772 else 8;
    var k := b[block..block + 764];
    ByteSumIs(k, 760);
    SumIn(b, block, 760);
    assert b[772..] == b[772..772 + 764];
    var at := KeyOffset(Word(k, 760));
    assert k[at..at + 128] == b[block + at..block + at + 128];
  }

  // ---- signing

  function CalcDigest(h: Hmac, key: seq<byte>, p: Hs): Sum {
    h(key, Joined(p, false))
  }

  /** A C1 or S1 is valid in a schema if its digest is that of all its other bytes. */
  predicate Matches(h: Hmac, key: seq<byte>, b: seq<byte>, digestFirst: bool)
    requires |b| == SIZE
  {
    CalcDigest(h, key, Parse(b, digestFirst)) == Parse(b, digestFirst).digest.digest
  }

  function Detect(h: Hmac, key: seq<byte>, b: seq<byte>): bool
    requires |b| == SIZE
  {
    Matches(h, key, b, false) || Matches(h, key, b, true)
  }

  /** The server's answer: everything but the digest is chosen freely, then the digest is filled in. */
  function Sign(h: Hmac, key: seq<byte>, p: Hs): Hs {
    p.(digest := p.digest.(digest := CalcDigest(h, key, p)))
  }

  lemma DigestPlace(b: seq<byte>, digestFirst: bool)
    requires |b| == SIZE
    ensures var at := DigestAt(b, digestFirst); Parse(b, digestFirst).digest.digest == b[at..at + DIGEST]
  {
    hide DigestOffset, Word, ParseKey;
    var block := if digestFirst then 8 else 8 + BLOCK;
    var at := 4 + DigestOffset(Word(b[block..block + BLOCK], 0));
    assert b[8 + BLOCK..] == b[8 + BLOCK..8 + BLOCK + BLOCK];
    assert b[block..block + BLOCK][at..at + DIGEST] == b[block + at..block + at + DIGEST];
  }

  /** In terms of the bytes: what is valid is decided by the 32 bytes at the digest's place and the rest. */
  lemma MatchesIff(h: Hmac, key: seq<byte>, b: seq<byte>, digestFirst: bool)
    requires |b| == SIZE
    ensures var at := DigestAt(b, digestFirst);
            Matches(h, key, b, digestFirst) <==> b[at..at + DIGEST] == h(key, b[..at] + b[at + DIGEST..])
  {
    hide DigestAt, Joined, Parse;
    ParseThenJoin(b, digestFirst);
    DigestPlace(b, digestFirst);
  }

  /** Whatever is chosen, the answer recomputes its own digest after it was sent, and is detected. */
  lemma SignedIsValid(h: Hmac, key: seq<byte>, p: Hs)
    requires WellFormed(p)
    ensures var b := Joined(Sign(h, key, p), true);
            && |b| == SIZE && Parse(b, p.digestFirst) == Sign(h, key, p)
            && Matches(h, key, b, p.digestFirst) && Detect(h, key, b)
  {
    var s := Sign(h, key, p);
    assert Joined(s, false) == Joined(p, false);
    JoinThenParse(s);
  }

  // ---- into buffers

  method CopyDigest(d: DigestBlock, withDigest: bool, out: array<byte>, at: nat) returns (pos: nat)
    requires at + |DigestBytes(d, withDigest)| <= out.Length
    modifies out
    ensures Wrote(out, old(out[..]), at, DigestBytes(d, withDigest), true, pos)
  {
    hide WriteBe32;
    ghost var before := out[..];
    var ok;
    ok, pos := Put(out, at, WriteBe32(d.offset));
    ok, pos := PutNext(out, d.r0, at, pos, before, WriteBe32(d.offset));
    ghost var done := WriteBe32(d.offset) + d.r0;
    if withDigest {
      ok, pos := PutNext(out, d.digest, at, pos, before, done);
      done := done + d.digest;
    }
    ok, pos := PutNext(out, d.r1, at, pos, before, done);
    assert done + d.r1 == DigestBytes(d, withDigest);
  }

  method CopyKey(k: KeyBlock, out: array<byte>, at: nat) returns (pos: nat)
    requires at + |KeyBytes(k)| <= out.Length
    modifies out
    ensures Wrote(out, old(out[..]), at, KeyBytes(k), true, pos)
  {
    hide WriteBe32;
    ghost var before := out[..];
    var ok;
    ok, pos := Put(out, at, k.r0);
    ok, pos := PutNext(out, k.key, at, pos, before, k.r0);
    ok, pos := PutNext(out, k.r1, at, pos, before, k.r0 + k.key);
    ok, pos := PutNext(out, WriteBe32(k.offset), at, pos, before, k.r0 + k.key + k.r1);
  }

  method Join(p: Hs, withDigest: bool, out: array<byte>) returns (n: nat)
    requires |Joined(p, withDigest)| <= out.Length
    modifies out
    ensures Wrote(out, old(out[..]), 0, Joined(p, withDigest), true, n)
  {
    hide WriteBe32, DigestBytes, KeyBytes;
    ghost var before, head := out[..], WriteBe32(p.time) + WriteBe32(p.version);
    var ok;
    ok, n := Put(out, 0, WriteBe32(p.time));
    ok, n := PutNext(out, WriteBe32(p.version), 0, n, before, WriteBe32(p.time));
    ghost var mid := out[..];
    if p.digestFirst {
      n := CopyDigest(p.digest, withDigest, out, n);
      WroteMore(out[..], mid, before, 0, head, DigestBytes(p.digest, withDigest), true, n);
      mid := out[..];
      n := CopyKey(p.key, out, n);
      WroteMore(out[..], mid, before, 0, head + DigestBytes(p.digest, withDigest), KeyBytes(p.key), true, n);
    } else {
      n := CopyKey(p.key, out, n);
      WroteMore(out[..], mid, before, 0, head, KeyBytes(p.key), true, n);
      mid := out[..];
      n := CopyDigest(p.digest, withDigest, out, n);
      WroteMore(out[..], mid, before, 0, head + KeyBytes(p.key), DigestBytes(p.digest, withDigest), true, n);
    }
  }

  method KeyInBlock(k: KeyBlock) returns (block: array<byte>)
    requires |KeyBytes(k)| == BLOCK
    ensures fresh(block) && block[..] == KeyBytes(k)
  {
    block := new byte[BLOCK](_ => 0);
    var pos := CopyKey(k, block, 0);
  }

  method DigestInBlock(d: DigestBlock) returns (block: array<byte>)
    requires |DigestBytes(d, true)| == BLOCK
    ensures fresh(block) && block[..] == DigestBytes(d, true)
  {
    block := new byte[BLOCK](_ => 0);
    var pos := CopyDigest(d, true, block, 0);
  }

  /** Writing block by block fills the buffer with the same bytes. */
  method Dump(p: Hs, out: array<byte>) returns (n: nat)
    requires WellFormed(p) && out.Length == SIZE
    modifies out
    ensures n == SIZE && out[..] == Joined(p, true)
  {
    hide WriteBe32, DigestBytes, KeyBytes, DigestOffset, KeyOffset;
    KeyParses(p.key);
    DigestParses(p.digest);
    ghost var before, head := out[..], WriteBe32(p.time) + WriteBe32(p.version);
    var ok;
    ok, n := Put(out, 0, WriteBe32(p.time));
    ok, n := PutNext(out, WriteBe32(p.version), 0, n, before, WriteBe32(p.time));
    var k := KeyInBlock(p.key);
    var d := DigestInBlock(p.digest);
    if p.digestFirst {
      ok, n := PutNext(out, d[..], 0, n, before, head);
      ok, n := PutNext(out, k[..], 0, n, before, head + DigestBytes(p.digest, true));
    } else {
      ok, n := PutNext(out, k[..], 0, n, before, head);
      ok, n := PutNext(out, d[..], 0, n, before, head + KeyBytes(p.key));
    }
  }
}
