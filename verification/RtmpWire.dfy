/** The bytes that the RTMP chunk writer puts on the wire, in terms of the message alone. */
module RtmpWire {
  import opened Bytes
  import opened RtmpChunk
  import opened RtmpWriter

  /** `s` is `n` in three bytes or four, the most significant first. */
  predicate Spells(s: seq<byte>, n: nat) {
    if |s| == 3 then n == Value(s[0]) * 65536 + Value(s[1]) * 256 + Value(s[2])
    else |s| == 4 && n == Value(s[0]) * 16777216 + Value(s[1]) * 65536 + Value(s[2]) * 256 + Value(s[3])
  }

  lemma SpelledOut(n: nat)
    ensures n < U24 ==> Spells(WriteBe24(n), n)
    ensures n < U32 ==> Spells(WriteBe32(n), n)
  {
    if n < U24 { Be24Inverse(n); }
    if n < U32 { Be32Inverse(n); }
  }

  /** The chunk stream of a message: 3 for commands and the control messages 1, 4, 5 and 6, and 8 for all others. */
  function StreamOf(typeId: byte): nat {
    if typeId in {1, 4, 5, 6, 20} then 3 else 8
  }

  /** The time needs four bytes more if it does not fit into three, or is the mark for that. */
  function TimeBytes(m: Outgoing): nat {
    if m.dts >= 0xff_ffff then 4 else 0
  }

  /** A message begins with a full header, its time behind it once more if it does not fit, and the first part of the
      body; what follows goes on with the rest. */
  predicate Begins(w: seq<byte>, m: Outgoing, size: nat)
    requires size > 0
  {
    var x, n := TimeBytes(m), if |m.body| < size then |m.body| else size;
    && |w| >= 12 + x + n && Value(w[0]) == StreamOf(m.typeId)
    && Spells(w[1..4], if m.dts >= 0xff_ffff then 0xff_ffff else m.dts) && Spells(w[4..7], |m.body|)
    && w[7] == m.typeId && Spells(w[8..12], m.streamId)
    && (x == 4 ==> Spells(w[12..16], m.dts)) && w[12 + x..12 + x + n] == m.body[..n]
    && GoesOn(w[12 + x + n..], m, n, size)
  }

  /** From byte `at` of the body on: in front of every `size` bytes a byte that says type 3 and the chunk stream, and
      the time once more if it does not fit. */
  predicate GoesOn(c: seq<byte>, m: Outgoing, at: nat, size: nat)
    requires at <= |m.body| && size > 0
    decreases |m.body| - at
  {
    if at == |m.body| then c == []
    else
      var x, n := TimeBytes(m), if |m.body| - at < size then |m.body| - at else size;
      && |c| >= 1 + x + n && Value(c[0]) == 0xc0 + StreamOf(m.typeId)
      && (x == 4 ==> Spells(c[1..5], m.dts)) && c[1 + x..1 + x + n] == m.body[at..at + n]
      && GoesOn(c[1 + x + n..], m, at + n, size)
  }

  lemma HeaderBytes(m: Outgoing)
    requires Sendable(m)
    ensures var h := FirstHeader(m);
            && Value(h[0]) == StreamOf(m.typeId) && h[1..4] == WriteBe24(Field(m.dts)) && h[4..7] == WriteBe24(|m.body|)
            && h[7] == m.typeId && h[8..12] == WriteBe32(m.streamId)
  {
    hide WriteBe24, WriteBe32;
  }

  /** The four parts of a sequence. */
  lemma Parts(a: seq<byte>, b: seq<byte>, c: seq<byte>, d: seq<byte>)
    ensures var w := a + b + c + d; var i, j := |a| + |b|, |a| + |b| + |c|;
            w[..|a|] == a && w[|a|..i] == b && w[i..j] == c && w[j..] == d
  {
  }

  lemma TimeSpelled(m: Outgoing)
    requires Sendable(m)
    ensures |Ext(m.dts)| == TimeBytes(m) && (TimeBytes(m) == 4 ==> Spells(Ext(m.dts), m.dts))
  {
    SpelledOut(m.dts);
  }

  lemma NextByte(m: Outgoing)
    ensures Value(NextHeader(m)[0]) == 0xc0 + StreamOf(m.typeId)
  {
  }

  lemma OneMoreChunk(m: Outgoing, at: nat, size: nat, rest: seq<byte>)
    requires Sendable(m) && at < |m.body| && size > 0 && GoesOn(rest, m, at + |Slice(m, at, size)|, size)
    ensures GoesOn(NextHeader(m) + Ext(m.dts) + Slice(m, at, size) + rest, m, at, size)
  {
    hide Spells, Ext, StreamOf, NextHeader, TimeBytes;
    NextByte(m);
    TimeSpelled(m);
    var c := NextHeader(m) + Ext(m.dts) + Slice(m, at, size) + rest;
    Parts(NextHeader(m), Ext(m.dts), Slice(m, at, size), rest);
    assert c[0] == c[..1][0];
  }

  lemma ContinuationIs(m: Outgoing, at: nat, size: nat)
    requires at < |m.body| && size > 0
    ensures var n := |Slice(m, at, size)|;
            && n > 0 && at + n <= |m.body|
            && Continuation(m, at, size) == NextHeader(m) + Ext(m.dts) + Slice(m, at, size) + Continuation(m, at + n, size)
  {
    hide NextHeader, Ext;
  }

  lemma NothingGoesOn(m: Outgoing, size: nat)
    requires size > 0
    ensures GoesOn(Continuation(m, |m.body|, size), m, |m.body|, size)
  {
  }

  lemma {:induction false} ContinuationGoesOn(m: Outgoing, at: nat, size: nat)
    requires Sendable(m) && at <= |m.body| && size > 0
    ensures GoesOn(Continuation(m, at, size), m, at, size)
    decreases |m.body| - at
  {
    hide GoesOn, NextHeader, Ext, Continuation, Slice;
    if at == |m.body| {
      NothingGoesOn(m, size);
    } else {
      ContinuationIs(m, at, size);
      var n := |Slice(m, at, size)|;
      ContinuationGoesOn(m, at + n, size);
      OneMoreChunk(m, at, size, Continuation(m, at + n, size));
    }
  }

  lemma HeaderSpelled(m: Outgoing, w: seq<byte>)
    requires Sendable(m) && |w| >= 12 && w[..12] == FirstHeader(m)
    ensures Value(w[0]) == StreamOf(m.typeId) && w[7] == m.typeId && Spells(w[8..12], m.streamId)
    ensures Spells(w[1..4], if m.dts >= 0xff_ffff then 0xff_ffff else m.dts) && Spells(w[4..7], |m.body|)
  {
    SpelledOut(Field(m.dts));
    SpelledOut(|m.body|);
    SpelledOut(m.streamId);
    HeaderBytes(m);
    hide Spells, WriteBe24, WriteBe32, StreamOf, FirstHeader;
    assert w[1..4] == w[..12][1..4] && w[4..7] == w[..12][4..7] && w[8..12] == w[..12][8..12];
    assert w[0] == w[..12][0] && w[7] == w[..12][7];
  }

  /** What the writer puts on the wire. */
  lemma MessageOnWire(m: Outgoing, size: nat)
    requires Sendable(m) && size > 0
    ensures Begins(WriteMessage(m, size), m, size)
  {
    hide Spells, StreamOf, FirstHeader, GoesOn, Ext, TimeBytes, Continuation;
    var n := |Slice(m, 0, size)|;
    Parts(FirstHeader(m), Ext(m.dts), Slice(m, 0, size), Continuation(m, n, size));
    HeaderSpelled(m, WriteMessage(m, size));
    TimeSpelled(m);
    ContinuationGoesOn(m, n, size);
  }

  // ---- chunk stream ids of three bytes

  /** The writer puts the less significant byte of an id of three bytes first, the reader takes it for the other:
      such an id is read back exactly if the two are the same. */
  lemma IdKeptIff(fmt: nat, csid: nat, tail: seq<byte>)
    requires fmt <= 3 && 2 <= csid < 64 + 65536
    ensures var b := ReadBasic(WriteBasic(fmt, csid) + tail); b.Basic? && b.fmt == fmt
    ensures ReadBasic(WriteBasic(fmt, csid) + tail).csid == csid <==> csid < 320 || (csid - 64) % 256 == (csid - 64) / 256
  {
    var d := WriteBasic(fmt, csid) + tail;
    if csid < 320 {
      BasicRoundTripIff(fmt, csid, tail);
    } else {
      assert d[0] % 64 == 1 && d[0] / 64 == fmt;
      assert Value(d[1]) == (csid - 64) % 256 && Value(d[2]) == (csid - 64) / 256;
    }
  }

  // ---- the opening

  /** A control message without stream and time. */
  predicate Control(op: Op, typeId: byte, len: nat) {
    op.Send? && op.m.typeId == typeId && op.m.streamId == op.m.dts == 0 && |op.m.body| == len
  }

  /** What the server says first: chunks of 4096 bytes, a window of 5000000 bytes, the same for the peer with limit
      type 2 in front, and the beginning of stream 0. */
  lemma OpeningIs(s: seq<Op>)
    requires s == ServerInit()
    ensures |s| == 5 && s[1] == SetOutChunk(4096)
    ensures Control(s[0], 1, 4) && Spells(s[0].m.body, 4096) && Control(s[2], 5, 4) && Spells(s[2].m.body, 5_000_000)
    ensures Control(s[3], 6, 5) && s[3].m.body[0] == 2 && Spells(s[3].m.body[1..], 5_000_000)
    ensures Control(s[4], 4, 6) && s[4].m.body == [0, 0, 0, 0, 0, 0]
  {
    SpelledOut(4096);
    SpelledOut(5_000_000);
    assert s[3].m.body[1..] == WriteBe32(5_000_000);
  }

  /** Section 5.4.5 of Adobe's RTMP specification 1.0 has the limit type of the peer behind the window: read that way,
      the window is another. */
  lemma PeerWindowRead(s: seq<Op>)
    requires s == ServerInit()
    ensures var b := s[3].m.body; Spells(b[..4], 33_573_963) && b[4] == 64
  {
    var b := s[3].m.body;
    assert b == [2] + WriteBe32(5_000_000);
    assert b[..4] == [2, 0, 0x4c, 0x4b];
  }
}
