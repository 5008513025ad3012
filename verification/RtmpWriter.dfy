/** What the RTMP chunk writer puts on the wire, and that the reader gets back what was sent. */
module RtmpWriter {
  import opened Bytes
  import opened Incremental
  import opened RtmpChunk
  import opened RtmpSplit

  const SYSTEM_CSID: nat := 3
  const MEDIA_CSID: nat := 8

  /** A message handed to the writer. */
  datatype Outgoing = Outgoing(typeId: byte, streamId: nat, dts: nat, body: seq<byte>)

  predicate Sendable(m: Outgoing) {
    m.streamId < U32 && m.dts < U32 && |m.body| < U24
  }

  /** Control messages and commands share one chunk stream, everything else another. */
  function Csid(typeId: byte): (k: nat)
    ensures 2 <= k < 64
  {
    if typeId == 20 || typeId == 5 || typeId == 6 || typeId == 4 || typeId == 1 then SYSTEM_CSID else MEDIA_CSID
  }

  function WriteBasic(fmt: nat, csid: nat): (s: seq<byte>)
    requires fmt <= 3 && 0 <= csid
    ensures 1 <= |s| <= 3
  {
    if csid < 64 then [fmt * 64 + csid]
    else if csid < 320 then [fmt * 64, csid - 64]
    else [fmt * 64 + 1, (csid - 64) % 256, (csid - 64) / 256 % 256]
  }

  /** Among the ids the reader accepts, the basic header is read back exactly for those above 1. */
  lemma BasicRoundTripIff(fmt: nat, csid: nat, tail: seq<byte>)
    requires fmt <= 3 && csid < MAX_CS
    ensures ReadBasic(WriteBasic(fmt, csid) + tail) == Basic(fmt, csid, |WriteBasic(fmt, csid)| - 1) <==> csid >= 2
  {
    var d := WriteBasic(fmt, csid) + tail;
    if csid < 64 {
      assert d[0] % 64 == csid && d[0] / 64 == fmt;
    } else {
      assert d[0] % 64 == 0 && d[0] / 64 == fmt && d[1] == csid - 64;
    }
  }

  function Field(dts: nat): (f: nat)
    ensures f <= EXTENDED && (f == EXTENDED <==> dts >= EXTENDED) && (f != EXTENDED ==> f == dts)
  {
    if dts >= EXTENDED then EXTENDED else dts
  }

  function Ext(dts: nat): (s: seq<byte>)
    ensures |s| == if dts >= EXTENDED then 4 else 0
  {
    if dts >= EXTENDED then WriteBe32(dts) else []
  }

  function FirstHeader(m: Outgoing): (s: seq<byte>)
    ensures |s| == 12
  {
    WriteBasic(0, Csid(m.typeId)) + WriteBe24(Field(m.dts)) + WriteBe24(|m.body|) + [m.typeId] + WriteBe32(m.streamId)
  }

  function NextHeader(m: Outgoing): (s: seq<byte>)
    ensures |s| == 1
  {
    WriteBasic(3, Csid(m.typeId))
  }

  /** The bytes of the body from `at` on that the next chunk carries. */
  function Slice(m: Outgoing, at: nat, size: nat): (s: seq<byte>)
    requires at <= |m.body|
    ensures |s| == Min(size, |m.body| - at)
  {
    m.body[at..at + Min(size, |m.body| - at)]
  }

  /** The chunks that carry the body from `at` on. */
  function Continuation(m: Outgoing, at: nat, size: nat): seq<byte>
    requires at <= |m.body| && size > 0
    decreases |m.body| - at
  {
    if at == |m.body| then []
    else NextHeader(m) + Ext(m.dts) + Slice(m, at, size) + Continuation(m, at + |Slice(m, at, size)|, size)
  }

  function WriteMessage(m: Outgoing, size: nat): seq<byte>
    requires size > 0
  {
    FirstHeader(m) + Ext(m.dts) + Slice(m, 0, size) + Continuation(m, |Slice(m, 0, size)|, size)
  }

  // ---- reading it back

  /** What the reader dispatches: the stream id is written in one byte order and read in the other. */
  function Received(m: Outgoing): Message {
    Message(Csid(m.typeId), m.typeId, Swap32(m.streamId), m.dts, m.body)
  }

  /** So the stream id survives exactly if it reads the same both ways. */
  lemma StreamIdKeptIff(m: Outgoing)
    requires Sendable(m)
    ensures Received(m).streamId == m.streamId
            <==> var w := WriteBe32(m.streamId); w[0] == w[3] && w[1] == w[2]
  {
    var w := WriteBe32(m.streamId);
    Be32Inverse(m.streamId);
    SplitBe32(w[3], w[2], w[1], w[0]);
  }

  /** The chunk stream with the first `n` bytes of `m` received. */
  function Partial(c: Cs, m: Outgoing, n: nat): Cs
    requires n <= |m.body|
  {
    c.(body := m.body[..n], msgLen := |m.body|, typeId := m.typeId, streamId := Swap32(m.streamId),
       tagField := Field(m.dts), isAbs := true)
  }

  /** The chunk stream after all of `m`; nothing of what it held before is left. */
  function Rested(m: Outgoing): Cs {
    var s := Swap32(m.streamId);
    Cs([], 0, m.typeId, s, m.dts, Field(m.dts), true, |m.body|, m.typeId, s, m.dts, Field(m.dts))
  }

  function ArrivedParser(p: Parser, m: Outgoing): Parser
    requires |p.cs| == MAX_CS
  {
    Parser(p.cs[Csid(m.typeId) := Rested(m)], ChunkSizeAfter(p, Received(m)))
  }

  /** The step that brings the received part of `m` to `n` bytes. */
  function Delivered(p: Parser, c: Cs, m: Outgoing, n: nat, used: nat): Step<Parser, Message>
    requires |p.cs| == MAX_CS && n <= |m.body|
  {
    if n == |m.body| then Unit(ArrivedParser(p, m), used, [Received(m)])
    else Unit(p.(cs := p.cs[Csid(m.typeId) := Partial(c, m, n)]), used, [])
  }

  lemma ExtRead(dts: nat, h: nat, d: seq<byte>, s: seq<byte>)
    requires dts < U32 && h <= |d| && Ext(dts) + s <= d[h..]
    ensures dts >= EXTENDED ==> Be32(d[h], d[h + 1], d[h + 2], d[h + 3]) == dts
    ensures |d| >= h + |Ext(dts)| + |s| && d[h + |Ext(dts)|..h + |Ext(dts)| + |s|] == s
  {
    var w := Ext(dts) + s;
    assert forall i :: 0 <= i < |w| ==> w[i] == d[h + i];
    if dts >= EXTENDED {
      assert d[h..h + 4] == WriteBe32(dts);
      Be32At(d, h, dts);
    }
  }

  /** Joining the received part and the new bytes. */
  lemma PartialGrows(c: Cs, m: Outgoing, at: nat, n: nat)
    requires at + n <= |m.body|
    ensures var k := Partial(c, m, at); k.(body := k.body + m.body[at..at + n]) == Partial(c, m, at + n)
  {
    hide Swap32, Field;
    assert m.body[..at] + m.body[at..at + n] == m.body[..at + n];
  }

  /** When that was all, the message is finished. */
  lemma WholeIsReceived(c: Cs, m: Outgoing)
    requires Sendable(m)
    ensures Finished(Csid(m.typeId), Partial(c, m, |m.body|), m.dts) == Received(m)
  {
    hide Swap32, Field, Csid;
    assert m.body[..|m.body|] == m.body;
  }

  lemma WholeRests(c: Cs, m: Outgoing)
    ensures RtmpChunk.Settle(Partial(c, m, |m.body|), Received(m)) == Rested(m)
  {
    hide Swap32, Field, Csid;
  }

  /** The timestamp that counts for a chunk of `m`, extended or not. */
  lemma StampRead(m: Outgoing, h: nat, d: seq<byte>, x: seq<byte>)
    requires m.dts < U32 && h <= |d| && Ext(m.dts) + x <= d[h..]
    ensures Field(m.dts) == EXTENDED <==> |Ext(m.dts)| == 4
    ensures if Field(m.dts) == EXTENDED then Be32(d[h], d[h + 1], d[h + 2], d[h + 3]) == m.dts else Field(m.dts) == m.dts
    ensures |d| >= h + |Ext(m.dts)| + |x| && d[h + |Ext(m.dts)|..h + |Ext(m.dts)| + |x|] == x
  {
    ExtRead(m.dts, h, d, x);
  }

  /** A chunk of which everything is there. */
  lemma PayloadThere(p: Parser, k: nat, c: Cs, h: nat, d: seq<byte>, from: nat, n: nat, ts: nat)
    requires ParserInv(p) && k < MAX_CS && CsInv(c) && 0 < h <= from && from + n <= |d| && n == Capacity(p, k, c)
    requires if c.tagField == EXTENDED then from == h + 4 && ts == Be32(d[h], d[h + 1], d[h + 2], d[h + 3])
             else from == h && ts == c.tagField
    ensures var e := c.(body := c.body + d[from..from + n]); var m := Finished(k, e, ts);
            Payload(p, k, c, h, d) ==
            if |e.body| >= e.msgLen then Unit(Parser(p.cs[k := RtmpChunk.Settle(e, m)], ChunkSizeAfter(p, m)), from + n, [m])
            else Unit(p.(cs := p.cs[k := e]), from + n, [])
  {
    hide Be32, Finished, ChunkSizeAfter, Capacity, RtmpChunk.Settle;
  }

  lemma PayloadDelivers(p: Parser, c: Cs, m: Outgoing, at: nat, h: nat, d: seq<byte>)
    requires ParserInv(p) && Sendable(m) && at <= |m.body| && 0 < h <= |d|
    requires Ext(m.dts) + Slice(m, at, p.inChunk) <= d[h..]
    ensures var n := |Slice(m, at, p.inChunk)|;
            Payload(p, Csid(m.typeId), Partial(c, m, at), h, d) == Delivered(p, c, m, at + n, h + |Ext(m.dts)| + n)
  {
    var n, k, x := |Slice(m, at, p.inChunk)|, Csid(m.typeId), |Ext(m.dts)|;
    StampRead(m, h, d, Slice(m, at, p.inChunk));
    PayloadThere(p, k, Partial(c, m, at), h, d, h + x, n, m.dts);
    PartialGrows(c, m, at, n);
    if at + n == |m.body| {
      WholeIsReceived(c, m);
      WholeRests(c, m);
    }
    hide Payload, Swap32, Be32, Ext, Field, Finished, Capacity, RtmpChunk.Settle, Rested, ChunkSizeAfter, Received, Csid;
  }

  lemma Be24At(d: seq<byte>, i: nat, n: nat)
    requires i + 3 <= |d| && n < U24 && d[i..i + 3] == WriteBe24(n)
    ensures Be24(d[i], d[i + 1], d[i + 2]) == n
  {
    Be24Inverse(n);
    var w := d[i..i + 3];
    assert w[0] == d[i] && w[1] == d[i + 1] && w[2] == d[i + 2];
  }

  lemma Be32At(d: seq<byte>, i: nat, n: nat)
    requires i + 4 <= |d| && n < U32 && d[i..i + 4] == WriteBe32(n)
    ensures Be32(d[i], d[i + 1], d[i + 2], d[i + 3]) == n
    ensures Le32(d[i], d[i + 1], d[i + 2], d[i + 3]) == Swap32(n)
  {
    Be32Inverse(n);
    var w := d[i..i + 4];
    assert w[0] == d[i] && w[1] == d[i + 1] && w[2] == d[i + 2] && w[3] == d[i + 3];
  }

  lemma HeaderParts(m: Outgoing, d: seq<byte>)
    requires FirstHeader(m) <= d
    ensures d[0] == Csid(m.typeId) && d[1..4] == WriteBe24(Field(m.dts)) && d[4..7] == WriteBe24(|m.body|)
    ensures d[7] == m.typeId && d[8..12] == WriteBe32(m.streamId)
  {
    var h := FirstHeader(m);
    assert d[..12] == h;
    assert d[1..4] == h[1..4] && d[4..7] == h[4..7] && d[8..12] == h[8..12];
  }

  lemma FirstBasicRead(m: Outgoing, d: seq<byte>)
    requires |d| > 0 && d[0] == Csid(m.typeId)
    ensures ReadBasic(d) == Basic(0, Csid(m.typeId), 0)
  {
  }

  lemma FirstHeaderRead(m: Outgoing, d: seq<byte>)
    requires Sendable(m) && FirstHeader(m) <= d
    ensures ReadBasic(d) == Basic(0, Csid(m.typeId), 0)
    ensures Be24(d[1], d[2], d[3]) == Field(m.dts) && Be24(d[4], d[5], d[6]) == |m.body|
    ensures d[7] == m.typeId && Le32(d[8], d[9], d[10], d[11]) == Swap32(m.streamId)
  {
    HeaderParts(m, d);
    FirstBasicRead(m, d);
    assert Be24(d[1], d[2], d[3]) == Field(m.dts) by { Be24At(d, 1, Field(m.dts)); }
    assert Be24(d[4], d[5], d[6]) == |m.body| by { Be24At(d, 4, |m.body|); }
    assert Le32(d[8], d[9], d[10], d[11]) == Swap32(m.streamId) by { Be32At(d, 8, m.streamId); }
  }

  lemma FirstHeaderApplies(c: Cs, m: Outgoing, d: seq<byte>)
    requires Sendable(m) && AtRest(c) && FirstHeader(m) <= d
    ensures ApplyHeader(c, 0, d) == Partial(Resume(c), m, 0)
  {
    FirstHeaderRead(m, d);
    hide Swap32, Field, Csid, Le32, Be24, FirstHeader, Resume;
  }

  lemma FirstChunkSplits(header: seq<byte>, ext: seq<byte>, slice: seq<byte>, d: seq<byte>)
    requires |header| == 12 && header + ext + slice <= d
    ensures header <= d && ext + slice <= d[12..] && d[0..] == d
  {
    assert (header + ext + slice)[12..] == ext + slice;
    assert header == (header + ext + slice)[..12];
  }

  /** A chunk with a type 0 header. */
  lemma TypeZero(p: Parser, d: seq<byte>, k: nat)
    requires ParserInv(p) && k < MAX_CS && |d| >= 12 && ReadBasic(d) == Basic(0, k, 0) && d[0..] == d
    ensures CsInv(ApplyHeader(p.cs[k], 0, d)) && ChunkStep(p, d) == Payload(p, k, ApplyHeader(p.cs[k], 0, d), 12, d)
    ensures !Abandons(p, d)
  {
    hide ReadBasic;
  }

  lemma FirstChunkDelivers(p: Parser, m: Outgoing, d: seq<byte>)
    requires ParserInv(p) && Sendable(m) && AtRest(p.cs[Csid(m.typeId)])
    requires FirstHeader(m) + Ext(m.dts) + Slice(m, 0, p.inChunk) <= d
    ensures var n := |Slice(m, 0, p.inChunk)|; var c := Resume(p.cs[Csid(m.typeId)]);
            ChunkStep(p, d) == Delivered(p, c, m, n, 12 + |Ext(m.dts)| + n) && !Abandons(p, d)
  {
    hide ReadBasic, ApplyHeader, Payload, Delivered, FirstHeader, Csid, Swap32, Ext, Slice, Partial, Resume, ChunkStep, Abandons;
    var k := Csid(m.typeId);
    FirstChunkSplits(FirstHeader(m), Ext(m.dts), Slice(m, 0, p.inChunk), d);
    FirstHeaderRead(m, d);
    FirstHeaderApplies(p.cs[k], m, d);
    TypeZero(p, d, k);
    PayloadDelivers(p, Resume(p.cs[k]), m, 0, 12, d);
  }

  lemma NextHeaderRead(m: Outgoing, d: seq<byte>, x: seq<byte>)
    requires NextHeader(m) + x <= d
    ensures ReadBasic(d) == Basic(3, Csid(m.typeId), 0) && x <= d[1..]
  {
    var w := NextHeader(m) + x;
    assert d[0] == w[0] == NextHeader(m)[0];
    assert w[1..] == x && w[1..] <= d[1..];
  }

  lemma NextChunkDelivers(p: Parser, c: Cs, m: Outgoing, at: nat, n: nat, w: seq<byte>, d: seq<byte>)
    requires ParserInv(p) && Sendable(m) && 0 < at < |m.body| && p.cs[Csid(m.typeId)] == Partial(c, m, at)
    requires w == NextHeader(m) + (Ext(m.dts) + Slice(m, at, p.inChunk)) && w <= d
    requires n == at + |Slice(m, at, p.inChunk)|
    ensures ChunkStep(p, d) == Delivered(p, c, m, n, |w|) && !Abandons(p, d)
  {
    NextHeaderRead(m, d, Ext(m.dts) + Slice(m, at, p.inChunk));
    PayloadDelivers(p, c, m, at, 1, d);
    assert ApplyHeader(Partial(c, m, at), 3, d[0..]) == Partial(c, m, at);
  }

  // ---- whole messages

  /** Unfolding one step of a pass. */
  lemma OneStep(p: Parser, d: seq<byte>, q: Parser, n: nat, out: seq<Message>)
    requires 0 < n <= |d| && ChunkStep(p, d) == Unit(q, n, out) && !Abandons(p, d)
    ensures var r := Parse(ChunkStep, q, d[n..]); Parse(ChunkStep, p, d) == Result(r.p, r.rest, out + r.out)
    ensures NeverBad(ChunkStep, Abandons, p, d) <==> NeverBad(ChunkStep, Abandons, q, d[n..])
  {
  }

  /** Reading `d` from `p` comes down to message `m` and then reading `tail` after it. */
  ghost predicate ReadsAs(p: Parser, d: seq<byte>, m: Outgoing, q: Parser, tail: seq<byte>) {
    && (var r := Parse(ChunkStep, q, tail);
        Parse(ChunkStep, p, d) == Result(r.p, r.rest, [Received(m)] + r.out))
    && (NeverBad(ChunkStep, Abandons, q, tail) ==> NeverBad(ChunkStep, Abandons, p, d))
  }

  /** The parser with the first `n` bytes of `m` received. */
  function Midway(p: Parser, c: Cs, m: Outgoing, n: nat): Parser
    requires |p.cs| == MAX_CS && n <= |m.body|
  {
    p.(cs := p.cs[Csid(m.typeId) := Partial(c, m, n)])
  }

  lemma AfterDelivery(p: Parser, c: Cs, m: Outgoing, n: nat, d: seq<byte>, used: nat, tail: seq<byte>)
    requires ParserInv(p) && Sendable(m) && n <= |m.body| && 0 < used <= |d|
    requires ChunkStep(p, d) == Delivered(p, c, m, n, used) && !Abandons(p, d)
    requires d[used..] == Continuation(m, n, p.inChunk) + tail
    requires n < |m.body| ==> ReadsAs(Midway(p, c, m, n), d[used..], m, ArrivedParser(p, m), tail)
    ensures ReadsAs(p, d, m, ArrivedParser(p, m), tail)
  {
    if n == |m.body| {
      assert d[used..] == tail;
      OneStep(p, d, ArrivedParser(p, m), used, [Received(m)]);
    } else {
      PassOn(p, d, Midway(p, c, m, n), used, m, ArrivedParser(p, m), tail);
    }
  }

  lemma PassOn(p: Parser, d: seq<byte>, q: Parser, used: nat, m: Outgoing, z: Parser, tail: seq<byte>)
    requires 0 < used <= |d| && ChunkStep(p, d) == Unit(q, used, []) && !Abandons(p, d)
    requires ReadsAs(q, d[used..], m, z, tail)
    ensures ReadsAs(p, d, m, z, tail)
  {
    OneStep(p, d, q, used, []);
    var r := Parse(ChunkStep, q, d[used..]);
    assert [] + r.out == r.out;
  }

  lemma MidwayKeeps(p: Parser, c: Cs, m: Outgoing, n: nat)
    requires ParserInv(p) && n <= |m.body|
    ensures var q := Midway(p, c, m, n);
            ParserInv(q) && q.inChunk == p.inChunk && q.cs[Csid(m.typeId)] == Partial(c, m, n)
            && ArrivedParser(q, m) == ArrivedParser(p, m)
  {
  }

  lemma ContinuationSplits(m: Outgoing, at: nat, size: nat, tail: seq<byte>)
    returns (n: nat, w: seq<byte>, d: seq<byte>)
    requires size > 0 && at < |m.body|
    ensures at < n == at + |Slice(m, at, size)| <= |m.body|
    ensures w == NextHeader(m) + (Ext(m.dts) + Slice(m, at, size)) && d == Continuation(m, at, size) + tail
    ensures 0 < |w| && w <= d && d[|w|..] == Continuation(m, n, size) + tail
  {
    n := at + |Slice(m, at, size)|;
    w := NextHeader(m) + (Ext(m.dts) + Slice(m, at, size));
    d := Continuation(m, at, size) + tail;
    assert d == w + (Continuation(m, n, size) + tail);
  }

  lemma MessageSplits(m: Outgoing, size: nat, tail: seq<byte>) returns (w: seq<byte>, d: seq<byte>)
    requires size > 0
    ensures w == FirstHeader(m) + Ext(m.dts) + Slice(m, 0, size) && d == WriteMessage(m, size) + tail
    ensures |w| == 12 + |Ext(m.dts)| + |Slice(m, 0, size)| && w <= d && FirstHeader(m) <= d
    ensures d[|w|..] == Continuation(m, |Slice(m, 0, size)|, size) + tail
  {
    w := FirstHeader(m) + Ext(m.dts) + Slice(m, 0, size);
    d := WriteMessage(m, size) + tail;
    assert d == w + (Continuation(m, |Slice(m, 0, size)|, size) + tail);
  }

  lemma {:induction false} ContinuationReads(p: Parser, c: Cs, m: Outgoing, at: nat, tail: seq<byte>)
    requires ParserInv(p) && Sendable(m) && 0 < at < |m.body| && p.cs[Csid(m.typeId)] == Partial(c, m, at)
    ensures ReadsAs(p, Continuation(m, at, p.inChunk) + tail, m, ArrivedParser(p, m), tail)
    decreases |m.body| - at, 0
  {
    var n, w, d := ContinuationSplits(m, at, p.inChunk, tail);
    NextChunkDelivers(p, c, m, at, n, w, d);
    if n < |m.body| {
      RestReads(p, c, m, n, tail);
    }
    AfterDelivery(p, c, m, n, d, |w|, tail);
  }

  lemma {:induction false} RestReads(p: Parser, c: Cs, m: Outgoing, n: nat, tail: seq<byte>)
    requires ParserInv(p) && Sendable(m) && 0 < n < |m.body|
    ensures ReadsAs(Midway(p, c, m, n), Continuation(m, n, p.inChunk) + tail, m, ArrivedParser(p, m), tail)
    decreases |m.body| - n, 1
  {
    MidwayKeeps(p, c, m, n);
    ContinuationReads(Midway(p, c, m, n), c, m, n, tail);
  }

  /** A written message is read back, and the reader is then ready for the next. */
  lemma MessageReads(p: Parser, m: Outgoing, tail: seq<byte>)
    requires ParserInv(p) && Sendable(m) && AtRest(p.cs[Csid(m.typeId)])
    ensures ReadsAs(p, WriteMessage(m, p.inChunk) + tail, m, ArrivedParser(p, m), tail)
  {
    var c := Resume(p.cs[Csid(m.typeId)]);
    var n := |Slice(m, 0, p.inChunk)|;
    var w, d := MessageSplits(m, p.inChunk, tail);
    FirstChunkDelivers(p, m, d);
    if n < |m.body| {
      RestReads(p, c, m, n, tail);
    }
    AfterDelivery(p, c, m, n, d, |w|, tail);
  }

  // ---- whole sessions

  /** What a sender does: send a message, or change the size of the chunks it writes from then on. */
  datatype Op = Send(m: Outgoing) | SetOutChunk(size: nat)

  function Effective(n: nat): (size: nat)
    ensures size > 0
  {
    if n == 0 then DEFAULT_CHUNK else n
  }

  predicate Announces(m: Outgoing) {
    m.typeId == MSG_SET_CHUNK && |m.body| >= 4
  }

  function Announced(m: Outgoing): (size: nat)
    requires Announces(m)
    ensures size > 0
  {
    Effective(Be32(m.body[0], m.body[1], m.body[2], m.body[3]))
  }

  /** The chunk size the peer reads with after `m`. */
  function PeerAfter(peer: nat, m: Outgoing): nat {
    if Announces(m) then Announced(m) else peer
  }

  function Wire(ops: seq<Op>, size: nat): seq<byte>
    requires size > 0
    decreases |ops|
  {
    if ops == [] then []
    else
      match ops[0]
      case Send(m) => WriteMessage(m, size) + Wire(ops[1..], size)
      case SetOutChunk(n) => Wire(ops[1..], Effective(n))
  }

  function Arriving(ops: seq<Op>): seq<Message>
    decreases |ops|
  {
    if ops == [] then []
    else (if ops[0].Send? then [Received(ops[0].m)] else []) + Arriving(ops[1..])
  }

  function WriterSize(ops: seq<Op>, size: nat): nat
    decreases |ops|
  {
    if ops == [] then size
    else WriterSize(ops[1..], if ops[0].Send? then size else Effective(ops[0].size))
  }

  function ReaderSize(ops: seq<Op>, peer: nat): nat
    decreases |ops|
  {
    if ops == [] then peer
    else ReaderSize(ops[1..], if ops[0].Send? then PeerAfter(peer, ops[0].m) else peer)
  }

  /** Each message is written with the size the peer has been told, or fits into one chunk either way. */
  predicate Agreed(ops: seq<Op>, size: nat, peer: nat)
    decreases |ops|
  {
    ops == []
    || match ops[0]
       case Send(m) => && Sendable(m) && (size == peer || |m.body| <= Min(size, peer))
                       && Agreed(ops[1..], size, PeerAfter(peer, m))
       case SetOutChunk(n) => Agreed(ops[1..], Effective(n), peer)
  }

  lemma OneChunkFits(m: Outgoing, size: nat, peer: nat)
    requires size > 0 && peer > 0 && (size == peer || |m.body| <= Min(size, peer))
    ensures WriteMessage(m, size) == WriteMessage(m, peer)
  {
    if size != peer {
      assert Slice(m, 0, size) == Slice(m, 0, peer);
      assert Continuation(m, |m.body|, size) == Continuation(m, |m.body|, peer) == [];
    }
  }

  /** Both chunk streams the writer uses are between messages. */
  predicate Ready(p: Parser) {
    ParserInv(p) && AtRest(p.cs[SYSTEM_CSID]) && AtRest(p.cs[MEDIA_CSID])
  }

  lemma ArrivedIsReady(p: Parser, m: Outgoing)
    requires Ready(p)
    ensures Ready(ArrivedParser(p, m)) && ArrivedParser(p, m).inChunk == PeerAfter(p.inChunk, m)
  {
  }

  ghost predicate WireReads(p: Parser, ops: seq<Op>, d: seq<byte>) {
    && NeverBad(ChunkStep, Abandons, p, d)
    && var r := Parse(ChunkStep, p, d);
    r.out == Arriving(ops) && r.rest == [] && Ready(r.p) && r.p.inChunk == ReaderSize(ops, p.inChunk)
  }

  /** In one pass, the reader dispatches exactly what was sent. */
  lemma {:induction false} SessionReads(p: Parser, ops: seq<Op>, size: nat)
    requires Ready(p) && size > 0 && Agreed(ops, size, p.inChunk)
    ensures WireReads(p, ops, Wire(ops, size))
    decreases |ops|
  {
    if ops != [] {
      match ops[0]
      case Send(m) => SendReads(p, ops, size, m);
      case SetOutChunk(n) => SessionReads(p, ops[1..], Effective(n));
    }
  }

  lemma {:induction false} SendReads(p: Parser, ops: seq<Op>, size: nat, m: Outgoing)
    requires Ready(p) && size > 0 && Agreed(ops, size, p.inChunk) && ops != [] && ops[0] == Send(m)
    ensures WireReads(p, ops, Wire(ops, size))
    decreases |ops|, 0
  {
    var q, tail := ArrivedParser(p, m), Wire(ops[1..], size);
    OneChunkFits(m, size, p.inChunk);
    MessageReads(p, m, tail);
    ArrivedIsReady(p, m);
    SessionReads(q, ops[1..], size);
  }

  /** However the bytes of a session are cut into reads, what arrives is what was sent: types, timestamps
      and bodies in order, nothing left over, and the reader's chunk size is the one last announced.  The
      session may begin with a new reader or go on with one that is between messages. */
  lemma RoundTrip(p: Parser, ops: seq<Op>, size: nat, pieces: seq<seq<byte>>)
    requires Ready(p) && ParserBoundary(p) && size > 0 && Agreed(ops, size, p.inChunk) && Join(pieces) == Wire(ops, size)
    ensures var r := Feed(ChunkStep, p, [], pieces);
            r.out == Arriving(ops) && r.rest == [] && r.p.inChunk == ReaderSize(ops, p.inChunk)
  {
    SessionReads(p, ops, size);
    ChunkCutsDoNotMatter(p, pieces);
  }

  lemma NewReaderIsReady(p: Parser)
    requires p == NewParser()
    ensures Ready(p) && ParserBoundary(p) && p.inChunk == DEFAULT_CHUNK
  {
    NewParserBoundary();
  }

  /** A sender that changes its chunk size exactly when it has just announced the new size. */
  predicate Disciplined(ops: seq<Op>)
    decreases |ops|
  {
    ops == []
    || (ops[0].Send? && Sendable(ops[0].m)
        && if Announces(ops[0].m) then
             |ops| > 1 && ops[1].SetOutChunk? && Effective(ops[1].size) == Announced(ops[0].m) && Disciplined(ops[2..])
           else Disciplined(ops[1..]))
  }

  /** With such a sender the two chunk sizes agree before every message and at the end. */
  lemma {:induction false} DisciplineAgrees(ops: seq<Op>, size: nat)
    requires Disciplined(ops)
    ensures Agreed(ops, size, size) && WriterSize(ops, size) == ReaderSize(ops, size)
    decreases |ops|
  {
    if ops != [] {
      if Announces(ops[0].m) {
        assert ops[1..][1..] == ops[2..];
        DisciplineAgrees(ops[2..], Announced(ops[0].m));
      } else {
        DisciplineAgrees(ops[1..], size);
      }
    }
  }

  /** The four messages that open a session on the server side. */
  const ANNOUNCE_CHUNK := Outgoing(1, 0, 0, WriteBe32(4096))
  const WINDOW_SIZE := Outgoing(5, 0, 0, WriteBe32(5_000_000))
  const PEER_BANDWIDTH := Outgoing(6, 0, 0, [2] + WriteBe32(5_000_000))
  const STREAM_BEGIN := Outgoing(4, 0, 0, [0, 0] + WriteBe32(0))

  function ServerInit(): seq<Op> {
    [Send(ANNOUNCE_CHUNK), SetOutChunk(4096), Send(WINDOW_SIZE), Send(PEER_BANDWIDTH), Send(STREAM_BEGIN)]
  }

  function ServerInitBytes(size: nat): seq<byte>
    requires size > 0
  {
    WriteMessage(ANNOUNCE_CHUNK, size) + WriteMessage(WINDOW_SIZE, 4096)
    + WriteMessage(PEER_BANDWIDTH, 4096) + WriteMessage(STREAM_BEGIN, 4096)
  }

  lemma ServerInitIsDisciplined()
    ensures Disciplined(ServerInit()) && ReaderSize(ServerInit(), DEFAULT_CHUNK) == 4096
  {
    Be32Inverse(4096);
    var s := ServerInit();
    assert s[2..][0] == Send(WINDOW_SIZE) && s[2..][1..] == s[3..];
    assert s[3..][0] == Send(PEER_BANDWIDTH) && s[3..][1..] == s[4..];
    assert s[4..][0] == Send(STREAM_BEGIN) && s[4..][1..] == [];
    assert Disciplined(s[4..]) && Disciplined(s[3..]) && Disciplined(s[2..]);
    assert s[1..][0] == SetOutChunk(4096) && s[1..][1..] == s[2..];
  }

  lemma ServerInitWire(size: nat)
    requires size > 0
    ensures Wire(ServerInit(), size) == ServerInitBytes(size)
  {
    var s := ServerInit();
    assert s[1..][0] == SetOutChunk(4096) && s[1..][1..] == s[2..];
    assert s[2..][0] == Send(WINDOW_SIZE) && s[2..][1..] == s[3..];
    assert s[3..][0] == Send(PEER_BANDWIDTH) && s[3..][1..] == s[4..];
    assert s[4..][0] == Send(STREAM_BEGIN) && s[4..][1..] == [];
    assert Wire(s[4..], 4096) == WriteMessage(STREAM_BEGIN, 4096);
    assert Wire(s[3..], 4096) == WriteMessage(PEER_BANDWIDTH, 4096) + WriteMessage(STREAM_BEGIN, 4096);
  }

  /** The opening reaches a fresh peer as four messages and leaves both sides at the same chunk size. */
  lemma ServerInitArrives(p: Parser, pieces: seq<seq<byte>>)
    requires p == NewParser() && Join(pieces) == ServerInitBytes(DEFAULT_CHUNK)
    ensures var r := Feed(ChunkStep, p, [], pieces);
            r.out == Arriving(ServerInit()) && r.rest == [] && r.p.inChunk == WriterSize(ServerInit(), DEFAULT_CHUNK) == 4096
  {
    NewReaderIsReady(p);
    ServerInitWire(DEFAULT_CHUNK);
    ServerInitIsDisciplined();
    DisciplineAgrees(ServerInit(), DEFAULT_CHUNK);
    RoundTrip(p, ServerInit(), DEFAULT_CHUNK, pieces);
  }
}
