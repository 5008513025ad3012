/** What the compressed message headers mean: types 1, 2 and 3, which leave out what the last message on
    the chunk stream has already said. */
module RtmpHeaders {
  import opened Bytes
  import opened Incremental
  import opened RtmpChunk
  import opened RtmpSplit
  import opened RtmpWriter

  /** Between messages, a chunk stream's current values are those of its last message. */
  predicate Remembers(c: Cs) {
    AtRest(c) ==> c.typeId == c.lastType && c.streamId == c.lastStream && c.tagDts == c.lastDts && c.tagField == c.lastField
  }

  predicate AllRemember(p: Parser) {
    ParserInv(p) && forall k :: 0 <= k < MAX_CS ==> Remembers(p.cs[k])
  }

  lemma NewParserRemembers()
    ensures AllRemember(NewParser())
  {
  }

  lemma UnitRemembers(p: Parser, d: seq<byte>)
    requires AllRemember(p) && Attempt(p, d).Unit?
    ensures AllRemember(Attempt(p, d).p)
  {
    var k, q := ReadBasic(d).csid, Attempt(p, d).p;
    assert forall i :: 0 <= i < MAX_CS && i != k ==> q.cs[i] == p.cs[i];
  }

  /** After any number of whole chunks. */
  lemma {:induction false} ChunksRemember(p: Parser, d: seq<byte>)
    requires AllRemember(p) && Parse(ChunkStep, p, d).rest == []
    ensures AllRemember(Parse(ChunkStep, p, d).p)
    decreases |d|
  {
    if d != [] {
      UnitRemembers(p, d);
      var u := Attempt(p, d);
      ChunksRemember(u.p, d[u.used..]);
    }
  }

  /** So after any stream of whole chunks, from the beginning of the connection. */
  lemma StreamRemembers(p: Parser, d: seq<byte>)
    requires p == NewParser() && Parse(ChunkStep, p, d).rest == []
    ensures AllRemember(Parse(ChunkStep, p, d).p)
  {
    NewParserRemembers();
    ChunksRemember(p, d);
  }

  /** A message with a header of type 1, 2 or 3; `delta` is its distance in time from the
      last message on the chunk stream. */
  datatype Short = Short(fmt: nat, csid: nat, typeId: byte, delta: nat, body: seq<byte>)

  function Header(s: Short): (h: seq<byte>)
    requires s.fmt <= 3
  {
    WriteBasic(s.fmt, s.csid) + (if s.fmt <= 2 then WriteBe24(Field(s.delta)) else [])
    + (if s.fmt <= 1 then WriteBe24(|s.body|) + [s.typeId] else [])
  }

  /** The bytes of the body from `at` on that the next chunk carries. */
  function Part(s: Short, at: nat, size: nat): (r: seq<byte>)
    requires at <= |s.body|
    ensures |r| == Min(size, |s.body| - at)
  {
    s.body[at..at + Min(size, |s.body| - at)]
  }

  /** The chunks that carry the body from `at` on. */
  function Further(s: Short, at: nat, size: nat): seq<byte>
    requires at <= |s.body| && size > 0
    decreases |s.body| - at
  {
    if at == |s.body| then []
    else WriteBasic(3, s.csid) + (Ext(s.delta) + Part(s, at, size) + Further(s, at + |Part(s, at, size)|, size))
  }

  function ShortBytes(s: Short, size: nat): seq<byte>
    requires s.fmt <= 3 && size > 0
  {
    Header(s) + (Ext(s.delta) + Part(s, 0, size) + Further(s, |Part(s, 0, size)|, size))
  }

  /** What a header may leave out has to be as it was in the last message. */
  predicate Applies(c: Cs, s: Short) {
    && 1 <= s.fmt <= 3 && 2 <= s.csid < MAX_CS && s.delta < U32 && |s.body| < U24
    && (s.fmt >= 2 ==> |s.body| == c.lastLen && s.typeId == c.lastType)
    && (s.fmt == 3 ==> c.lastField == Field(s.delta))
  }

  /** The message that the header stands for. */
  function Meant(c: Cs, s: Short): Message {
    Message(s.csid, s.typeId, c.lastStream, (c.lastDts + s.delta) % U32, s.body)
  }

  /** The chunk stream with the header read and nothing of the body. */
  predicate Opened(c: Cs, r: Cs, s: Short) {
    && r.body == [] && r.msgLen == |s.body| && r.typeId == s.typeId && r.streamId == c.lastStream && r.tagDts == c.lastDts
    && r.tagField == Field(s.delta) && !r.isAbs
  }

  lemma BasicReads(s: Short, d: seq<byte>, rest: seq<byte>)
    requires s.fmt <= 3 && 2 <= s.csid < MAX_CS && d == WriteBasic(s.fmt, s.csid) + rest
    ensures ReadBasic(d) == Basic(s.fmt, s.csid, |WriteBasic(s.fmt, s.csid)| - 1)
  {
    BasicRoundTripIff(s.fmt, s.csid, rest);
  }

  /** The fields behind the basic header, whose last byte is `h[0]`. */
  lemma FieldsRead(s: Short, h: seq<byte>)
    requires 1 <= s.fmt <= 3 && |h| >= HeaderLen(s.fmt) && |s.body| < U24
    requires s.fmt <= 2 ==> h[1..4] == WriteBe24(Field(s.delta))
    requires s.fmt == 1 ==> h[4..7] == WriteBe24(|s.body|) && h[7] == s.typeId
    ensures s.fmt <= 2 ==> Be24(h[1], h[2], h[3]) == Field(s.delta)
    ensures s.fmt == 1 ==> Be24(h[4], h[5], h[6]) == |s.body|
  {
    if s.fmt <= 2 { Be24At(h, 1, Field(s.delta)); }
    if s.fmt == 1 { Be24At(h, 4, |s.body|); }
  }

  lemma HeaderOpens(c: Cs, s: Short, h: seq<byte>)
    requires AtRest(c) && Remembers(c) && Applies(c, s) && |h| >= HeaderLen(s.fmt)
    requires s.fmt <= 2 ==> Be24(h[1], h[2], h[3]) == Field(s.delta)
    requires s.fmt == 1 ==> Be24(h[4], h[5], h[6]) == |s.body| && h[7] == s.typeId
    ensures Opened(c, ApplyHeader(c, s.fmt, h), s)
  {
  }

  /** What follows the basic header of the first chunk; `load` is what follows the message header. */
  function Behind(s: Short, load: seq<byte>): (r: seq<byte>)
    requires 1 <= s.fmt <= 3
    ensures |r| == HeaderLen(s.fmt) - 1 + |load|
  {
    (if s.fmt <= 2 then WriteBe24(Field(s.delta)) else []) + (if s.fmt <= 1 then WriteBe24(|s.body|) + [s.typeId] else [])
    + load
  }

  lemma BehindParts(s: Short, load: seq<byte>)
    requires 1 <= s.fmt <= 3
    ensures Behind(s, load)[HeaderLen(s.fmt) - 1..] == load
    ensures s.fmt <= 2 ==> Behind(s, load)[..3] == WriteBe24(Field(s.delta))
    ensures s.fmt == 1 ==> Behind(s, load)[3..6] == WriteBe24(|s.body|) && Behind(s, load)[6] == s.typeId
  {
    hide WriteBe24, Field;
  }

  lemma ShiftOne(d: seq<byte>, basic: seq<byte>, rest: seq<byte>)
    requires |basic| > 0 && d == basic + rest
    ensures d[|basic| - 1..][1..] == rest
  {
    assert d[|basic|..] == rest;
  }

  lemma HeaderSplits(s: Short, load: seq<byte>, d: seq<byte>) returns (extra: nat, at: nat)
    requires 1 <= s.fmt <= 3 && 2 <= s.csid < MAX_CS && d == Header(s) + load
    ensures extra == |WriteBasic(s.fmt, s.csid)| - 1 && at == HeaderLen(s.fmt) + extra <= |d|
    ensures ReadBasic(d) == Basic(s.fmt, s.csid, extra) && d[extra..][1..] == Behind(s, load)
    ensures d[at..] == load
  {
    hide WriteBe24, Field;
    var basic := WriteBasic(s.fmt, s.csid);
    extra := |basic| - 1;
    at := HeaderLen(s.fmt) + extra;
    assert d == basic + Behind(s, load);
    BasicReads(s, d, Behind(s, load));
    ShiftOne(d, basic, Behind(s, load));
    BehindParts(s, load);
    assert d[at..] == Behind(s, load)[HeaderLen(s.fmt) - 1..];
  }

  lemma PartsRead(s: Short, load: seq<byte>, h: seq<byte>)
    requires 1 <= s.fmt <= 3 && |h| >= HeaderLen(s.fmt) && |s.body| < U24 && h[1..] == Behind(s, load)
    ensures s.fmt <= 2 ==> Be24(h[1], h[2], h[3]) == Field(s.delta)
    ensures s.fmt == 1 ==> Be24(h[4], h[5], h[6]) == |s.body| && h[7] == s.typeId
  {
    hide WriteBe24, Field, Be24, Behind;
    BehindParts(s, load);
    if s.fmt <= 2 { assert h[1..4] == Behind(s, load)[..3]; }
    if s.fmt == 1 { assert h[4..7] == Behind(s, load)[3..6] && h[7] == Behind(s, load)[6]; }
    FieldsRead(s, h);
  }

  // ---- the body, chunk by chunk

  /** The chunk stream `r` with the first `n` bytes of the body received. */
  function Loaded(r: Cs, s: Short, n: nat): Cs
    requires n <= |s.body|
  {
    r.(body := s.body[..n])
  }

  function Halfway(p: Parser, r: Cs, s: Short, n: nat): Parser
    requires |p.cs| == MAX_CS && s.csid < MAX_CS && n <= |s.body|
  {
    p.(cs := p.cs[s.csid := Loaded(r, s, n)])
  }

  lemma HalfwayKeeps(p: Parser, c: Cs, r: Cs, s: Short, n: nat)
    requires ParserInv(p) && Applies(c, s) && Opened(c, r, s) && n <= |s.body|
    ensures var q := Halfway(p, r, s, n); ParserInv(q) && q.inChunk == p.inChunk && q.cs[s.csid] == Loaded(r, s, n)
  {
  }

  /** The step that brings the received part to `n` bytes. */
  function Filled(p: Parser, r: Cs, s: Short, m: Message, n: nat, used: nat): Step<Parser, Message>
    requires |p.cs| == MAX_CS && s.csid < MAX_CS && n <= |s.body|
  {
    var c := Loaded(r, s, n);
    if n == |s.body| then Unit(Parser(p.cs[s.csid := RtmpChunk.Settle(c, m)], ChunkSizeAfter(p, m)), used, [m])
    else Unit(Halfway(p, r, s, n), used, [])
  }

  lemma PartArrives(p: Parser, c: Cs, r: Cs, s: Short, at: nat, h: nat, d: seq<byte>)
    requires ParserInv(p) && Applies(c, s) && Opened(c, r, s) && at <= |s.body| && 0 < h <= |d|
    requires Ext(s.delta) + Part(s, at, p.inChunk) <= d[h..]
    ensures var n := |Part(s, at, p.inChunk)|;
            Payload(p, s.csid, Loaded(r, s, at), h, d) == Filled(p, r, s, Meant(c, s), at + n, h + |Ext(s.delta)| + n)
  {
    ExtRead(s.delta, h, d, Part(s, at, p.inChunk));
    var n := |Part(s, at, p.inChunk)|;
    assert s.body[..at] + s.body[at..at + n] == s.body[..at + n];
    if at + n == |s.body| { assert s.body[..|s.body|] == s.body; }
  }

  /** All of `d` is read, and what comes out is `m`. */
  ghost predicate ReadsMessage(p: Parser, d: seq<byte>, m: Message) {
    Parse(ChunkStep, p, d).rest == [] && Parse(ChunkStep, p, d).out == [m]
  }

  /** One chunk, and then the rest. */
  lemma AfterPart(p: Parser, c: Cs, r: Cs, s: Short, n: nat, used: nat, d: seq<byte>)
    requires ParserInv(p) && Applies(c, s) && Opened(c, r, s) && 0 < used <= |d| && n <= |s.body|
    requires ChunkStep(p, d) == Filled(p, r, s, Meant(c, s), n, used) && d[used..] == Further(s, n, p.inChunk)
    requires n < |s.body| ==> ReadsMessage(Halfway(p, r, s, n), d[used..], Meant(c, s))
    ensures ReadsMessage(p, d, Meant(c, s))
  {
  }

  lemma NextHeaderRead(p: Parser, s: Short, x: Cs, load: seq<byte>, d: seq<byte>) returns (h: nat)
    requires ParserInv(p) && 2 <= s.csid < MAX_CS && p.cs[s.csid] == x && !AtRest(x) && d == WriteBasic(3, s.csid) + load
    ensures 0 < h <= |d| && d[h..] == load && ChunkStep(p, d) == Payload(p, s.csid, x, h, d)
  {
    BasicRoundTripIff(3, s.csid, load);
    h := |WriteBasic(3, s.csid)|;
    assert ApplyHeader(x, 3, d[h - 1..]) == x;
  }

  lemma LoadSplits(d: seq<byte>, h: nat, ext: seq<byte>, part: seq<byte>, more: seq<byte>)
    requires h <= |d| && d[h..] == ext + part + more
    ensures h + |ext| + |part| <= |d| && ext + part <= d[h..] && d[h + |ext| + |part|..] == more
  {
    assert d[h..][|ext| + |part|..] == more;
  }

  lemma FurtherSplits(s: Short, at: nat, size: nat) returns (n: nat)
    requires at < |s.body| && size > 0
    ensures at < n == at + |Part(s, at, size)| <= |s.body|
    ensures Further(s, at, size) == WriteBasic(3, s.csid) + (Ext(s.delta) + Part(s, at, size) + Further(s, n, size))
  {
    n := at + |Part(s, at, size)|;
  }

  lemma NextChunk(s: Short, p: Parser, c: Cs, r: Cs, at: nat, d: seq<byte>) returns (used: nat, n: nat)
    requires ParserInv(p) && Applies(c, s) && Opened(c, r, s) && 0 < at < |s.body|
    requires p.cs[s.csid] == Loaded(r, s, at) && d == Further(s, at, p.inChunk)
    ensures at < n == at + |Part(s, at, p.inChunk)| <= |s.body| && 0 < used <= |d|
    ensures ChunkStep(p, d) == Filled(p, r, s, Meant(c, s), n, used) && d[used..] == Further(s, n, p.inChunk)
  {
    n := FurtherSplits(s, at, p.inChunk);
    assert !AtRest(Loaded(r, s, at));
    assert 2 <= s.csid < MAX_CS;
    hide Further, ChunkStep, Part, Ext, WriteBasic, Filled, Loaded, Meant, Applies, Opened, ParserInv, Min;
    var ext, part, more := Ext(s.delta), Part(s, at, p.inChunk), Further(s, n, p.inChunk);
    var h := NextHeaderRead(p, s, Loaded(r, s, at), ext + part + more, d);
    LoadSplits(d, h, ext, part, more);
    used := h + |ext| + |part|;
    PartArrives(p, c, r, s, at, h, d);
  }

  lemma {:induction false} FurtherReads(p: Parser, c: Cs, r: Cs, s: Short, at: nat)
    requires ParserInv(p) && Applies(c, s) && Opened(c, r, s) && 0 < at < |s.body| && p.cs[s.csid] == Loaded(r, s, at)
    ensures ReadsMessage(p, Further(s, at, p.inChunk), Meant(c, s))
    decreases |s.body| - at
  {
    var d := Further(s, at, p.inChunk);
    var used, n := NextChunk(s, p, c, r, at, d);
    hide Further, Loaded, ChunkStep, Parse, Opened, Applies;
    if n < |s.body| {
      HalfwayKeeps(p, c, r, s, n);
      FurtherReads(Halfway(p, r, s, n), c, r, s, n);
    }
    AfterPart(p, c, r, s, n, used, d);
  }

  lemma FirstHeaderRead(p: Parser, s: Short, load: seq<byte>, d: seq<byte>) returns (r: Cs, at: nat)
    requires AllRemember(p) && s.csid < MAX_CS && AtRest(p.cs[s.csid]) && Applies(p.cs[s.csid], s) && d == Header(s) + load
    ensures Opened(p.cs[s.csid], r, s) && CsInv(r) && 0 < at <= |d| && d[at..] == load
    ensures ChunkStep(p, d) == Payload(p, s.csid, r, at, d)
  {
    var extra: nat;
    extra, at := HeaderSplits(s, load, d);
    PartsRead(s, load, d[extra..]);
    HeaderOpens(p.cs[s.csid], s, d[extra..]);
    r := ApplyHeader(p.cs[s.csid], s.fmt, d[extra..]);
  }

  lemma FirstChunk(p: Parser, s: Short, c: Cs, d: seq<byte>) returns (r: Cs, used: nat, n: nat)
    requires AllRemember(p) && s.csid < MAX_CS && c == p.cs[s.csid] && AtRest(c) && Applies(c, s)
    requires d == ShortBytes(s, p.inChunk)
    ensures Opened(c, r, s) && 0 < used <= |d| && n <= |s.body| && (n < |s.body| ==> n > 0)
    ensures ChunkStep(p, d) == Filled(p, r, s, Meant(c, s), n, used) && d[used..] == Further(s, n, p.inChunk)
  {
    assert d == Header(s) + (Ext(s.delta) + Part(s, 0, p.inChunk) + Further(s, |Part(s, 0, p.inChunk)|, p.inChunk));
    assert forall x: Cs :: x.body == [] ==> Loaded(x, s, 0) == x;
    assert ParserInv(p);
    hide Further, ChunkStep, Part, Ext, Header, ShortBytes, Filled, Loaded, Meant, Payload, Applies, Opened, ParserInv, AllRemember, AtRest, Min;
    n := |Part(s, 0, p.inChunk)|;
    var ext, part, more := Ext(s.delta), Part(s, 0, p.inChunk), Further(s, n, p.inChunk);
    var at: nat;
    r, at := FirstHeaderRead(p, s, ext + part + more, d);
    LoadSplits(d, at, ext, part, more);
    used := at + |ext| + n;
    PartArrives(p, c, r, s, 0, at, d);
  }

  /** A message with a compressed header, of any length, arrives as what it stands for: length, type, stream
      and time as they were in the last message, except for what the header says, and the time moved on by
      `delta`. */
  lemma ShortReads(p: Parser, s: Short)
    requires AllRemember(p) && s.csid < MAX_CS && AtRest(p.cs[s.csid]) && Applies(p.cs[s.csid], s)
    ensures ReadsMessage(p, ShortBytes(s, p.inChunk), Meant(p.cs[s.csid], s))
  {
    var c, d := p.cs[s.csid], ShortBytes(s, p.inChunk);
    var r, used, n := FirstChunk(p, s, c, d);
    hide Further, Loaded, ChunkStep, Parse, Opened, Applies, ShortBytes;
    if n < |s.body| {
      HalfwayKeeps(p, c, r, s, n);
      FurtherReads(Halfway(p, r, s, n), c, r, s, n);
    }
    AfterPart(p, c, r, s, n, used, d);
  }
}
