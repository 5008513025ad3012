/** The RTMP chunk stream as values: what the incremental reader does with one chunk, and with any
    bytes in any pieces. */
module RtmpChunk {
  import opened Bytes
  import opened Incremental

  const MAX_CS: nat := 320
  const DEFAULT_CHUNK: nat := 128
  const MSG_SET_CHUNK: nat := 1
  const EXTENDED: nat := 0xff_ffff

  /** The state of one chunk stream.  `body` is the part of the message received so far. */
  datatype Cs = Cs(body: seq<byte>, msgLen: nat, typeId: nat, streamId: nat, tagDts: nat, tagField: nat,
                   isAbs: bool, lastLen: nat, lastType: nat, lastStream: nat, lastDts: nat, lastField: nat)

  datatype Message = Message(csid: nat, typeId: nat, streamId: nat, dts: nat, body: seq<byte>)

  datatype Parser = Parser(cs: seq<Cs>, inChunk: nat)

  function EmptyCs(): Cs {
    Cs([], 0, 0, 0, 0, 0, false, 0, 0, 0, 0, 0)
  }

  function NewParser(): Parser {
    Parser(seq(MAX_CS, _ => EmptyCs()), DEFAULT_CHUNK)
  }

  /** Basic header: format, chunk stream id and the number of bytes it has beyond the first. */
  datatype Basic = NoBasic | Basic(fmt: nat, csid: nat, extra: nat)

  function ReadBasic(d: seq<byte>): (b: Basic)
    ensures b.Basic? ==> b.fmt <= 3 && b.extra <= 2 && |d| > b.extra
  {
    if |d| == 0 then NoBasic
    else
      var low := d[0] % 64;
      if low == 0 then
        if |d| < 2 then NoBasic else Basic(d[0] / 64, 64 + Value(d[1]), 1)
      else if low == 1 then
        if |d| < 3 then NoBasic else Basic(d[0] / 64, 64 + Value(d[2]) + Value(d[1]) * 256, 2)
      else Basic(d[0] / 64, low, 0)
  }

  function HeaderLen(fmt: nat): nat {
    if fmt == 0 then 12 else if fmt == 1 then 8 else if fmt == 2 then 4 else 1
  }

  /** Between messages: nothing announced and nothing received. */
  predicate AtRest(c: Cs) {
    |c.body| == 0 && c.msgLen == 0
  }

  function Restore(c: Cs): Cs {
    if c.lastLen == 0 then c
    else c.(msgLen := c.lastLen, typeId := c.lastType, streamId := c.lastStream, tagDts := c.lastDts,
            tagField := c.lastField, body := [])
  }

  function Resume(c: Cs): Cs {
    if AtRest(c) then Restore(c).(isAbs := false) else c
  }

  /** The message header of format `fmt`, read from `h`, which starts at the last basic header byte. */
  function ApplyHeader(c: Cs, fmt: nat, h: seq<byte>): Cs
    requires |h| >= HeaderLen(fmt)
  {
    var r := Resume(c);
    if fmt == 0 then
      r.(isAbs := true, streamId := Le32(h[8], h[9], h[10], h[11]), msgLen := Be24(h[4], h[5], h[6]),
         typeId := h[7], body := [], tagField := Be24(h[1], h[2], h[3]))
    else if fmt == 1 then
      r.(msgLen := Be24(h[4], h[5], h[6]), typeId := h[7], body := [], tagField := Be24(h[1], h[2], h[3]))
    else if fmt == 2 then r.(tagField := Be24(h[1], h[2], h[3]))
    else r
  }

  predicate CsInv(c: Cs) {
    |c.body| <= c.msgLen
  }

  predicate ParserInv(p: Parser) {
    |p.cs| == MAX_CS && p.inChunk > 0 && forall k :: 0 <= k < MAX_CS ==> CsInv(p.cs[k])
  }

  function Min(a: nat, b: nat): nat {
    if a < b then a else b
  }

  function Capacity(p: Parser, csid: nat, c: Cs): nat
    requires CsInv(c)
  {
    Min(c.msgLen - |c.body|, p.inChunk)
  }

  function ChunkSizeAfter(p: Parser, m: Message): nat {
    if m.typeId == MSG_SET_CHUNK && |m.body| >= 4 then
      var n := Be32(m.body[0], m.body[1], m.body[2], m.body[3]);
      if n == 0 then DEFAULT_CHUNK else n
    else p.inChunk
  }

  /** The whole message of a finished chunk stream. */
  function Finished(csid: nat, c: Cs, ts: nat): Message {
    Message(csid, c.typeId, c.streamId, (ts + (if c.isAbs then 0 else c.tagDts)) % U32, c.body)
  }

  function Settle(c: Cs, m: Message): Cs {
    c.(tagDts := m.dts, lastLen := c.msgLen, lastType := c.typeId, lastStream := c.streamId,
       lastDts := m.dts, lastField := c.tagField, body := [], msgLen := 0)
  }

  /** What follows the message header: the extended timestamp, if announced, and the payload. */
  function Payload(p: Parser, csid: nat, c: Cs, at: nat, d: seq<byte>): (s: Step<Parser, Message>)
    requires ParserInv(p) && csid < MAX_CS && CsInv(c) && 0 < at <= |d|
    ensures ParserInv(s.p) && (s.Unit? ==> 0 < s.used <= |d| && |s.out| <= 1)
  {
    var from := if c.tagField == EXTENDED then at + 4 else at;
    var more := Capacity(p, csid, c);
    if |d| < from || |d| < from + more then Stall(p.(cs := p.cs[csid := c]))
    else
      var ts := if c.tagField == EXTENDED then Be32(d[at], d[at + 1], d[at + 2], d[at + 3]) else c.tagField;
      var c2 := c.(body := c.body + d[from..from + more]);
      if |c2.body| >= c2.msgLen then
        var m := Finished(csid, c2, ts);
        Unit(Parser(p.cs[csid := Settle(c2, m)], ChunkSizeAfter(p, m)), from + more, [m])
      else Unit(p.(cs := p.cs[csid := c2]), from + more, [])
  }

  /** One attempt at the chunk at the front of the input. */
  function Attempt(p: Parser, d: seq<byte>): (s: Step<Parser, Message>)
    requires ParserInv(p)
    ensures ParserInv(s.p) && (s.Unit? ==> 0 < s.used <= |d| && |s.out| <= 1)
  {
    var b := ReadBasic(d);
    if b.NoBasic? || |d| < HeaderLen(b.fmt) + b.extra || b.csid >= MAX_CS then Stall(p)
    else Payload(p, b.csid, ApplyHeader(p.cs[b.csid], b.fmt, d[b.extra..]), HeaderLen(b.fmt) + b.extra, d)
  }

  /** The reader as a machine: a parser state that breaks the invariant cannot occur. */
  function ChunkStep(p: Parser, d: seq<byte>): Step<Parser, Message> {
    if ParserInv(p) then Attempt(p, d) else Stall(p)
  }
}
