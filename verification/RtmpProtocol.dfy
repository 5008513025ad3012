/** The RTMP protocol object: the chunk reader and writer as the program runs them, on a receive buffer,
    a table of chunk streams and an output buffer that are updated in place. */
module RtmpProtocol {
  import opened Bytes
  import opened Buffers
  import opened Incremental
  import opened RtmpChunk
  import opened RtmpSplit
  import opened RtmpWriter

  class Protocol {
    var cs: array<Cs>
    var inChunk: nat
    var outChunk: nat
    var rx: seq<byte>
    var dispatched: seq<Message>

    ghost predicate Valid()
      reads this, cs
    {
      cs.Length == MAX_CS && ParserInv(State())
    }

    ghost function State(): Parser
      reads this, cs
    {
      Parser(cs[..], inChunk)
    }

    constructor ()
      ensures Valid() && fresh(cs) && State() == NewParser() && outChunk == DEFAULT_CHUNK && rx == [] && dispatched == []
    {
      cs := new Cs[MAX_CS](_ => EmptyCs());
      inChunk, outChunk, rx, dispatched := DEFAULT_CHUNK, DEFAULT_CHUNK, [], [];
      new;
      assert cs[..] == seq(MAX_CS, _ => EmptyCs());
    }

    method RestoreFromLast(k: nat)
      requires k < cs.Length
      modifies cs
      ensures cs[..] == old(cs[..])[k := Restore(old(cs[k]))]
    {
      if cs[k].lastLen == 0 { return; }
      cs[k] := cs[k].(msgLen := cs[k].lastLen, typeId := cs[k].lastType, streamId := cs[k].lastStream,
                      tagDts := cs[k].lastDts, tagField := cs[k].lastField, body := []);
    }

    /** The fields that a header of this length carries; the longer ones carry those of the shorter too. */
    method ReadMessageHeader(k: nat, fmt: nat, h: seq<byte>)
      requires k < cs.Length && fmt <= 3 && |h| >= HeaderLen(fmt)
      modifies cs
      ensures cs[..] == old(cs[..])[k := ApplyHeader(old(cs[k]), fmt, h)]
    {
      if |cs[k].body| == 0 && cs[k].msgLen == 0 {
        RestoreFromLast(k);
        cs[k] := cs[k].(isAbs := false);
      }
      if fmt == 0 {
        cs[k] := cs[k].(isAbs := true, streamId := Le32(h[8], h[9], h[10], h[11]));
      }
      if fmt <= 1 {
        cs[k] := cs[k].(msgLen := Be24(h[4], h[5], h[6]), typeId := h[7], body := []);
      }
      if fmt <= 2 {
        cs[k] := cs[k].(tagField := Be24(h[1], h[2], h[3]));
      }
    }

    method DispatchMessage(k: nat, ts: nat)
      requires k < cs.Length
      modifies this`inChunk, this`dispatched, cs
      ensures var m := Finished(k, old(cs[k]), ts);
              && cs[..] == old(cs[..])[k := RtmpChunk.Settle(old(cs[k]), m)]
              && inChunk == ChunkSizeAfter(old(State()), m) && dispatched == old(dispatched) + [m]
    {
      cs[k] := cs[k].(tagDts := (ts + (if cs[k].isAbs then 0 else cs[k].tagDts)) % U32);
      var c := cs[k];
      if c.typeId == MSG_SET_CHUNK && |c.body| >= 4 {
        inChunk := Be32(c.body[0], c.body[1], c.body[2], c.body[3]);
        if inChunk == 0 { inChunk := DEFAULT_CHUNK; }
      }
      dispatched := dispatched + [Message(k, c.typeId, c.streamId, c.tagDts, c.body)];
      cs[k] := c.(lastLen := c.msgLen, lastType := c.typeId, lastStream := c.streamId, lastDts := c.tagDts,
                  lastField := c.tagField, body := [], msgLen := 0);
    }

    /** What follows the header, which ends at `at`; `used` is 0 if there are too few bytes. */
    method ReadPayload(k: nat, at: nat, d: seq<byte>) returns (used: nat)
      requires Valid() && k < MAX_CS && 0 < at <= |d|
      modifies this`inChunk, this`dispatched, cs
      ensures Took(Payload(old(State()), k, old(cs[k]), at, d), used, old(dispatched))
    {
      var c := cs[k];
      var from, ts := at, c.tagField;
      if c.tagField == EXTENDED {
        if |d| < at + 4 {
          assert cs[..] == cs[..][k := c];
          return 0;
        }
        ts := Be32(d[at], d[at + 1], d[at + 2], d[at + 3]);
        from := at + 4;
      }
      if c.msgLen < |c.body| {
        assert false;
      }
      var more := c.msgLen - |c.body|;
      if more > inChunk { more := inChunk; }
      if |d| < from + more {
        assert cs[..] == cs[..][k := c];
        return 0;
      }
      var c2 := c.(body := c.body + d[from..from + more]);
      cs[k] := c2;
      used := from + more;
      if |c2.body| >= c2.msgLen {
        DispatchMessage(k, ts);
      }
    }

    /** The state is that of step `s`, which used `used` bytes. */
    ghost predicate Took(s: Step<Parser, Message>, used: nat, before: seq<Message>)
      reads this, cs
    {
      && State() == s.p
      && if s.Unit? then used == s.used && dispatched == before + s.out else used == 0 && dispatched == before
    }

    /** One chunk at the front of `d`. */
    method ReadChunk(d: seq<byte>) returns (used: nat)
      requires Valid() && |d| > 0
      modifies this`inChunk, this`dispatched, cs
      ensures Took(Attempt(old(State()), d), used, old(dispatched)) && used <= |d|
    {
      var b0 := d[0];
      var fmt, csid, offset := b0 / 64, b0 % 64, 0;
      if csid == 0 {
        if |d| < 2 { return 0; }
        csid, offset := 64 + Value(d[1]), 1;
      } else if csid == 1 {
        if |d| < 3 { return 0; }
        csid, offset := 64 + Value(d[2]) + Value(d[1]) * 256, 2;
      }
      if |d| < HeaderLen(fmt) + offset || csid >= MAX_CS { return 0; }
      assert ReadBasic(d) == Basic(fmt, csid, offset);
      used := ReadKnownChunk(fmt, csid, offset, d);
    }

    method ReadKnownChunk(fmt: nat, csid: nat, offset: nat, d: seq<byte>) returns (used: nat)
      requires Valid() && ReadBasic(d) == Basic(fmt, csid, offset) && csid < MAX_CS && |d| >= HeaderLen(fmt) + offset
      modifies this`inChunk, this`dispatched, cs
      ensures Took(Attempt(old(State()), d), used, old(dispatched)) && used <= |d|
    {
      ghost var p, c := State(), ApplyHeader(cs[csid], fmt, d[offset..]);
      ReadMessageHeader(csid, fmt, d[offset..]);
      ghost var q := State();
      assert q == p.(cs := p.cs[csid := c]) && CsInv(c);
      PayloadSame(p, q, csid, c, HeaderLen(fmt) + offset, d);
      used := ReadPayload(csid, HeaderLen(fmt) + offset, d);
    }

    /** One pass: chunk after chunk until there is no whole one. */
    method ParseChunks(data: seq<byte>) returns (consumed: nat)
      requires Valid()
      modifies this`inChunk, this`dispatched, cs
      ensures Valid() && consumed <= |data|
      ensures var r := Parse(ChunkStep, old(State()), data);
              State() == r.p && data[consumed..] == r.rest && dispatched == old(dispatched) + r.out
    {
      ghost var p0, before := State(), dispatched;
      consumed := 0;
      assert data[0..] == data;
      while consumed < |data|
        invariant Valid() && consumed <= |data|
        invariant SoFar(ChunkStep, p0, data, before, State(), data[consumed..], dispatched)
      {
        ghost var p, d, now := State(), data[consumed..], dispatched;
        var used := ReadChunk(data[consumed..]);
        OneMore(ChunkStep, p0, data, before, p, d, now);
        if used == 0 { return; }
        consumed := consumed + used;
        assert data[consumed..] == d[used..];
      }
    }

    /** Bytes from the peer, after the handshake: append, then passes until one consumes nothing. */
    method Input(data: seq<byte>)
      requires Valid()
      modifies this`inChunk, this`dispatched, this`rx, cs
      ensures Valid()
      ensures var r := Drive(ChunkStep, old(State()), old(rx) + data);
              State() == r.p && rx == r.rest && dispatched == old(dispatched) + r.out
    {
      ghost var p0, rx0, before := State(), rx + data, dispatched;
      rx := rx + data;
      while |rx| > 0
        invariant Valid()
        invariant Driven(ChunkStep, p0, rx0, before, State(), rx, dispatched)
        decreases |rx|
      {
        ghost var p, d, now := State(), rx, dispatched;
        var used := ParseChunks(rx);
        OnePass(ChunkStep, p0, rx0, before, p, d, now);
        if used == 0 { return; }
        rx := rx[used..];
      }
    }

    // ---- sending

    method SetOutChunkSize(size: nat)
      modifies this`outChunk
      ensures outChunk == Effective(size) == if size == 0 then 128 else size
    {
      outChunk := if size != 0 then size else DEFAULT_CHUNK;
    }

    /** Writes `m` into `out` from `at` on; fails exactly if it does not fit. */
    method SendChunk(m: Outgoing, out: array<byte>, at: nat) returns (ok: bool, pos: nat)
      requires at <= out.Length
      modifies out
      ensures Wrote(out, old(out[..]), at, WriteMessage(m, Effective(outChunk)), ok, pos)
    {
      var size := if outChunk != 0 then outChunk else DEFAULT_CHUNK;
      ghost var before := out[..];
      ghost var w, done := WriteMessage(m, size), [];
      var first, sent := true, 0;
      ok, pos := true, at;
      while sent < |m.body| || (first && |m.body| == 0)
        invariant sent <= |m.body| && (first ==> sent == 0)
        invariant ok && Wrote(out, before, at, done, ok, pos) && w == done + Unsent(m, first, sent, size)
        decreases |m.body| - sent, first
      {
        ok, pos, done := PutNextChunk(m, first, sent, size, out, at, pos, before, done, w);
        if !ok { return; }
        first, sent := false, sent + Min(size, |m.body| - sent);
      }
      assert Unsent(m, first, sent, size) == [];
      assert w == done;
    }

    /** The opening of a session: the chunk size changes between the first message and the others. */
    method SendServerInit(out: array<byte>) returns (ok: bool, pos: nat)
      modifies out, this`outChunk
      ensures Wrote(out, old(out[..]), 0, ServerInitBytes(Effective(old(outChunk))), ok, pos)
      ensures outChunk == if |WriteMessage(ANNOUNCE_CHUNK, Effective(old(outChunk)))| <= out.Length then 4096 else old(outChunk)
    {
      ghost var before, size := out[..], Effective(outChunk);
      ghost var done := WriteMessage(ANNOUNCE_CHUNK, size);
      ok, pos := SendChunk(ANNOUNCE_CHUNK, out, 0);
      if ok { outChunk := 4096; }
      ok, pos, done := SendNext(WINDOW_SIZE, out, ok, pos, before, done);
      ok, pos, done := SendNext(PEER_BANDWIDTH, out, ok, pos, before, done);
      ok, pos, done := SendNext(STREAM_BEGIN, out, ok, pos, before, done);
    }

    /** Sends `m` unless something before it did not fit. */
    method SendNext(m: Outgoing, out: array<byte>, sofar: bool, at: nat, ghost before: seq<byte>, ghost done: seq<byte>)
      returns (ok: bool, pos: nat, ghost upto: seq<byte>)
      requires Wrote(out, before, 0, done, sofar, at) && (sofar ==> outChunk == 4096)
      modifies out
      ensures upto == done + WriteMessage(m, 4096) && Wrote(out, before, 0, upto, ok, pos)
      ensures ok ==> sofar
    {
      upto := done + WriteMessage(m, 4096);
      if !sofar {
        TooLong(out[..], before, 0, done, upto, at);
        return false, at, upto;
      }
      ghost var mid := out[..];
      ok, pos := SendChunk(m, out, at);
      WroteMore(out[..], mid, before, 0, done, WriteMessage(m, 4096), ok, pos);
    }
  }

  /** What is left to write of `m` when `sent` bytes of its body are written. */
  function Unsent(m: Outgoing, first: bool, sent: nat, size: nat): seq<byte>
    requires sent <= |m.body| && size > 0
  {
    if first then WriteMessage(m, size) else Continuation(m, sent, size)
  }

  lemma UnsentUnfolds(m: Outgoing, first: bool, sent: nat, size: nat, done: seq<byte>)
    requires sent <= |m.body| && size > 0 && (first ==> sent == 0) && (sent < |m.body| || first)
    ensures done + Unsent(m, first, sent, size)
            == (done + ChunkBytes(m, first, sent, size)) + Unsent(m, false, sent + Min(size, |m.body| - sent), size)
  {
  }

  function ChunkBytes(m: Outgoing, first: bool, at: nat, size: nat): seq<byte>
    requires at <= |m.body|
  {
    (if first then FirstHeader(m) else NextHeader(m)) + Ext(m.dts) + Slice(m, at, size)
  }

  /** One chunk, part by part, with a check before each. */
  method PutChunk(m: Outgoing, first: bool, sent: nat, size: nat, out: array<byte>, at: nat) returns (ok: bool, pos: nat)
    requires at <= out.Length && sent <= |m.body|
    modifies out
    ensures Wrote(out, old(out[..]), at, ChunkBytes(m, first, sent, size), ok, pos)
  {
    ghost var before := out[..];
    ghost var w := ChunkBytes(m, first, sent, size);
    var basic := WriteBasic(if first then 0 else 3, Csid(m.typeId));
    var rest := if first then WriteBe24(Field(m.dts)) + WriteBe24(|m.body|) + [m.typeId] + WriteBe32(m.streamId) else [];
    var ext, slice := Ext(m.dts), Slice(m, sent, size);
    ghost var header := basic + rest;
    assert header == if first then FirstHeader(m) else NextHeader(m);
    ok, pos := Put(out, at, basic);
    if ok { ok, pos := PutNext(out, rest, at, pos, before, basic); } else { TooLong(out[..], before, at, basic, header, pos); }
    if ok { ok, pos := PutNext(out, ext, at, pos, before, header); } else { TooLong(out[..], before, at, header, header + ext, pos); }
    if ok { ok, pos := PutNext(out, slice, at, pos, before, header + ext); } else { TooLong(out[..], before, at, header + ext, w, pos); }
  }

  /** One more chunk of the message whose bytes are `w`. */
  method PutNextChunk(m: Outgoing, first: bool, sent: nat, size: nat, out: array<byte>, at: nat, pos: nat,
                      ghost before: seq<byte>, ghost done: seq<byte>, ghost w: seq<byte>)
    returns (ok: bool, next: nat, ghost upto: seq<byte>)
    requires size > 0 && sent <= |m.body| && (first ==> sent == 0) && (sent < |m.body| || first)
    requires Wrote(out, before, at, done, true, pos) && w == done + Unsent(m, first, sent, size)
    modifies out
    ensures ok ==> Wrote(out, before, at, upto, true, next)
                   && w == upto + Unsent(m, false, sent + Min(size, |m.body| - sent), size)
    ensures !ok ==> Wrote(out, before, at, w, false, next)
  {
    ghost var mid, chunk := out[..], ChunkBytes(m, first, sent, size);
    upto := done + chunk;
    UnsentUnfolds(m, first, sent, size, done);
    ok, next := PutChunk(m, first, sent, size, out, pos);
    WroteMore(out[..], mid, before, at, done, chunk, ok, next);
    if !ok { TooLong(out[..], before, at, upto, w, next); }
  }
}
