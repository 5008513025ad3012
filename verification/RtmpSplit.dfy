/** How the bytes of an RTMP stream are cut into input calls does not matter, with one exception. */
module RtmpSplit {
  import opened Bytes
  import opened Incremental
  import opened RtmpChunk

  /** What holds of every chunk stream between two chunks. */
  ghost predicate Boundary(c: Cs) {
    && CsInv(c) && c.tagDts == c.lastDts
    && (!c.isAbs || AtRest(c) ==> c.streamId == c.lastStream)
    && (|c.body| == c.msgLen ==> AtRest(c))
  }

  ghost predicate ParserBoundary(p: Parser) {
    ParserInv(p) && forall k :: 0 <= k < MAX_CS ==> Boundary(p.cs[k])
  }

  predicate HeaderThere(d: seq<byte>) {
    var b := ReadBasic(d);
    b.Basic? && |d| >= HeaderLen(b.fmt) + b.extra && b.csid < MAX_CS
  }

  /** A type 1 header without payload and with an extended timestamp, on a chunk stream whose unfinished
      message began with a type 0 header. */
  predicate Abandons(p: Parser, d: seq<byte>) {
    && |p.cs| == MAX_CS && HeaderThere(d)
    && Dropped(p.cs[ReadBasic(d).csid], ReadBasic(d).fmt, d[ReadBasic(d).extra..])
  }

  predicate Dropped(c: Cs, fmt: nat, h: seq<byte>) {
    fmt == 1 && EmptyExtended(h) && !AtRest(c) && c.isAbs
  }

  predicate EmptyExtended(h: seq<byte>) {
    |h| >= 8 && Be24(h[4], h[5], h[6]) == 0 && Be24(h[1], h[2], h[3]) == EXTENDED
  }

  lemma NewParserBoundary()
    ensures ParserBoundary(NewParser())
  {
  }

  // ---- one chunk

  lemma BasicExtends(d: seq<byte>, e: seq<byte>)
    requires ReadBasic(d).Basic?
    ensures ReadBasic(d + e) == ReadBasic(d)
  {
  }

  lemma HeaderExtends(c: Cs, fmt: nat, extra: nat, d: seq<byte>, e: seq<byte>)
    requires |d| >= HeaderLen(fmt) + extra
    ensures ApplyHeader(c, fmt, (d + e)[extra..]) == ApplyHeader(c, fmt, d[extra..])
  {
    var h, h' := d[extra..], (d + e)[extra..];
    assert h' == h + e;
  }

  /** A whole chunk stays that chunk when more bytes follow it. */
  lemma ChunkExtends(p: Parser, d: seq<byte>, e: seq<byte>)
    requires ParserInv(p) && Attempt(p, d).Unit?
    ensures Attempt(p, d + e) == Attempt(p, d)
  {
    var b := ReadBasic(d);
    BasicExtends(d, e);
    HeaderExtends(p.cs[b.csid], b.fmt, b.extra, d, e);
    var n := Attempt(p, d).used;
    assert (d + e)[..n] == d[..n];
    var c := ApplyHeader(p.cs[b.csid], b.fmt, d[b.extra..]);
    var at := HeaderLen(b.fmt) + b.extra;
    var from := if c.tagField == EXTENDED then at + 4 else at;
    assert (d + e)[from..n] == d[from..n];
  }

  /** Reading the same header again changes nothing: this is why a chunk may be retried from its first
      byte although the failed attempt has already changed the chunk stream. */
  lemma HeaderTwice(c: Cs, fmt: nat, h: seq<byte>)
    requires fmt <= 3 && |h| >= HeaderLen(fmt) && Boundary(c)
    requires !(fmt == 1 && Be24(h[4], h[5], h[6]) == 0 && !AtRest(c) && c.isAbs)
    ensures ApplyHeader(ApplyHeader(c, fmt, h), fmt, h) == ApplyHeader(c, fmt, h)
  {
  }

  /** The exception: the retry takes the stream for one between messages. */
  lemma HeaderTwiceAbandons(c: Cs, fmt: nat, h: seq<byte>)
    requires fmt == 1 && |h| >= HeaderLen(fmt) && Boundary(c)
    requires Be24(h[4], h[5], h[6]) == 0 && !AtRest(c) && c.isAbs
    ensures ApplyHeader(c, fmt, h).isAbs && !ApplyHeader(ApplyHeader(c, fmt, h), fmt, h).isAbs
    ensures ApplyHeader(ApplyHeader(c, fmt, h), fmt, h).tagDts == c.tagDts
  {
  }

  /** So the message that the header begins gets another timestamp. */
  lemma AbandonedTimes(c: Cs, h: seq<byte>, csid: nat, ts: nat)
    requires |h| >= HeaderLen(1) && Boundary(c) && Dropped(c, 1, h)
    ensures Finished(csid, ApplyHeader(c, 1, h), ts).dts == ts % U32
    ensures Finished(csid, ApplyHeader(ApplyHeader(c, 1, h), 1, h), ts).dts == (ts + c.tagDts) % U32
  {
    HeaderTwiceAbandons(c, 1, h);
    AbsoluteOrNot(ApplyHeader(c, 1, h), csid, ts);
    AbsoluteOrNot(ApplyHeader(ApplyHeader(c, 1, h), 1, h), csid, ts);
  }

  lemma AbsoluteOrNot(c: Cs, csid: nat, ts: nat)
    ensures Finished(csid, c, ts).dts == if c.isAbs then ts % U32 else (ts + c.tagDts) % U32
  {
  }

  lemma RetryResumes(p: Parser, d: seq<byte>, e: seq<byte>)
    requires ParserBoundary(p) && Attempt(p, d).Stall? && !Abandons(p, d)
    ensures Attempt(Attempt(p, d).p, d + e) == Attempt(p, d + e)
  {
    if HeaderThere(d) {
      var b := ReadBasic(d);
      var h := d[b.extra..];
      var c := p.cs[b.csid];
      var c1 := ApplyHeader(c, b.fmt, h);
      BasicExtends(d, e);
      HeaderExtends(c, b.fmt, b.extra, d, e);
      HeaderExtends(c1, b.fmt, b.extra, d, e);
      HeaderCases(p, d);
      HeaderTwice(c, b.fmt, h);
      var q := p.(cs := p.cs[b.csid := c1]);
      assert Attempt(p, d).p == q;
      SameFromHere(p, q, d + e);
    }
  }

  /** A stall behind an empty type 1 header needs an extended timestamp that is not there yet. */
  lemma HeaderCases(p: Parser, d: seq<byte>)
    requires ParserBoundary(p) && HeaderThere(d) && Attempt(p, d).Stall? && !Abandons(p, d)
    ensures var b := ReadBasic(d); var h := d[b.extra..]; var c := p.cs[b.csid];
            !(b.fmt == 1 && Be24(h[4], h[5], h[6]) == 0 && !AtRest(c) && c.isAbs)
  {
    var b := ReadBasic(d);
    var h := d[b.extra..];
    var c := ApplyHeader(p.cs[b.csid], b.fmt, h);
    if b.fmt == 1 && Be24(h[4], h[5], h[6]) == 0 { assert Capacity(p, b.csid, c) == 0; }
  }

  lemma PayloadSame(p: Parser, q: Parser, csid: nat, c: Cs, at: nat, d: seq<byte>)
    requires ParserInv(p) && csid < MAX_CS && CsInv(c) && 0 < at <= |d|
    requires q == p.(cs := p.cs[csid := c])
    ensures Payload(q, csid, c, at, d) == Payload(p, csid, c, at, d)
  {
    assert q.cs[csid := c] == p.cs[csid := c];
    var from := if c.tagField == EXTENDED then at + 4 else at;
    var more := Capacity(p, csid, c);
    if |d| >= from + more {
      var c2 := c.(body := c.body + d[from..from + more]);
      assert q.cs[csid := c2] == p.cs[csid := c2];
      if |c2.body| >= c2.msgLen {
        var ts := if c.tagField == EXTENDED then Be32(d[at], d[at + 1], d[at + 2], d[at + 3]) else c.tagField;
        var m := Finished(csid, c2, ts);
        assert q.cs[csid := RtmpChunk.Settle(c2, m)] == p.cs[csid := RtmpChunk.Settle(c2, m)];
      }
    }
  }

  /** Two parsers that agree after the header agree about the whole attempt. */
  lemma SameFromHere(p: Parser, q: Parser, d: seq<byte>)
    requires ParserInv(p) && ParserInv(q) && HeaderThere(d)
    requires var b := ReadBasic(d); var c := ApplyHeader(p.cs[b.csid], b.fmt, d[b.extra..]);
             q == p.(cs := p.cs[b.csid := c]) && ApplyHeader(c, b.fmt, d[b.extra..]) == c
    ensures Attempt(q, d) == Attempt(p, d)
  {
    var b := ReadBasic(d);
    var c := ApplyHeader(p.cs[b.csid], b.fmt, d[b.extra..]);
    assert q.cs[b.csid] == c;
    PayloadSame(p, q, b.csid, c, HeaderLen(b.fmt) + b.extra, d);
  }

  lemma ChunkKeepsBoundary(p: Parser, d: seq<byte>)
    requires ParserBoundary(p) && Attempt(p, d).Unit?
    ensures ParserBoundary(Attempt(p, d).p)
  {
    var b := ReadBasic(d);
    var c := ApplyHeader(p.cs[b.csid], b.fmt, d[b.extra..]);
    var q := Attempt(p, d).p;
    assert forall k :: 0 <= k < MAX_CS && k != b.csid ==> q.cs[k] == p.cs[k];
  }

  // ---- all the bytes

  ghost const GOOD: Parser -> bool := (p: Parser) => ParserBoundary(p)

  lemma ChunkShrinks(p: Parser, d: seq<byte>)
    requires ParserInv(p) && Attempt(p, d).Unit?
    ensures Attempt(p, d[..Attempt(p, d).used]) == Attempt(p, d)
  {
    var n := Attempt(p, d).used;
    BasicShrinks(d, n);
    var b := ReadBasic(d);
    assert d == d[..n] + d[n..];
    HeaderExtends(p.cs[b.csid], b.fmt, b.extra, d[..n], d[n..]);
    PayloadShrinks(p, b.csid, ApplyHeader(p.cs[b.csid], b.fmt, d[b.extra..]), HeaderLen(b.fmt) + b.extra, d);
  }

  lemma PayloadShrinks(p: Parser, csid: nat, c: Cs, at: nat, d: seq<byte>)
    requires ParserInv(p) && csid < MAX_CS && CsInv(c) && 0 < at <= |d| && Payload(p, csid, c, at, d).Unit?
    ensures var n := Payload(p, csid, c, at, d).used;
            at <= n <= |d| && Payload(p, csid, c, at, d[..n]) == Payload(p, csid, c, at, d)
  {
    hide Be32, Finished, ChunkSizeAfter;
    var n := Payload(p, csid, c, at, d).used;
    var from := if c.tagField == EXTENDED then at + 4 else at;
    var e := d[..n];
    assert e[from..n] == d[from..n];
    if c.tagField == EXTENDED {
      assert (e[at], e[at + 1], e[at + 2], e[at + 3]) == (d[at], d[at + 1], d[at + 2], d[at + 3]);
    }
  }

  lemma BasicShrinks(d: seq<byte>, m: nat)
    requires HeaderThere(d) && HeaderLen(ReadBasic(d).fmt) + ReadBasic(d).extra <= m <= |d|
    ensures HeaderThere(d[..m]) && ReadBasic(d[..m]) == ReadBasic(d)
  {
  }

  lemma DropExtends(d: seq<byte>, e: seq<byte>, n: nat)
    requires n <= |d|
    ensures (d + e)[n..] == d[n..] + e
  {
  }

  lemma DroppedGrows(c: Cs, fmt: nat, h: seq<byte>, e: seq<byte>, g: seq<byte>)
    requires Dropped(c, fmt, h) && g == h + e
    ensures Dropped(c, fmt, g)
  {
  }

  lemma HeaderThereExtends(d: seq<byte>, e: seq<byte>)
    requires HeaderThere(d)
    ensures HeaderThere(d + e) && ReadBasic(d + e) == ReadBasic(d)
  {
    BasicExtends(d, e);
  }

  lemma AbandonsExtends(p: Parser, d: seq<byte>, e: seq<byte>)
    requires Abandons(p, d)
    ensures Abandons(p, d + e)
  {
    HeaderThereExtends(d, e);
    var b := ReadBasic(d);
    DropExtends(d, e, b.extra);
    DroppedGrows(p.cs[b.csid], b.fmt, d[b.extra..], e, (d + e)[b.extra..]);
  }

  lemma ChunkUnit(p: Parser, d: seq<byte>, e: seq<byte>)
    ensures UnitExtends(ChunkStep, GOOD, p, d, e)
  {
    if GOOD(p) && ChunkStep(p, d).Unit? {
      ChunkExtends(p, d, e);
      ChunkKeepsBoundary(p, d);
    }
  }

  lemma ChunkStall(p: Parser, d: seq<byte>, e: seq<byte>)
    ensures Incremental.StallResumes(ChunkStep, GOOD, Abandons, p, d, e)
  {
    if GOOD(p) && ChunkStep(p, d).Stall? && !Abandons(p, d) {
      RetryResumes(p, d, e);
    } else if Abandons(p, d) {
      AbandonsExtends(p, d, e);
    }
  }

  lemma ChunkBad(p: Parser, d: seq<byte>, e: seq<byte>)
    ensures BadExtends(GOOD, Abandons, p, d, e)
  {
    if Abandons(p, d) { AbandonsExtends(p, d, e); }
  }

  lemma ChunksAreResumable()
    ensures Resumable(ChunkStep, GOOD, Abandons)
  {
    hide ChunkStep, Abandons, ParserBoundary, UnitExtends, BadExtends, Incremental.StallResumes;
    forall p: Parser, d: seq<byte>, e: seq<byte> ensures UnitExtends(ChunkStep, GOOD, p, d, e) { ChunkUnit(p, d, e); }
    forall p: Parser, d: seq<byte>, e: seq<byte> ensures Incremental.StallResumes(ChunkStep, GOOD, Abandons, p, d, e) {
      ChunkStall(p, d, e);
    }
    forall p: Parser, d: seq<byte>, e: seq<byte> ensures BadExtends(GOOD, Abandons, p, d, e) { ChunkBad(p, d, e); }
  }

  /** However an RTMP byte stream is cut into calls, the messages dispatched, the bytes kept and the
      parser state are those of one pass over the whole stream, if it has no abandoning header. */
  lemma ChunkCutsDoNotMatter(p: Parser, pieces: seq<seq<byte>>)
    requires ParserBoundary(p) && NeverBad(ChunkStep, Abandons, p, Join(pieces))
    ensures Feed(ChunkStep, p, [], pieces) == Parse(ChunkStep, p, Join(pieces))
  {
    ChunksAreResumable();
    CutsDoNotMatter(ChunkStep, GOOD, Abandons, p, pieces);
  }

  // ---- abandoning headers

  /** What the retry makes of the state: the time of the last message counts, and its stream. */
  predicate Shifts(c: Cs) {
    c.tagDts % U32 != 0 || (c.lastLen != 0 && c.streamId != c.lastStream)
  }

  /** An abandoning header and its four bytes of extended timestamp, for which a retry is not the same. */
  predicate Harms(p: Parser, d: seq<byte>) {
    Abandons(p, d) && |d| >= ReadBasic(d).extra + 12 && Shifts(p.cs[ReadBasic(d).csid])
  }

  /** What the next header of a chunk stream between messages sets anyway. */
  function NormCs(c: Cs): Cs {
    if !AtRest(c) then c
    else if c.lastLen == 0 then c.(isAbs := false)
    else c.(isAbs := false, typeId := c.lastType, streamId := c.lastStream, tagDts := c.lastDts, tagField := c.lastField)
  }

  function NormAll(cs: seq<Cs>): (r: seq<Cs>)
    ensures |r| == |cs|
  {
    seq(|cs|, i requires 0 <= i < |cs| => NormCs(cs[i]))
  }

  function Norm(p: Parser): Parser {
    Parser(NormAll(p.cs), p.inChunk)
  }

  lemma NormTwice(p: Parser)
    ensures Norm(Norm(p)) == Norm(p) && (ParserInv(Norm(p)) <==> ParserInv(p))
  {
    assert forall c: Cs :: CsInv(NormCs(c)) <==> CsInv(c);
    assert forall i :: 0 <= i < |p.cs| ==> Norm(p).cs[i] == NormCs(p.cs[i]);
  }

  lemma NormHeader(c: Cs, fmt: nat, h: seq<byte>)
    requires |h| >= HeaderLen(fmt)
    ensures ApplyHeader(NormCs(c), fmt, h) == ApplyHeader(c, fmt, h)
  {
    assert Resume(NormCs(c)) == Resume(c);
  }

  lemma NormUpdate(s: seq<Cs>, t: seq<Cs>, k: nat, c: Cs, e: Cs)
    requires NormAll(s) == NormAll(t) && NormCs(c) == NormCs(e) && k < |s| == |t|
    ensures NormAll(s[k := c]) == NormAll(t[k := e])
  {
    assert forall i :: 0 <= i < |s| ==> NormAll(s)[i] == NormCs(s[i]) && NormAll(t)[i] == NormCs(t[i]);
  }

  lemma PayloadAlike(p: Parser, q: Parser, csid: nat, c: Cs, at: nat, d: seq<byte>)
    requires ParserInv(p) && ParserInv(q) && Norm(p) == Norm(q) && csid < MAX_CS && CsInv(c) && 0 < at <= |d|
    ensures Mapped(Norm, Payload(q, csid, c, at, d)) == Mapped(Norm, Payload(p, csid, c, at, d))
  {
    hide NormAll, NormCs;
    var from := if c.tagField == EXTENDED then at + 4 else at;
    var more := Capacity(p, csid, c);
    NormUpdate(p.cs, q.cs, csid, c, c);
    if |d| >= from + more {
      var c2 := c.(body := c.body + d[from..from + more]);
      NormUpdate(p.cs, q.cs, csid, c2, c2);
      var ts := if c.tagField == EXTENDED then Be32(d[at], d[at + 1], d[at + 2], d[at + 3]) else c.tagField;
      var c3 := RtmpChunk.Settle(c2, Finished(csid, c2, ts));
      NormUpdate(p.cs, q.cs, csid, c3, c3);
    }
  }

  lemma StepAlike(p: Parser, d: seq<byte>)
    ensures Mapped(Norm, ChunkStep(Norm(p), d)) == Mapped(Norm, ChunkStep(p, d))
  {
    NormTwice(p);
    if ParserInv(p) && HeaderThere(d) {
      var b := ReadBasic(d);
      NormHeader(p.cs[b.csid], b.fmt, d[b.extra..]);
      PayloadAlike(p, Norm(p), b.csid, ApplyHeader(p.cs[b.csid], b.fmt, d[b.extra..]), HeaderLen(b.fmt) + b.extra, d);
    }
  }

  lemma NormKeeps(p: Parser)
    requires ParserBoundary(p)
    ensures ParserBoundary(Norm(p))
  {
    forall i | 0 <= i < MAX_CS ensures Boundary(Norm(p).cs[i]) {
      assert Norm(p).cs[i] == NormCs(p.cs[i]);
    }
  }

  lemma HarmsAlike(p: Parser, d: seq<byte>)
    ensures Harms(Norm(p), d) == Harms(p, d)
  {
    if |p.cs| == MAX_CS && HeaderThere(d) {
      var k := ReadBasic(d).csid;
      assert Norm(p).cs[k] == NormCs(p.cs[k]);
    }
  }

  /** A whole message without payload. */
  lemma EmptyPayload(p: Parser, csid: nat, c: Cs, at: nat, d: seq<byte>)
    requires ParserInv(p) && csid < MAX_CS && 0 < at <= |d| && AtRest(c) && c.tagField == EXTENDED
    ensures Payload(p, csid, c, at, d) ==
            if |d| < at + 4 then Stall(p.(cs := p.cs[csid := c]))
            else
              var m := Finished(csid, c, Be32(d[at], d[at + 1], d[at + 2], d[at + 3]));
              Unit(Parser(p.cs[csid := RtmpChunk.Settle(c, m)], ChunkSizeAfter(p, m)), at + 4, [m])
  {
    assert Capacity(p, csid, c) == 0;
    if |d| >= at + 4 { assert c.(body := c.body + d[at + 4..at + 4]) == c; }
  }

  /** The abandoning header read once and read twice. */
  lemma ReadTwice(c: Cs, h: seq<byte>, csid: nat, ts: nat)
    requires |h| >= HeaderLen(1) && Boundary(c) && Dropped(c, 1, h)
    ensures var c1 := ApplyHeader(c, 1, h); var c2 := ApplyHeader(c1, 1, h);
            && AtRest(c1) && AtRest(c2) && c1.tagField == c2.tagField == EXTENDED && NormCs(c1) == NormCs(c2)
            && ApplyHeader(c2, 1, h) == c2
            && (Finished(csid, c1, ts) == Finished(csid, c2, ts) <==> !Shifts(c))
            && (!Shifts(c) ==> var m := Finished(csid, c1, ts);
                               NormCs(RtmpChunk.Settle(c1, m)) == NormCs(RtmpChunk.Settle(c2, m)))
  {
    AbandonedTimes(c, h, csid, ts);
    SumsDiffer(ts, c.tagDts);
  }

  lemma SumsDiffer(a: nat, b: nat)
    ensures (a + b) % U32 == a % U32 <==> b % U32 == 0
  {
  }

  lemma TwoEmpty(p: Parser, k: nat, c1: Cs, c2: Cs, at: nat, d: seq<byte>)
    requires ParserInv(p) && k < MAX_CS && 0 < at <= |d| && NormCs(c1) == NormCs(c2)
    requires AtRest(c1) && AtRest(c2) && c1.tagField == c2.tagField == EXTENDED
    requires |d| >= at + 4 ==> var m := Finished(k, c1, Be32(d[at], d[at + 1], d[at + 2], d[at + 3]));
                               && Finished(k, c2, Be32(d[at], d[at + 1], d[at + 2], d[at + 3])) == m
                               && NormCs(RtmpChunk.Settle(c1, m)) == NormCs(RtmpChunk.Settle(c2, m))
    ensures Mapped(Norm, Payload(p.(cs := p.cs[k := c1]), k, c2, at, d)) == Mapped(Norm, Payload(p, k, c1, at, d))
  {
    var q := p.(cs := p.cs[k := c1]);
    EmptyPayload(p, k, c1, at, d);
    EmptyPayload(q, k, c2, at, d);
    NormUpdate(p.cs, p.cs, k, c1, c2);
    assert q.cs[k := c2] == p.cs[k := c2];
    if |d| >= at + 4 {
      var m := Finished(k, c1, Be32(d[at], d[at + 1], d[at + 2], d[at + 3]));
      assert q.cs[k := RtmpChunk.Settle(c2, m)] == p.cs[k := RtmpChunk.Settle(c2, m)];
      NormUpdate(p.cs, p.cs, k, RtmpChunk.Settle(c1, m), RtmpChunk.Settle(c2, m));
    }
  }

  /** A stall at an abandoning header, and the retry. */
  lemma RetryAfter(p: Parser, d: seq<byte>, e: seq<byte>)
    requires ParserBoundary(p) && Attempt(p, d).Stall? && Abandons(p, d)
    ensures var b := ReadBasic(d); var h, at := d[b.extra..], b.extra + 8;
            var c1 := ApplyHeader(p.cs[b.csid], 1, h); var p1 := p.(cs := p.cs[b.csid := c1]);
            && HeaderThere(d + e) && ReadBasic(d + e) == b && b.fmt == 1 && CsInv(c1) && at <= |d|
            && ParserInv(p1) && CsInv(ApplyHeader(c1, 1, h)) && Attempt(p, d).p == p1
            && Attempt(p, d + e) == Payload(p, b.csid, c1, at, d + e)
            && Attempt(p1, d + e) == Payload(p1, b.csid, ApplyHeader(c1, 1, h), at, d + e)
  {
    HeaderThereExtends(d, e);
    var b := ReadBasic(d);
    var c1 := ApplyHeader(p.cs[b.csid], 1, d[b.extra..]);
    HeaderExtends(p.cs[b.csid], 1, b.extra, d, e);
    HeaderExtends(c1, 1, b.extra, d, e);
    assert p.cs[b.csid := c1][b.csid] == c1;
  }

  ghost const SETTLED: Parser -> bool := (p: Parser) => ParserBoundary(p) && Norm(p) == p

  /** The reader up to what the next header sets anyway. */
  ghost const NORMAL: Reader<Parser, Message> := Quotient(ChunkStep, Norm)

  /** A retry is harmless unless it can finish and the two messages differ. */
  lemma StallsResume(p: Parser, d: seq<byte>, e: seq<byte>)
    requires SETTLED(p) && ChunkStep(p, d).Stall? && !Harms(p, d + e)
    ensures Mapped(Norm, ChunkStep(Norm(ChunkStep(p, d).p), d + e)) == Mapped(Norm, ChunkStep(p, d + e))
  {
    if Abandons(p, d) {
      RetryAfter(p, d, e);
      AbandonsExtends(p, d, e);
      var b, g := ReadBasic(d), d + e;
      var h, at := d[b.extra..], b.extra + 8;
      var c1 := ApplyHeader(p.cs[b.csid], 1, h);
      ReadTwice(p.cs[b.csid], h, b.csid, if |g| >= at + 4 then Be32(g[at], g[at + 1], g[at + 2], g[at + 3]) else 0);
      TwoEmpty(p, b.csid, c1, ApplyHeader(c1, 1, h), at, g);
    } else {
      RetryResumes(p, d, e);
    }
    StepAlike(ChunkStep(p, d).p, d + e);
  }

  lemma NormalExtends(p: Parser, d: seq<byte>, e: seq<byte>)
    requires SETTLED(p) && ChunkStep(p, d).Unit?
    ensures Progress(ChunkStep(p, d), d) && SETTLED(Norm(ChunkStep(p, d).p)) && ChunkStep(p, d + e) == ChunkStep(p, d)
  {
    ChunkExtends(p, d, e);
    ChunkKeepsBoundary(p, d);
    NormKeeps(ChunkStep(p, d).p);
    NormTwice(ChunkStep(p, d).p);
  }

  lemma HarmsExtends(p: Parser, d: seq<byte>, e: seq<byte>)
    requires Harms(p, d)
    ensures Harms(p, d + e)
  {
    AbandonsExtends(p, d, e);
    HeaderThereExtends(d, e);
  }

  lemma NormalStep(p: Parser, d: seq<byte>)
    ensures NORMAL(p, d) == Mapped(Norm, ChunkStep(p, d))
  {
  }

  lemma NormalUnit(p: Parser, d: seq<byte>, e: seq<byte>)
    ensures UnitExtends(NORMAL, SETTLED, p, d, e) && UnitShrinks(NORMAL, SETTLED, p, d)
  {
    NormalStep(p, d);
    NormalStep(p, d + e);
    if SETTLED(p) && ChunkStep(p, d).Unit? {
      NormalExtends(p, d, e);
      NormalShrinks(p, d);
      NormalStep(p, d[..ChunkStep(p, d).used]);
    }
  }

  lemma NormalStall(p: Parser, d: seq<byte>, e: seq<byte>)
    ensures Incremental.StallResumes(NORMAL, SETTLED, Harms, p, d, e)
  {
    NormalStep(p, d);
    NormalStep(p, d + e);
    NormalStep(Norm(ChunkStep(p, d).p), d + e);
    if SETTLED(p) && ChunkStep(p, d).Stall? && !Harms(p, d + e) { StallsResume(p, d, e); }
  }

  lemma NormalIsResumable()
    ensures Resumable(NORMAL, SETTLED, Harms) && forall p, x :: UnitShrinks(NORMAL, SETTLED, p, x)
  {
    hide ChunkStep, Norm, Harms, ParserBoundary, UnitExtends, UnitShrinks, Incremental.StallResumes;
    forall p: Parser, d: seq<byte>, e: seq<byte> ensures UnitExtends(NORMAL, SETTLED, p, d, e) { NormalUnit(p, d, e); }
    forall p: Parser, d: seq<byte>, e: seq<byte> ensures Incremental.StallResumes(NORMAL, SETTLED, Harms, p, d, e) {
      NormalStall(p, d, e);
    }
    forall p: Parser, d: seq<byte>, e: seq<byte> ensures BadExtends(SETTLED, Harms, p, d, e) {
      if Harms(p, d) { HarmsExtends(p, d, e); }
    }
    forall p: Parser, d: seq<byte> ensures UnitShrinks(NORMAL, SETTLED, p, d) { NormalUnit(p, d, []); }
  }

  function Times(out: seq<Message>): (r: seq<nat>)
    ensures |r| == |out|
  {
    seq(|out|, i requires 0 <= i < |out| => out[i].dts)
  }

  /** The `n + 4` bytes are one unit, at time `t` in one attempt, and at time `v` in two. */
  ghost predicate Torn(p: Parser, d: seq<byte>, n: nat, t: nat, v: nat) {
    && Derailed(ChunkStep, p, d, n, n + 4)
    && Times(ChunkStep(p, d[..n + 4]).out) == [t] && Times(ChunkStep(ChunkStep(p, d[..n]).p, d[..n + 4]).out) == [v]
  }

  /** An abandoning header by itself. */
  lemma HeaderAlone(p: Parser, d: seq<byte>)
    requires ParserBoundary(p) && Harms(p, d)
    ensures var n := ReadBasic(d).extra + 8; var s := d[..n];
            Abandons(p, s) && ReadBasic(s) == ReadBasic(d) && Attempt(p, s).Stall?
  {
    var b := ReadBasic(d);
    var n := b.extra + 8;
    BasicShrinks(d, n);
    var s := d[..n];
    assert s + d[n..] == d;
    HeaderExtends(p.cs[b.csid], 1, b.extra, s, d[n..]);
    assert Abandons(p, s);
    ReadTwice(p.cs[b.csid], s[b.extra..], b.csid, 0);
    EmptyPayload(p, b.csid, ApplyHeader(p.cs[b.csid], 1, s[b.extra..]), n, s);
  }

  /** The message that comes of it, read at once and read after a stall. */
  lemma TwoMessages(p: Parser, s: seq<byte>, e: seq<byte>, ts: nat)
    requires ParserBoundary(p) && Abandons(p, s) && Attempt(p, s).Stall?
    requires |s| == ReadBasic(s).extra + 8 && |e| == 4 && ts == Be32(e[0], e[1], e[2], e[3])
    ensures var k := ReadBasic(s).csid; var c1 := ApplyHeader(p.cs[k], 1, s[ReadBasic(s).extra..]);
            var u, v := Attempt(p, s + e), Attempt(Attempt(p, s).p, s + e);
            && u.Unit? && u.used == |s| + 4 && u.out == [Finished(k, c1, ts)]
            && v.Unit? && v.used == |s| + 4 && v.out == [Finished(k, ApplyHeader(c1, 1, s[ReadBasic(s).extra..]), ts)]
  {
    var k, h, g := ReadBasic(s).csid, s[ReadBasic(s).extra..], s + e;
    var c1 := ApplyHeader(p.cs[k], 1, h);
    RetryAfter(p, s, e);
    ReadTwice(p.cs[k], h, k, ts);
    assert (g[|s|], g[|s| + 1], g[|s| + 2], g[|s| + 3]) == (e[0], e[1], e[2], e[3]);
    EmptyPayload(p, k, c1, |s|, g);
    EmptyPayload(p.(cs := p.cs[k := c1]), k, ApplyHeader(c1, 1, h), |s|, g);
  }

  /** The unit of an abandoning header in one attempt, or in two. */
  lemma HarmDerails(p: Parser, d: seq<byte>)
    requires ParserBoundary(p) && Harms(p, d)
    ensures var b := ReadBasic(d); var n := b.extra + 8; var ts := Be32(d[n], d[n + 1], d[n + 2], d[n + 3]);
            Torn(p, d, n, ts % U32, (ts + p.cs[b.csid].tagDts) % U32)
  {
    HeaderAlone(p, d);
    var b := ReadBasic(d);
    var n := b.extra + 8;
    var s, e, ts := d[..n], d[n..n + 4], Be32(d[n], d[n + 1], d[n + 2], d[n + 3]);
    var c, h := p.cs[b.csid], s[b.extra..];
    var c1 := ApplyHeader(c, 1, h);
    assert s + e == d[..n + 4];
    TwoMessages(p, s, e, ts);
    AbandonedTimes(c, h, b.csid, ts);
    ReadTwice(c, h, b.csid, ts);
    TornBy(p, d, n, Finished(b.csid, c1, ts), Finished(b.csid, ApplyHeader(c1, 1, h), ts));
  }

  lemma TornBy(p: Parser, d: seq<byte>, n: nat, a: Message, z: Message)
    requires ParserInv(p) && 0 < n && n + 4 <= |d| && Attempt(p, d[..n]).Stall? && a != z
    requires var u := Attempt(p, d[..n + 4]); u.Unit? && u.used == n + 4 && u.out == [a]
    requires var v := Attempt(Attempt(p, d[..n]).p, d[..n + 4]); v.Unit? && v.used == n + 4 && v.out == [z]
    ensures Torn(p, d, n, a.dts, z.dts)
  {
    hide Attempt;
  }

  lemma ChunksAreAlike()
    ensures Alike(ChunkStep, Norm) && forall p, d :: Harms(Norm(p), d) == Harms(p, d)
  {
    forall p: Parser, d: seq<byte> ensures Mapped(Norm, ChunkStep(Norm(p), d)) == Mapped(Norm, ChunkStep(p, d)) {
      StepAlike(p, d);
    }
    forall p: Parser, d: seq<byte> ensures Harms(Norm(p), d) == Harms(p, d) { HarmsAlike(p, d); }
  }

  lemma NormalShrinks(p: Parser, d: seq<byte>)
    requires SETTLED(p) && ChunkStep(p, d).Unit?
    ensures Progress(ChunkStep(p, d), d) && ChunkStep(p, d[..ChunkStep(p, d).used]) == ChunkStep(p, d)
  {
    ChunkShrinks(p, d);
  }

  lemma InBounds(p: Parser)
    requires SETTLED(p)
    ensures ParserBoundary(p)
  {
  }

  /** However an RTMP byte stream is cut into calls, the same messages are dispatched, if and only if it has
      no abandoning header, with its extended timestamp, whose retry is not the same.  Then the bytes kept
      are the same as well, and so is the state up to what the next header sets. */
  lemma MessagesSurviveCutsIff(p: Parser, d: seq<byte>)
    requires ParserBoundary(p)
    ensures OutInvariant(ChunkStep, p, d) <==> NeverBad(ChunkStep, Harms, p, d)
    ensures CutInvariant(NORMAL, Norm(p), d) <==> NeverBad(ChunkStep, Harms, p, d)
  {
    NormKeeps(p);
    NormTwice(p);
    NormalIsResumable();
    ChunksAreAlike();
    hide ChunkStep, Norm, Harms, ParserBoundary, Resumable, UnitShrinks, Derails, CutInvariant, NeverBad;
    forall q: Parser, x: seq<byte> | SETTLED(q) && Harms(q, x) ensures Derails(NORMAL, q, x) {
      InBounds(q);
      HarmDerails(q, x);
      var n := ReadBasic(x).extra + 8;
      DerailedAlike(ChunkStep, Norm, q, x, n, n + 4);
    }
    CutsMatterIff(NORMAL, SETTLED, Harms, Norm(p), d);
    NeverBadAlike(ChunkStep, Norm, Harms, p, d);
    forall a: seq<seq<byte>> ensures Feed(NORMAL, Norm(p), [], a).out == Feed(ChunkStep, p, [], a).out {
      FeedAlike(ChunkStep, Norm, p, [], a);
    }
  }

  // ---- such a stream

  /** On chunk stream 3: a message of one byte at time 5, the first chunk of a message of 129 bytes, an
      abandoning header, and its extended timestamp, 1. */
  predicate AbandoningStream(d1: seq<byte>, d2: seq<byte>, h: seq<byte>, x: seq<byte>) {
    && |d1| == 13 && d1[0] == 3 && (d1[1], d1[2], d1[3]) == (0, 0, 5) && (d1[4], d1[5], d1[6]) == (0, 0, 1)
    && |d2| == 140 && d2[0] == 3 && (d2[1], d2[2], d2[3]) == (0, 0, 9) && (d2[4], d2[5], d2[6]) == (0, 0, 129)
    && |h| == 8 && h[0] == 0x43 && (h[1], h[2], h[3]) == (255, 255, 255) && (h[4], h[5], h[6]) == (0, 0, 0)
    && x == [0, 0, 0, 1]
  }

  lemma OpeningHeader(c: Cs, d1: seq<byte>)
    requires |d1| == 13 && d1[0] == 3 && (d1[1], d1[2], d1[3]) == (0, 0, 5) && (d1[4], d1[5], d1[6]) == (0, 0, 1)
    ensures ReadBasic(d1) == Basic(0, 3, 0) && d1[0..] == d1
    ensures var r := ApplyHeader(c, 0, d1); r.isAbs && r.msgLen == 1 && r.body == [] && r.tagField == 5
  {
  }

  lemma FirstRead(p: Parser, d1: seq<byte>) returns (q: Parser, m: Message)
    requires ParserBoundary(p) && p.inChunk == 128
    requires |d1| == 13 && d1[0] == 3 && (d1[1], d1[2], d1[3]) == (0, 0, 5) && (d1[4], d1[5], d1[6]) == (0, 0, 1)
    ensures ChunkStep(p, d1) == Unit(q, 13, [m]) && m.dts == 5
    ensures ParserBoundary(q) && q.inChunk == 128 && q.cs[3].tagDts == 5
  {
    OpeningHeader(p.cs[3], d1);
    var c := ApplyHeader(p.cs[3], 0, d1);
    var c2 := c.(body := c.body + d1[12..13]);
    m := Finished(3, c2, 5);
    q := p.(cs := p.cs[3 := RtmpChunk.Settle(c2, m)]);
    hide ReadBasic, ApplyHeader, Boundary;
    assert Payload(p, 3, c, 12, d1) == Unit(q, 13, [m]);
    ChunkKeepsBoundary(p, d1);
  }

  lemma SecondRead(p: Parser, d2: seq<byte>) returns (q: Parser)
    requires ParserBoundary(p) && p.inChunk == 128 && p.cs[3].tagDts == 5
    requires |d2| == 140 && d2[0] == 3 && (d2[1], d2[2], d2[3]) == (0, 0, 9) && (d2[4], d2[5], d2[6]) == (0, 0, 129)
    ensures ChunkStep(p, d2) == Unit(q, 140, []) && ParserBoundary(q)
    ensures q.cs[3].tagDts == 5 && q.cs[3].isAbs && !AtRest(q.cs[3])
  {
    assert d2[0..] == d2;
    var c := ApplyHeader(p.cs[3], 0, d2);
    var c2 := c.(body := c.body + d2[12..140]);
    q := p.(cs := p.cs[3 := c2]);
    assert Payload(p, 3, c, 12, d2) == Unit(q, 140, []);
    ChunkKeepsBoundary(p, d2);
  }

  lemma ThirdRead(p: Parser, d: seq<byte>)
    requires ParserBoundary(p) && p.cs[3].tagDts == 5 && p.cs[3].isAbs && !AtRest(p.cs[3])
    requires |d| == 12 && ReadBasic(d) == Basic(1, 3, 0) && EmptyExtended(d)
    ensures Harms(p, d)
  {
    assert d[0..] == d;
  }

  /** The last four bytes in the call of the header, or in one of their own: the message is at time 1, or
      at time 6. */
  lemma CutsCanMatter(p: Parser, d1: seq<byte>, d2: seq<byte>, h: seq<byte>, x: seq<byte>)
    requires ParserBoundary(p) && p.inChunk == 128 && AbandoningStream(d1, d2, h, x)
    ensures Times(Feed(ChunkStep, p, [], [d1 + d2, h + x]).out) == [5, 1]
    ensures Times(Feed(ChunkStep, p, [], [d1 + d2, h, x]).out) == [5, 6]
  {
    hide ChunkStep, ParserBoundary, Torn, ReadBasic, EmptyExtended, Feed, Parse, Harms, Be32;
    var q1, m := FirstRead(p, d1);
    var q2 := SecondRead(q1, d2);
    AbandoningBytes(h, x);
    ThirdRead(q2, h + x);
    HarmDerails(q2, h + x);
    assert 1 % U32 == 1 && (1 + 5) % U32 == 6;
    StepExtends(p, d1, d2);
    WholeChunks(p, d1, d2, q1, m, q2);
    TornFeeds(p, d1 + d2, h, x, q2, [m], 1, 6);
  }

  lemma AbandoningBytes(h: seq<byte>, x: seq<byte>)
    requires |h| == 8 && h[0] == 0x43 && (h[1], h[2], h[3]) == (255, 255, 255) && (h[4], h[5], h[6]) == (0, 0, 0)
    requires x == [0, 0, 0, 1]
    ensures var d := h + x;
            |d| == 12 && ReadBasic(d) == Basic(1, 3, 0) && EmptyExtended(d) && Be32(d[8], d[9], d[10], d[11]) == 1
  {
  }

  lemma StepExtends(p: Parser, d: seq<byte>, e: seq<byte>)
    requires ParserBoundary(p) && ChunkStep(p, d).Unit?
    ensures ChunkStep(p, d + e) == ChunkStep(p, d)
  {
    ChunkExtends(p, d, e);
  }

  lemma WholeChunks(p: Parser, d1: seq<byte>, d2: seq<byte>, q1: Parser, m: Message, q2: Parser)
    requires d1 != [] && d2 != [] && ChunkStep(p, d1 + d2) == Unit(q1, |d1|, [m]) && ChunkStep(q1, d2) == Unit(q2, |d2|, [])
    ensures Parse(ChunkStep, p, d1 + d2) == Result(q2, [], [m])
  {
    assert (d1 + d2)[|d1|..] == d2 && d2[|d2|..] == [];
    assert Parse(ChunkStep, q1, d2) == Result(q2, [], []);
  }

  lemma TornUnit<P, M>(step: Reader<P, M>, q: P, h: seq<byte>, x: seq<byte>)
    requires Derailed(step, q, h + x, |h|, |h| + |x|)
    ensures step(q, h + x).Unit? && step(step(q, h).p, h + x).Unit?
    ensures Feed(step, q, [], [h + x]).out == step(q, h + x).out
    ensures Feed(step, q, [], [h, x]).out == step(step(q, h).p, h + x).out
  {
    hide Feed;
    assert (h + x)[..|h|] == h && (h + x)[|h|..|h| + |x|] == x && (h + x)[..|h| + |x|] == h + x;
    CutUnit(step, q, h + x, |h|, |h| + |x|);
  }

  lemma TornFeeds(p: Parser, d0: seq<byte>, h: seq<byte>, x: seq<byte>, q: Parser, out: seq<Message>, t: nat, v: nat)
    requires d0 != [] && h != [] && |x| == 4 && Parse(ChunkStep, p, d0) == Result(q, [], out) && Torn(q, h + x, |h|, t, v)
    ensures Times(Feed(ChunkStep, p, [], [d0, h + x]).out) == Times(out) + [t]
    ensures Times(Feed(ChunkStep, p, [], [d0, h, x]).out) == Times(out) + [v]
  {
    hide ChunkStep;
    var one, two := [h + x], [h, x];
    TornUnit(ChunkStep, q, h, x);
    assert (h + x)[..|h|] == h && (h + x)[..|h| + 4] == h + x;
    hide Torn, Feed, Parse, Times;
    FeedAhead(ChunkStep, p, d0, one);
    FeedAhead(ChunkStep, p, d0, two);
    TimesAppend(out, Feed(ChunkStep, q, [], one).out);
    TimesAppend(out, Feed(ChunkStep, q, [], two).out);
    assert Ahead(d0, one) == [d0, h + x] && Ahead(d0, two) == [d0, h, x];
  }

  lemma TimesAppend(a: seq<Message>, b: seq<Message>)
    ensures Times(a + b) == Times(a) + Times(b)
  {
  }
}
