/** Chunk streams do not disturb each other: what arrives on one is what its own chunks say. */
module RtmpDemux {
  import opened Bytes
  import opened Incremental
  import opened RtmpChunk
  import opened RtmpSplit

  /** The chunks of stream `k` among the whole chunks of `d`. */
  function Own(k: nat, p: Parser, d: seq<byte>): seq<byte>
    decreases |d|
  {
    if d == [] || !Progress(ChunkStep(p, d), d) then []
    else
      var s := ChunkStep(p, d);
      (if ReadBasic(d).Basic? && ReadBasic(d).csid == k then d[..s.used] else []) + Own(k, s.p, d[s.used..])
  }

  function On(k: nat, out: seq<Message>): seq<Message>
    decreases |out|
  {
    if out == [] then [] else (if out[0].csid == k then [out[0]] else []) + On(k, out[1..])
  }

  predicate KeepsChunkSize(out: seq<Message>) {
    forall m :: m in out ==> !(m.typeId == MSG_SET_CHUNK && |m.body| >= 4)
  }

  /** As far as chunk stream `k` is concerned, the two parsers are in the same state. */
  predicate Alike(k: nat, p: Parser, q: Parser) {
    k < MAX_CS && ParserInv(p) && ParserInv(q) && p.cs[k] == q.cs[k] && p.inChunk == q.inChunk
  }

  /** A chunk of another stream. */
  lemma OthersStay(k: nat, p: Parser, q: Parser, d: seq<byte>)
    requires Alike(k, p, q) && Attempt(p, d).Unit? && ReadBasic(d).csid != k && KeepsChunkSize(Attempt(p, d).out)
    ensures Alike(k, Attempt(p, d).p, q) && On(k, Attempt(p, d).out) == []
  {
    var s := Attempt(p, d);
    if s.out != [] {
      assert s.out[0] in s.out && s.out[0].csid != k;
      assert s.out == [s.out[0]];
    }
  }

  lemma PayloadAlike(k: nat, p: Parser, q: Parser, c: Cs, at: nat, d: seq<byte>)
    requires Alike(k, p, q) && CsInv(c) && 0 < at <= |d|
    ensures var s, t := Payload(p, k, c, at, d), Payload(q, k, c, at, d);
            s.Unit? ==> t == Unit(t.p, s.used, s.out) && Alike(k, s.p, t.p) && On(k, s.out) == s.out
  {
    var s := Payload(p, k, c, at, d);
    if s.Unit? && s.out != [] {
      assert s.out == [s.out[0]] && s.out[0].csid == k;
    }
  }

  /** A chunk of stream `k`. */
  lemma OwnMoves(k: nat, p: Parser, q: Parser, d: seq<byte>)
    requires Alike(k, p, q) && Attempt(p, d).Unit? && ReadBasic(d).csid == k
    ensures var s, t := Attempt(p, d), Attempt(q, d);
            t == Unit(t.p, s.used, s.out) && Alike(k, s.p, t.p) && On(k, s.out) == s.out
  {
    var b := ReadBasic(d);
    PayloadAlike(k, p, q, ApplyHeader(p.cs[k], b.fmt, d[b.extra..]), HeaderLen(b.fmt) + b.extra, d);
  }

  lemma {:induction false} OnAppends(k: nat, a: seq<Message>, b: seq<Message>)
    ensures On(k, a + b) == On(k, a) + On(k, b)
    decreases |a|
  {
    if a == [] {
      assert a + b == b;
    } else {
      assert (a + b)[1..] == a[1..] + b && (a + b)[0] == a[0];
      OnAppends(k, a[1..], b);
      var first := if a[0].csid == k then [a[0]] else [];
      assert (first + On(k, a[1..])) + On(k, b) == first + (On(k, a[1..]) + On(k, b));
    }
  }

  /** One more chunk of stream `k` in front of the others. */
  lemma OwnChunkFirst(k: nat, p: Parser, q: Parser, d: seq<byte>, more: seq<byte>)
    requires Alike(k, p, q) && Attempt(p, d).Unit? && ReadBasic(d).csid == k
    ensures var s := Attempt(p, d); var t := Attempt(q, d);
            t.Unit? && t.used == s.used && Attempt(q, d[..s.used] + more) == t
  {
    OwnMoves(k, p, q, d);
    ChunkShrinks(q, d);
    ChunkExtends(q, d[..Attempt(p, d).used], more);
  }

  ghost predicate Demuxed(k: nat, p: Parser, q: Parser, d: seq<byte>) {
    var all, own := Parse(ChunkStep, p, d), Parse(ChunkStep, q, Own(k, p, d));
    own.out == On(k, all.out) && own.rest == [] && (all.rest == [] ==> Alike(k, all.p, own.p))
  }

  lemma OwnFirst(k: nat, p: Parser, q: Parser, d: seq<byte>)
    requires Alike(k, p, q) && Attempt(p, d).Unit? && ReadBasic(d).csid == k && Attempt(q, d).Unit?
    requires var s := Attempt(p, d); Demuxed(k, s.p, Attempt(q, d).p, d[s.used..])
    ensures Demuxed(k, p, q, d)
  {
    var s, t := Attempt(p, d), Attempt(q, d);
    var rest := d[s.used..];
    var own := Own(k, s.p, rest);
    OwnMoves(k, p, q, d);
    OwnChunkFirst(k, p, q, d, own);
    assert (d[..s.used] + own)[s.used..] == own;
    OnAppends(k, s.out, Parse(ChunkStep, s.p, rest).out);
  }

  lemma OtherFirst(k: nat, p: Parser, q: Parser, d: seq<byte>)
    requires Alike(k, p, q) && Attempt(p, d).Unit? && ReadBasic(d).csid != k && On(k, Attempt(p, d).out) == []
    requires var s := Attempt(p, d); Demuxed(k, s.p, q, d[s.used..])
    ensures Demuxed(k, p, q, d)
  {
    var s := Attempt(p, d);
    var rest := d[s.used..];
    OnAppends(k, s.out, Parse(ChunkStep, s.p, rest).out);
    assert [] + Own(k, s.p, rest) == Own(k, s.p, rest);
  }

  /** Parsing all the chunks and then looking at stream `k` is parsing only the chunks of stream `k`,
      as long as no message changes the chunk size. */
  lemma {:induction false} Demultiplexes(k: nat, p: Parser, q: Parser, d: seq<byte>)
    requires Alike(k, p, q) && KeepsChunkSize(Parse(ChunkStep, p, d).out)
    ensures var all, own := Parse(ChunkStep, p, d), Parse(ChunkStep, q, Own(k, p, d));
            own.out == On(k, all.out) && own.rest == [] && (all.rest == [] ==> Alike(k, all.p, own.p))
    decreases |d|
  {
    if d != [] && Attempt(p, d).Unit? {
      var s := Attempt(p, d);
      var rest := d[s.used..];
      KeepsInPart(s.out, Parse(ChunkStep, s.p, rest).out);
      if ReadBasic(d).csid == k {
        OwnMoves(k, p, q, d);
        Demultiplexes(k, s.p, Attempt(q, d).p, rest);
        OwnFirst(k, p, q, d);
      } else {
        OthersStay(k, p, q, d);
        Demultiplexes(k, s.p, q, rest);
        OtherFirst(k, p, q, d);
      }
    }
  }

  lemma KeepsInPart(a: seq<Message>, b: seq<Message>)
    requires KeepsChunkSize(a + b)
    ensures KeepsChunkSize(a) && KeepsChunkSize(b)
  {
    assert forall m :: m in a || m in b ==> m in a + b;
  }

  /** The same for a stream that arrives in any pieces. */
  lemma DemultiplexesInPieces(k: nat, p: Parser, pieces: seq<seq<byte>>)
    requires k < MAX_CS && ParserBoundary(p) && NeverBad(ChunkStep, Abandons, p, Join(pieces))
    requires KeepsChunkSize(Feed(ChunkStep, p, [], pieces).out)
    ensures On(k, Feed(ChunkStep, p, [], pieces).out) == Parse(ChunkStep, p, Own(k, p, Join(pieces))).out
  {
    ChunkCutsDoNotMatter(p, pieces);
    Demultiplexes(k, p, p, Join(pieces));
  }
}
