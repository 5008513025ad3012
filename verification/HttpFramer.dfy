/** Cutting an HTTP byte stream into headers and bodies, whatever pieces it arrives in. */
module HttpFramer {
  import opened Bytes
  import opened Incremental

  /** What the callbacks get.  The body of a message that lasts until the connection closes comes in
      whatever pieces arrive. */
  datatype Event = Header(text: seq<byte>) | Content(body: seq<byte>) | Flow(part: seq<byte>)

  /** What the program answers to a header: the length of the body that follows it, negative if it lasts
      until the connection closes. */
  type OnHeader = seq<byte> -> int

  predicate TailAt(d: seq<byte>, i: nat) {
    i + 3 < |d| && d[i] == 13 && d[i + 1] == 10 && d[i + 2] == 13 && d[i + 3] == 10
  }

  /** The end of the first empty line at or after `from`; 0 if there is none. */
  function TailFrom(d: seq<byte>, from: nat): (n: nat)
    ensures n == 0 ==> forall i :: from <= i ==> !TailAt(d, i)
    ensures n > 0 ==> n >= from + 4 && TailAt(d, n - 4) && forall i :: from <= i < n - 4 ==> !TailAt(d, i)
    decreases |d| - from
  {
    if from + 3 >= |d| then 0 else if TailAt(d, from) then from + 4 else TailFrom(d, from + 1)
  }

  function Tail(d: seq<byte>): (n: nat)
    ensures n <= |d|
  {
    TailFrom(d, 0)
  }

  method SearchTail(d: seq<byte>) returns (n: nat)
    ensures n == Tail(d)
  {
    var i := 0;
    while i + 3 < |d|
      invariant TailFrom(d, i) == Tail(d)
    {
      if d[i] == 13 && d[i + 1] == 10 && d[i + 2] == 13 && d[i + 3] == 10 { return i + 4; }
      i := i + 1;
    }
    return 0;
  }

  // ---- the framer as a machine whose state is the length of the body it waits for

  function FrameOne(h: OnHeader, p: int, d: seq<byte>): Step<int, Event> {
    if d == [] then Stall(p)
    else if p == 0 then
      if Tail(d) == 0 then Stall(p) else Unit(h(d[..Tail(d)]), Tail(d), [Header(d[..Tail(d)])])
    else if p > 0 then
      if |d| < p then Stall(p) else Unit(0, p, [Content(d[..p])])
    else Unit(p, 1, [Flow(d[..1])])
  }

  function Framing(h: OnHeader): Reader<int, Event> {
    (p: int, d: seq<byte>) => FrameOne(h, p, d)
  }

  ghost const ANY: int -> bool := (p: int) => true
  ghost const NEVER: (int, seq<byte>) -> bool := (p: int, d: seq<byte>) => false

  lemma TailExtends(d: seq<byte>, e: seq<byte>)
    requires Tail(d) > 0
    ensures Tail(d + e) == Tail(d)
  {
    var n := Tail(d);
    assert TailAt(d + e, n - 4);
    forall i: nat | i < n - 4 ensures !TailAt(d + e, i) {
      assert !TailAt(d, i);
    }
  }

  lemma FrameExtends(h: OnHeader, p: int, d: seq<byte>, e: seq<byte>)
    requires FrameOne(h, p, d).Unit?
    ensures Progress(FrameOne(h, p, d), d) && FrameOne(h, p, d + e) == FrameOne(h, p, d)
  {
    var n := FrameOne(h, p, d).used;
    assert (d + e)[..n] == d[..n];
    if p == 0 { TailExtends(d, e); }
  }

  lemma FramesAreResumable(h: OnHeader)
    ensures Resumable(Framing(h), ANY, NEVER)
  {
    forall p: int, d: seq<byte>, e: seq<byte> ensures UnitExtends(Framing(h), ANY, p, d, e) {
      if FrameOne(h, p, d).Unit? { FrameExtends(h, p, d, e); }
    }
  }

  lemma {:induction false} NothingIsBad(h: OnHeader, p: int, d: seq<byte>)
    ensures NeverBad(Framing(h), NEVER, p, d)
    decreases |d|
  {
    if d != [] && Progress(FrameOne(h, p, d), d) {
      NothingIsBad(h, FrameOne(h, p, d).p, d[FrameOne(h, p, d).used..]);
    }
  }

  /** What the cache can hold: no complete header, less than the body, nothing of an endless body. */
  predicate CacheInv(p: int, rest: seq<byte>) {
    if p == 0 then Tail(rest) == 0 else if p > 0 then |rest| < p else rest == []
  }

  lemma {:induction false} CacheHolds(h: OnHeader, p: int, d: seq<byte>)
    ensures var r := Parse(Framing(h), p, d); CacheInv(r.p, r.rest)
    decreases |d|
  {
    if d != [] && Progress(FrameOne(h, p, d), d) {
      CacheHolds(h, FrameOne(h, p, d).p, d[FrameOne(h, p, d).used..]);
    }
  }

  /** A cache like that is what a pass leaves alone. */
  lemma CacheIsQuiet(h: OnHeader, p: int, rest: seq<byte>)
    requires CacheInv(p, rest)
    ensures Parse(Framing(h), p, rest) == Result(p, rest, [])
  {
  }

  // ---- what the callbacks get, in terms of the bytes that came in

  function BytesOf(e: Event): seq<byte> {
    match e
    case Header(text) => text
    case Content(body) => body
    case Flow(part) => part
  }

  /** The bytes of all events, joined in order. */
  function Joined(log: seq<Event>): seq<byte>
    decreases |log|
  {
    if log == [] then [] else BytesOf(log[0]) + Joined(log[1..])
  }

  lemma {:induction false} JoinedOn(a: seq<Event>, b: seq<Event>)
    ensures Joined(a + b) == Joined(a) + Joined(b)
    decreases |a|
  {
    if a == [] {
      assert a + b == b;
    } else {
      assert (a + b)[1..] == a[1..] + b;
      JoinedOn(a[1..], b);
    }
  }

  predicate EmptyLineAt(d: seq<byte>, i: nat) {
    i + 4 <= |d| && d[i..i + 4] == [13, 10, 13, 10]
  }

  /** The text goes up to the end of its first empty line. */
  predicate OneHeader(text: seq<byte>) {
    |text| >= 4 && EmptyLineAt(text, |text| - 4) && forall i :: 0 <= i < |text| - 4 ==> !EmptyLineAt(text, i)
  }

  /** Events that may follow each other when a body of length `p` is due, and the length that is due behind them:
      a header is followed by a body of exactly the length that the program answered to it, or by the parts of an
      endless one, or, if it answered 0, by the next header. */
  predicate Lawful(h: OnHeader, p: int, log: seq<Event>, q: int)
    decreases |log|
  {
    if log == [] then q == p
    else
      match log[0]
      case Header(text) => p == 0 && OneHeader(text) && Lawful(h, h(text), log[1..], q)
      case Content(body) => p > 0 && |body| == p && Lawful(h, 0, log[1..], q)
      case Flow(part) => p < 0 && part != [] && Lawful(h, p, log[1..], q)
  }

  /** With `p` due, nothing in `rest` can be passed on yet. */
  predicate Waits(p: int, rest: seq<byte>) {
    if p == 0 then forall i :: 0 <= i < |rest| ==> !EmptyLineAt(rest, i) else if p > 0 then |rest| < p else rest == []
  }

  /** Parts come byte by byte. */
  predicate Bytes1(log: seq<Event>) {
    forall i :: 0 <= i < |log| && log[i].Flow? ==> |log[i].part| == 1
  }

  lemma FourBytes(d: seq<byte>, i: nat)
    ensures EmptyLineAt(d, i) <==> TailAt(d, i)
  {
    if i + 4 <= |d| { assert d[i..i + 4] == [d[i], d[i + 1], d[i + 2], d[i + 3]]; }
  }

  lemma TailIs(d: seq<byte>, n: nat)
    requires n <= |d| && OneHeader(d[..n])
    ensures Tail(d) == n
  {
    FourBytes(d[..n], n - 4);
    assert TailAt(d, n - 4);
    var m := Tail(d);
    if 0 < m < n { FourBytes(d[..n], m - 4); }
  }

  lemma TailEnds(d: seq<byte>)
    requires Tail(d) > 0
    ensures OneHeader(d[..Tail(d)])
  {
    var n := Tail(d);
    var t := d[..n];
    FourBytes(t, n - 4);
    forall i | 0 <= i < n - 4 ensures !EmptyLineAt(t, i) {
      FourBytes(t, i);
      assert !TailAt(d, i);
    }
  }

  lemma WaitsIs(p: int, rest: seq<byte>)
    ensures Waits(p, rest) <==> CacheInv(p, rest)
  {
    if p == 0 {
      var n := Tail(rest);
      if n > 0 {
        FourBytes(rest, n - 4);
      } else {
        forall i | 0 <= i < |rest| ensures !EmptyLineAt(rest, i) {
          if EmptyLineAt(rest, i) {
            FourBytes(rest, i);
          }
        }
      }
    }
  }

  /** A way to take `d` apart into events that may follow each other and a rest that has to wait. */
  predicate Frames(h: OnHeader, p: int, d: seq<byte>, r: Result<int, Event>) {
    Joined(r.out) + r.rest == d && Lawful(h, p, r.out, r.p) && Waits(r.p, r.rest) && Bytes1(r.out)
  }

  lemma OneMoreFrame(h: OnHeader, p: int, d: seq<byte>, r: Result<int, Event>)
    requires d != [] && Progress(FrameOne(h, p, d), d)
    requires var s := FrameOne(h, p, d); Frames(h, s.p, d[s.used..], r)
    ensures Frames(h, p, d, Result(r.p, r.rest, FrameOne(h, p, d).out + r.out))
  {
    var s := FrameOne(h, p, d);
    var out := s.out + r.out;
    assert out[0] == s.out[0] && out[1..] == r.out;
    assert BytesOf(s.out[0]) == d[..s.used];
    if p == 0 { TailEnds(d); }
  }

  /** What comes out is such a way. */
  lemma {:induction false} ParseFrames(h: OnHeader, p: int, d: seq<byte>)
    ensures Frames(h, p, d, Parse(Framing(h), p, d))
    decreases |d|
  {
    if d != [] && Progress(FrameOne(h, p, d), d) {
      var s := FrameOne(h, p, d);
      ParseFrames(h, s.p, d[s.used..]);
      OneMoreFrame(h, p, d, Parse(Framing(h), s.p, d[s.used..]));
    } else {
      WaitsIs(p, d);
    }
  }

  /** The first event of any such way is the first unit. */
  lemma FirstFrame(h: OnHeader, p: int, d: seq<byte>, r: Result<int, Event>)
    requires Frames(h, p, d, r) && r.out != []
    ensures var s := FrameOne(h, p, d);
            && d != [] && Progress(s, d) && s.out + r.out[1..] == r.out
            && Frames(h, s.p, d[s.used..], Result(r.p, r.rest, r.out[1..]))
  {
    var n := |BytesOf(r.out[0])|;
    assert d[..n] == BytesOf(r.out[0]) && d[n..] == Joined(r.out[1..]) + r.rest;
    if r.out[0].Header? { TailIs(d, n); }
    hide Tail, OneHeader, Waits;
    assert Lawful(h, FrameOne(h, p, d).p, r.out[1..], r.p);
  }

  /** And it is the only one. */
  lemma {:induction false} FramesAreUnique(h: OnHeader, p: int, d: seq<byte>, r: Result<int, Event>)
    requires Frames(h, p, d, r)
    ensures Parse(Framing(h), p, d) == r
    decreases |r.out|
  {
    if r.out == [] {
      assert d == r.rest;
      WaitsIs(p, r.rest);
      CacheIsQuiet(h, p, r.rest);
    } else {
      FirstFrame(h, p, d, r);
      hide FrameOne, Frames;
      var s := FrameOne(h, p, d);
      FramesAreUnique(h, s.p, d[s.used..], Result(r.p, r.rest, r.out[1..]));
    }
  }

  /** The framer passes on every byte of its input exactly once and in order, cut where the texts of headers end and
      where the bodies that the program announced end; and in no other way. */
  lemma FramingIff(h: OnHeader, p: int, d: seq<byte>, r: Result<int, Event>)
    ensures Parse(Framing(h), p, d) == r <==> Frames(h, p, d, r)
  {
    ParseFrames(h, p, d);
    if Frames(h, p, d, r) { FramesAreUnique(h, p, d, r); }
  }

  // ---- calls

  datatype Framer = Framer(contentLen: int, cache: seq<byte>)

  datatype Delivery = Delivery(f: Framer, ok: bool, out: seq<Event>)

  /** One call; too much for the cache discards everything. */
  function Deliver(h: OnHeader, limit: nat, f: Framer, data: seq<byte>): Delivery {
    if data == [] then Delivery(f, false, [])
    else if |f.cache| + |data| > limit then Delivery(Framer(0, []), false, [])
    else
      var r := Parse(Framing(h), f.contentLen, f.cache + data);
      Delivery(Framer(r.p, r.rest), true, r.out)
  }

  function DeliverAll(h: OnHeader, limit: nat, f: Framer, pieces: seq<seq<byte>>): Delivery
    decreases |pieces|
  {
    if pieces == [] then Delivery(f, true, [])
    else
      var a := Deliver(h, limit, f, pieces[0]);
      var b := DeliverAll(h, limit, a.f, pieces[1..]);
      Delivery(b.f, a.ok && b.ok, a.out + b.out)
  }

  lemma OneMoreBytes(log: seq<Event>, e: Event)
    ensures Joined(log + [e]) == Joined(log) + BytesOf(e)
  {
    JoinedOn(log, [e]);
    assert Joined([e]) == BytesOf(e) + Joined([e][1..]);
  }

  /** Over any calls whose input fits into the cache: every byte is passed on exactly once and in order, or still
      in the cache. */
  lemma NothingIsLost(h: OnHeader, limit: nat, f: Framer, pieces: seq<seq<byte>>)
    requires NonEmpty(pieces) && CacheInv(f.contentLen, f.cache) && |f.cache| + |Join(pieces)| <= limit
    ensures var r := DeliverAll(h, limit, f, pieces);
            r.ok && Frames(h, f.contentLen, f.cache + Join(pieces), Result(r.f.contentLen, r.f.cache, r.out))
  {
    PiecesAreOnePass(h, limit, f, pieces);
    ParseFrames(h, f.contentLen, f.cache + Join(pieces));
  }

  /** Any two ways to cut the input into non-empty pieces give the same headers, bodies and state, and all
      calls succeed, if the input as a whole fits into the cache. */
  lemma {:induction false} PiecesAreOnePass(h: OnHeader, limit: nat, f: Framer, pieces: seq<seq<byte>>)
    requires NonEmpty(pieces) && CacheInv(f.contentLen, f.cache) && |f.cache| + |Join(pieces)| <= limit
    ensures var r := Parse(Framing(h), f.contentLen, f.cache + Join(pieces));
            DeliverAll(h, limit, f, pieces) == Delivery(Framer(r.p, r.rest), true, r.out) && CacheInv(r.p, r.rest)
    decreases |pieces|
  {
    if pieces == [] {
      assert f.cache + Join(pieces) == f.cache;
      CacheIsQuiet(h, f.contentLen, f.cache);
    } else {
      var d, more := f.cache + pieces[0], Join(pieces[1..]);
      assert f.cache + Join(pieces) == d + more;
      FramesAreResumable(h);
      NothingIsBad(h, f.contentLen, d + more);
      ParseResumes(Framing(h), ANY, NEVER, f.contentLen, d, more);
      CacheHolds(h, f.contentLen, d);
      PiecesAreOnePass(h, limit, Deliver(h, limit, f, pieces[0]).f, pieces[1..]);
    }
  }

  /** In particular, one call with everything does the same as one call per byte. */
  lemma CutsDoNotMatter(h: OnHeader, limit: nat, a: seq<seq<byte>>, b: seq<seq<byte>>)
    requires NonEmpty(a) && NonEmpty(b) && Join(a) == Join(b) && |Join(a)| <= limit
    ensures DeliverAll(h, limit, Framer(0, []), a) == DeliverAll(h, limit, Framer(0, []), b)
  {
    PiecesAreOnePass(h, limit, Framer(0, []), a);
    PiecesAreOnePass(h, limit, Framer(0, []), b);
  }

  // ---- the log of callbacks, with the pieces of endless bodies taken apart

  function Bytewise(part: seq<byte>): (out: seq<Event>) {
    if part == [] then [] else [Flow(part[..1])] + Bytewise(part[1..])
  }

  function Norm(log: seq<Event>): seq<Event>
    decreases |log|
  {
    if log == [] then []
    else
      var k := |log| - 1;
      Norm(log[..k]) + if log[k].Flow? then Bytewise(log[k].part) else [log[k]]
  }

  lemma {:induction false} EndlessBody(h: OnHeader, p: int, d: seq<byte>)
    requires p < 0
    ensures Parse(Framing(h), p, d) == Result(p, [], Bytewise(d))
    decreases |d|
  {
    if d != [] { EndlessBody(h, p, d[1..]); }
  }

  lemma {:induction false} BytewiseBytes(part: seq<byte>)
    ensures Joined(Bytewise(part)) == part
    decreases |part|
  {
    if part != [] {
      BytewiseBytes(part[1..]);
      JoinedOn([Flow(part[..1])], Bytewise(part[1..]));
      assert Joined([Flow(part[..1])]) == part[..1] + Joined([]) by { assert [Flow(part[..1])][1..] == []; }
    }
  }

  lemma NormAppends(log: seq<Event>, e: Event)
    ensures Norm(log + [e]) == Norm(log) + if e.Flow? then Bytewise(e.part) else [e]
  {
    assert (log + [e])[..|log|] == log;
  }

  /** Taking endless bodies apart changes no byte. */
  lemma {:induction false} NormBytes(log: seq<Event>)
    ensures Joined(Norm(log)) == Joined(log)
    decreases |log|
  {
    if log != [] {
      hide Joined, Bytewise, BytesOf, Norm;
      var k, e := |log| - 1, log[|log| - 1];
      NormBytes(log[..k]);
      PiecesBytes(e);
      JoinedOn(Norm(log[..k]), if e.Flow? then Bytewise(e.part) else [e]);
      NormAppends(log[..k], e);
      OneMoreBytes(log[..k], e);
      assert log[..k] + [e] == log;
    }
  }

  lemma PiecesBytes(e: Event)
    ensures Joined(if e.Flow? then Bytewise(e.part) else [e]) == BytesOf(e)
  {
    if e.Flow? { BytewiseBytes(e.part); } else { assert [e][1..] == []; }
  }

  /** If a call does what is specified, no byte is lost. */
  lemma PassedOn(h: OnHeader, limit: nat, f: Framer, data: seq<byte>, before: seq<Event>, after: seq<Event>)
    requires var r := Deliver(h, limit, f, data); r.ok && Norm(after) == Norm(before) + r.out
    ensures Joined(after) + Deliver(h, limit, f, data).f.cache == Joined(before) + f.cache + data
  {
    hide Joined, Norm, Lawful, Waits, Bytes1, Parse;
    var r := Deliver(h, limit, f, data);
    ParseFrames(h, f.contentLen, f.cache + data);
    NormBytes(after);
    NormBytes(before);
    JoinedOn(Norm(before), r.out);
    var out, rest := Joined(r.out), r.f.cache;
    assert out + rest == f.cache + data;
    assert Joined(after) + rest == Joined(before) + (out + rest);
  }

  class MessageFramer {
    const onHeader: OnHeader
    const limit: nat
    var contentLen: int
    var remain: seq<byte>
    var remainSize: nat
    var log: seq<Event>

    ghost function Value(): Framer
      reads this
    {
      Framer(contentLen, remain)
    }

    constructor (h: OnHeader, maxCache: nat)
      ensures onHeader == h && limit == (if maxCache != 0 then maxCache else 4 * 1024 * 1024)
      ensures Value() == Framer(0, []) && log == []
    {
      onHeader, limit := h, if maxCache != 0 then maxCache else 4 * 1024 * 1024;
      contentLen, remain, remainSize, log := 0, [], 0, [];
    }

    method Reset()
      modifies this`contentLen, this`remain, this`remainSize
      ensures Value() == Framer(0, []) && remainSize == 0
    {
      contentLen, remain, remainSize := 0, [], 0;
    }

    /** `d` is what is left to frame of `all`. */
    ghost predicate Framed(p0: int, all: seq<byte>, before: seq<Event>, d: seq<byte>)
      reads this
    {
      SoFar(Framing(onHeader), p0, all, before, contentLen, d, Norm(log))
    }

    method TakeHeaders(d: seq<byte>, ghost p0: int, ghost all: seq<byte>, ghost before: seq<Event>) returns (rest: seq<byte>)
      requires Framed(p0, all, before, d)
      modifies this`contentLen, this`log
      ensures Framed(p0, all, before, rest) && |rest| <= |d|
      ensures contentLen != 0 || rest == [] || Tail(rest) == 0
    {
      rest := d;
      while contentLen == 0 && rest != []
        invariant Framed(p0, all, before, rest) && |rest| <= |d|
        decreases |rest|
      {
        var n := SearchTail(rest);
        if n == 0 { return; }
        rest := TakeHeader(rest, n, p0, all, before);
      }
    }

    method TakeHeader(d: seq<byte>, n: nat, ghost p0: int, ghost all: seq<byte>, ghost before: seq<Event>) returns (rest: seq<byte>)
      requires Framed(p0, all, before, d) && contentLen == 0 && 0 < n == Tail(d)
      modifies this`contentLen, this`log
      ensures Framed(p0, all, before, rest) && |rest| < |d|
    {
      OneMore(Framing(onHeader), p0, all, before, contentLen, d, Norm(log));
      NormAppends(log, Header(d[..n]));
      log := log + [Header(d[..n])];
      contentLen := onHeader(d[..n]);
      rest := d[n..];
    }

    method TakeContent(d: seq<byte>, ghost p0: int, ghost all: seq<byte>, ghost before: seq<Event>) returns (rest: seq<byte>)
      requires Framed(p0, all, before, d) && 0 < contentLen <= |d|
      modifies this`contentLen, this`log
      ensures Framed(p0, all, before, rest) && |rest| < |d|
    {
      OneMore(Framing(onHeader), p0, all, before, contentLen, d, Norm(log));
      NormAppends(log, Content(d[..contentLen]));
      log := log + [Content(d[..contentLen])];
      rest := d[contentLen..];
      contentLen := 0;
    }

    method TakeEndless(d: seq<byte>, ghost p0: int, ghost all: seq<byte>, ghost before: seq<Event>)
      requires Framed(p0, all, before, d) && contentLen < 0
      modifies this`log
      ensures Framed(p0, all, before, [])
    {
      EndlessBody(onHeader, contentLen, d);
      NormAppends(log, Flow(d));
      log := log + [Flow(d)];
    }

    lemma BytesPass(data: seq<byte>)
      ensures var r := Deliver(onHeader, limit, Value(), data);
              forall after :: r.ok && Norm(after) == Norm(log) + r.out ==>
                Joined(after) + r.f.cache == Joined(log) + remain + data
    {
      hide Deliver, Joined, Norm;
      var r := Deliver(onHeader, limit, Value(), data);
      forall after | r.ok && Norm(after) == Norm(log) + r.out
        ensures Joined(after) + r.f.cache == Joined(log) + remain + data
      {
        PassedOn(onHeader, limit, Value(), data, log, after);
      }
    }

    method Input(data: seq<byte>) returns (ok: bool)
      modifies this`contentLen, this`remain, this`remainSize, this`log
      ensures var r := Deliver(onHeader, limit, old(Value()), data);
              ok == r.ok && Value() == r.f && Norm(log) == Norm(old(log)) + r.out
      ensures ok ==> Joined(log) + remain == Joined(old(log)) + old(remain) + data
      ensures ok <==> data != [] && |old(remain)| + |data| <= limit
      ensures !ok ==> log == old(log) && (data != [] ==> remain == [] && contentLen == 0)
    {
      BytesPass(data);
      if data == [] { return false; }
      if |remain| + |data| > limit {
        Reset();
        return false;
      }
      var d := if |remain| > 0 then remain + data else data;
      ghost var p0, all, before := contentLen, remain + data, Norm(log);
      assert d == all;
      ok := true;
      while true
        invariant Framed(p0, all, before, d) && ok
        decreases |d|
      {
        d := TakeHeaders(d, p0, all, before);
        remainSize := |d|;
        if d == [] || contentLen == 0 || (contentLen > 0 && |d| < contentLen) {
          remain := d;
          return;
        }
        if contentLen < 0 {
          TakeEndless(d, p0, all, before);
          remain, remainSize := [], 0;
          return;
        }
        d := TakeContent(d, p0, all, before);
        remainSize := |d|;
        if d == [] {
          remain := [];
          return;
        }
        remain := d;
      }
    }
  }
}
