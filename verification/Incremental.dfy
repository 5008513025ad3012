/** Incremental parsing in general: a reader that tries one unit at the front of the bytes it has, keeps
    what it could not use, and tries again when more bytes arrive.  A failed attempt may change the
    reader's state. */
module Incremental {
  import opened Bytes

  /** One attempt: either it used up some bytes and emitted something, or there are too few of them. */
  datatype Step<P, M> = Stall(p: P) | Unit(p: P, used: nat, out: seq<M>)

  datatype Result<P, M> = Result(p: P, rest: seq<byte>, out: seq<M>)

  type Reader<!P, !M> = (P, seq<byte>) -> Step<P, M>

  predicate Progress<P, M>(s: Step<P, M>, d: seq<byte>) {
    s.Unit? && 0 < s.used <= |d|
  }

  /** One pass over the bytes. */
  function Parse<P, M>(step: Reader<P, M>, p: P, d: seq<byte>): (r: Result<P, M>)
    ensures |r.rest| <= |d|
    decreases |d|
  {
    if d == [] then Result(p, d, [])
    else
      var s := step(p, d);
      if !Progress(s, d) then Result(s.p, d, [])
      else
        var r := Parse(step, s.p, d[s.used..]);
        Result(r.p, r.rest, s.out + r.out)
  }

  /** Passes until one consumes nothing. */
  function Drive<P, M>(step: Reader<P, M>, p: P, rx: seq<byte>): (r: Result<P, M>)
    decreases |rx|
  {
    if rx == [] then Result(p, rx, [])
    else
      var r := Parse(step, p, rx);
      if |r.rest| == |rx| then r
      else
        var q := Drive(step, r.p, r.rest);
        Result(q.p, q.rest, r.out + q.out)
  }

  /** One call after another, each with one piece of the input. */
  function Feed<P, M>(step: Reader<P, M>, p: P, rx: seq<byte>, pieces: seq<seq<byte>>): Result<P, M>
    decreases |pieces|
  {
    if pieces == [] then Result(p, rx, [])
    else
      var r := Drive(step, p, rx + pieces[0]);
      var q := Feed(step, r.p, r.rest, pieces[1..]);
      Result(q.p, q.rest, r.out + q.out)
  }

  function Join(pieces: seq<seq<byte>>): seq<byte>
    decreases |pieces|
  {
    if pieces == [] then [] else pieces[0] + Join(pieces[1..])
  }

  /** An input call needs at least one byte. */
  predicate NonEmpty(pieces: seq<seq<byte>>) {
    forall i :: 0 <= i < |pieces| ==> pieces[i] != []
  }

  // ---- what a reader has to satisfy; `good` describes the states between units, `bad` the inputs at
  // ---- which a retry goes wrong

  /** A unit stays that unit when more bytes follow it. */
  ghost predicate UnitExtends<P, M>(step: Reader<P, M>, good: P -> bool, p: P, d: seq<byte>, e: seq<byte>) {
    good(p) && step(p, d).Unit? ==> Progress(step(p, d), d) && good(step(p, d).p) && step(p, d + e) == step(p, d)
  }

  /** A failed attempt can be repeated from its first byte although it has changed the state. */
  ghost predicate StallResumes<P, M>(step: Reader<P, M>, good: P -> bool, bad: (P, seq<byte>) -> bool, p: P, d: seq<byte>, e: seq<byte>) {
    good(p) && step(p, d).Stall? && !bad(p, d + e) ==> step(step(p, d).p, d + e) == step(p, d + e)
  }

  ghost predicate BadExtends<P>(good: P -> bool, bad: (P, seq<byte>) -> bool, p: P, d: seq<byte>, e: seq<byte>) {
    good(p) && bad(p, d) ==> bad(p, d + e)
  }

  ghost predicate Resumable<P(!new), M>(step: Reader<P, M>, good: P -> bool, bad: (P, seq<byte>) -> bool) {
    && (forall p, d, e :: UnitExtends(step, good, p, d, e))
    && (forall p, d, e :: StallResumes(step, good, bad, p, d, e))
    && (forall p, d, e :: BadExtends(good, bad, p, d, e))
  }

  /** No unit boundary in `d`, starting from `p`, is followed by a bad input. */
  predicate NeverBad<P, M>(step: Reader<P, M>, bad: (P, seq<byte>) -> bool, p: P, d: seq<byte>)
    decreases |d|
  {
    d == [] || (!bad(p, d) && var s := step(p, d); Progress(s, d) ==> NeverBad(step, bad, s.p, d[s.used..]))
  }

  lemma {:induction false} NeverBadPrefix<P(!new), M>(step: Reader<P, M>, good: P -> bool, bad: (P, seq<byte>) -> bool,
                                                      p: P, d: seq<byte>, e: seq<byte>)
    requires Resumable(step, good, bad) && good(p) && NeverBad(step, bad, p, d + e)
    ensures NeverBad(step, bad, p, d)
    decreases |d|
  {
    if d != [] {
      assert BadExtends(good, bad, p, d, e) && UnitExtends(step, good, p, d, e);
      var s := step(p, d);
      if Progress(s, d) {
        assert (d + e)[s.used..] == d[s.used..] + e;
        NeverBadPrefix(step, good, bad, s.p, d[s.used..], e);
      }
    }
  }

  /** Parsing on from where a pass stopped is the same as parsing everything at once. */
  lemma {:induction false} ParseResumes<P(!new), M>(step: Reader<P, M>, good: P -> bool, bad: (P, seq<byte>) -> bool,
                                                    p: P, d: seq<byte>, e: seq<byte>)
    requires Resumable(step, good, bad) && good(p) && NeverBad(step, bad, p, d + e)
    ensures var r := Parse(step, p, d); var q := Parse(step, r.p, r.rest + e);
            Parse(step, p, d + e) == Result(q.p, q.rest, r.out + q.out)
    decreases |d|
  {
    if d == [] {
      assert d + e == e;
      var q := Parse(step, p, e);
      assert [] + q.out == q.out;
    } else {
      assert UnitExtends(step, good, p, d, e) && StallResumes(step, good, bad, p, d, e);
      var s := step(p, d);
      if s.Stall? {
        assert Parse(step, p, d) == Result(s.p, d, []);
        var q := Parse(step, s.p, d + e);
        assert [] + q.out == q.out;
      } else {
        var rest := d[s.used..];
        assert (d + e)[s.used..] == rest + e;
        ParseResumes(step, good, bad, s.p, rest, e);
        var r := Parse(step, s.p, rest);
        var q := Parse(step, r.p, r.rest + e);
        assert (s.out + r.out) + q.out == s.out + (r.out + q.out);
      }
    }
  }

  /** A second pass finds nothing new. */
  lemma ParseIsDone<P(!new), M>(step: Reader<P, M>, good: P -> bool, bad: (P, seq<byte>) -> bool, p: P, d: seq<byte>)
    requires Resumable(step, good, bad) && good(p) && NeverBad(step, bad, p, d)
    ensures var r := Parse(step, p, d); Parse(step, r.p, r.rest) == Result(r.p, r.rest, [])
  {
    var r := Parse(step, p, d);
    assert d + [] == d;
    ParseResumes(step, good, bad, p, d, []);
    assert r.rest + [] == r.rest;
    assert |r.out + Parse(step, r.p, r.rest).out| == |r.out|;
  }

  /** (p, rx) is the state after the bytes `d` were received, in whatever pieces, from boundary `q`. */
  ghost predicate After<P, M>(step: Reader<P, M>, q: P, d: seq<byte>, p: P, rx: seq<byte>) {
    p == Parse(step, q, d).p && rx == Parse(step, q, d).rest
  }

  /** After the pieces the reader is where one pass over `all` would have left it, and what they brought
      is what that pass adds to one over `d`. */
  ghost predicate Fed<P, M>(step: Reader<P, M>, q: P, d: seq<byte>, all: seq<byte>, r: Result<P, M>) {
    After(step, q, all, r.p, r.rest) && Parse(step, q, all).out == Parse(step, q, d).out + r.out
  }

  lemma DriveIsParse<P(!new), M>(step: Reader<P, M>, good: P -> bool, bad: (P, seq<byte>) -> bool,
                                 q: P, d: seq<byte>, p: P, rx: seq<byte>, e: seq<byte>)
    requires Resumable(step, good, bad) && good(q) && NeverBad(step, bad, q, d + e) && After(step, q, d, p, rx)
    ensures Fed(step, q, d, d + e, Drive(step, p, rx + e))
  {
    NeverBadPrefix(step, good, bad, q, d, e);
    ParseResumes(step, good, bad, q, d, e);
    ParseIsDone(step, good, bad, q, d + e);
    var r := Parse(step, p, rx + e);
    if rx + e != [] && |r.rest| != |rx + e| {
      assert Drive(step, r.p, r.rest) == Result(r.p, r.rest, []);
      assert r.out + [] == r.out;
    }
  }

  lemma FedFurther<P, M>(step: Reader<P, M>, q: P, d: seq<byte>, mid: seq<byte>, all: seq<byte>, r: Result<P, M>, t: Result<P, M>)
    requires Fed(step, q, d, mid, r) && Fed(step, q, mid, all, t)
    ensures Fed(step, q, d, all, Result(t.p, t.rest, r.out + t.out))
  {
    assert (Parse(step, q, d).out + r.out) + t.out == Parse(step, q, d).out + (r.out + t.out);
  }

  lemma {:induction false} FeedIsParse<P(!new), M>(step: Reader<P, M>, good: P -> bool, bad: (P, seq<byte>) -> bool,
                                                   q: P, d: seq<byte>, p: P, rx: seq<byte>, pieces: seq<seq<byte>>)
    requires Resumable(step, good, bad) && good(q) && NeverBad(step, bad, q, d + Join(pieces)) && After(step, q, d, p, rx)
    ensures Fed(step, q, d, d + Join(pieces), Feed(step, p, rx, pieces))
    decreases |pieces|
  {
    if pieces == [] {
      assert d + Join(pieces) == d;
      assert Parse(step, q, d).out + [] == Parse(step, q, d).out;
    } else {
      var e, more := pieces[0], Join(pieces[1..]);
      assert d + Join(pieces) == (d + e) + more;
      NeverBadPrefix(step, good, bad, q, d + e, more);
      DriveIsParse(step, good, bad, q, d, p, rx, e);
      var r := Drive(step, p, rx + e);
      FeedIsParse(step, good, bad, q, d + e, r.p, r.rest, pieces[1..]);
      FedFurther(step, q, d, d + e, (d + e) + more, r, Feed(step, r.p, r.rest, pieces[1..]));
    }
  }

  /** However a byte stream is cut, what is emitted, the bytes left over and the state are those of one
      pass over the whole stream. */
  lemma CutsDoNotMatter<P(!new), M>(step: Reader<P, M>, good: P -> bool, bad: (P, seq<byte>) -> bool,
                                    q: P, pieces: seq<seq<byte>>)
    requires Resumable(step, good, bad) && good(q) && NeverBad(step, bad, q, Join(pieces))
    ensures Feed(step, q, [], pieces) == Parse(step, q, Join(pieces))
  {
    assert [] + Join(pieces) == Join(pieces);
    FeedIsParse(step, good, bad, q, [], q, [], pieces);
    var r := Feed(step, q, [], pieces);
    assert [] + r.out == r.out;
  }

  // ---- an object that parses step by step

  /** A pass over `data` from `p0` comes to `now` plus what a pass over `d` from `p` adds. */
  ghost predicate SoFar<P, M>(step: Reader<P, M>, p0: P, data: seq<byte>, before: seq<M>, p: P, d: seq<byte>, now: seq<M>) {
    var r, all := Parse(step, p, d), Parse(step, p0, data);
    all.p == r.p && all.rest == r.rest && before + all.out == now + r.out
  }

  lemma OneMore<P, M>(step: Reader<P, M>, p0: P, data: seq<byte>, before: seq<M>, p: P, d: seq<byte>, now: seq<M>)
    requires d != [] && SoFar(step, p0, data, before, p, d, now)
    ensures var s, all := step(p, d), Parse(step, p0, data);
            if Progress(s, d) then SoFar(step, p0, data, before, s.p, d[s.used..], now + s.out)
            else all.p == s.p && all.rest == d && before + all.out == now
  {
    var s := step(p, d);
    if Progress(s, d) {
      var r := Parse(step, s.p, d[s.used..]);
      assert now + (s.out + r.out) == (now + s.out) + r.out;
    }
  }

  /** The same for the passes of one call. */
  ghost predicate Driven<P, M>(step: Reader<P, M>, p0: P, rx0: seq<byte>, before: seq<M>, p: P, rx: seq<byte>, now: seq<M>) {
    var r, all := Drive(step, p, rx), Drive(step, p0, rx0);
    all.p == r.p && all.rest == r.rest && before + all.out == now + r.out
  }

  lemma OnePass<P, M>(step: Reader<P, M>, p0: P, rx0: seq<byte>, before: seq<M>, p: P, rx: seq<byte>, now: seq<M>)
    requires rx != [] && Driven(step, p0, rx0, before, p, rx, now)
    ensures var r, all := Parse(step, p, rx), Drive(step, p0, rx0);
            if |r.rest| == |rx| then all.p == r.p && all.rest == r.rest && before + all.out == now + r.out
            else Driven(step, p0, rx0, before, r.p, r.rest, now + r.out)
  {
    var r := Parse(step, p, rx);
    if |r.rest| != |rx| {
      var q := Drive(step, r.p, r.rest);
      assert now + (r.out + q.out) == (now + r.out) + q.out;
    }
  }

  // ---- when cuts do matter

  /** Any two ways to cut any beginning of `d` into non-empty pieces give the same result. */
  ghost predicate CutInvariant<P, M>(step: Reader<P, M>, q: P, d: seq<byte>) {
    forall a: seq<seq<byte>>, b: seq<seq<byte>> ::
      NonEmpty(a) && NonEmpty(b) && Join(a) == Join(b) && Join(a) <= d ==> Feed(step, q, [], a) == Feed(step, q, [], b)
  }

  /** The same, where only what is emitted is looked at. */
  ghost predicate OutInvariant<P, M>(step: Reader<P, M>, q: P, d: seq<byte>) {
    forall a: seq<seq<byte>>, b: seq<seq<byte>> ::
      NonEmpty(a) && NonEmpty(b) && Join(a) == Join(b) && Join(a) <= d ==> Feed(step, q, [], a).out == Feed(step, q, [], b).out
  }

  /** The first `m` bytes are one unit, but another one if the first `n` of them have been tried before. */
  ghost predicate Derailed<P, M>(step: Reader<P, M>, p: P, d: seq<byte>, n: nat, m: nat) {
    && 0 < n < m <= |d| && step(p, d[..n]).Stall?
    && var u, v := step(p, d[..m]), step(step(p, d[..n]).p, d[..m]);
    u.Unit? && v.Unit? && u.used == v.used == m && u.out != v.out
  }

  ghost predicate Derails<P, M>(step: Reader<P, M>, p: P, d: seq<byte>) {
    exists n: nat, m: nat :: Derailed(step, p, d, n, m)
  }

  /** A unit needs only the bytes it uses. */
  ghost predicate UnitShrinks<P, M>(step: Reader<P, M>, good: P -> bool, p: P, d: seq<byte>) {
    good(p) && step(p, d).Unit? ==> Progress(step(p, d), d) && step(p, d[..step(p, d).used]) == step(p, d)
  }

  /** The whole units before the first bad input. */
  lemma {:induction false} FindBad<P(!new), M>(step: Reader<P, M>, good: P -> bool, bad: (P, seq<byte>) -> bool,
                                               q: P, d: seq<byte>) returns (n: nat)
    requires Resumable(step, good, bad) && (forall p, x :: UnitShrinks(step, good, p, x))
    requires good(q) && !NeverBad(step, bad, q, d)
    ensures n < |d| && Parse(step, q, d[..n]).rest == [] && NeverBad(step, bad, q, d[..n])
    ensures good(Parse(step, q, d[..n]).p) && bad(Parse(step, q, d[..n]).p, d[n..])
    decreases |d|
  {
    if bad(q, d) {
      n := 0;
      assert d[0..] == d;
    } else {
      var s := step(q, d);
      assert UnitExtends(step, good, q, d, []) && UnitShrinks(step, good, q, d);
      var rest := d[s.used..];
      var k := FindBad(step, good, bad, s.p, rest);
      n := s.used + k;
      var unit := d[..s.used];
      assert UnitExtends(step, good, q, unit, rest[..k]);
      assert d[..n] == unit + rest[..k] && d[..n][s.used..] == rest[..k] && d[n..] == rest[k..];
      assert d[..n] + d[n..] == d;
      assert BadExtends(good, bad, q, d[..n], d[n..]);
    }
  }

  /** One call with just the bytes of a unit. */
  lemma DriveUnit<P, M>(step: Reader<P, M>, p: P, d: seq<byte>)
    requires d != [] && step(p, d).Unit? && step(p, d).used == |d|
    ensures Drive(step, p, d) == Result(step(p, d).p, [], step(p, d).out)
  {
    var s := step(p, d);
    assert d[|d|..] == [];
    assert s.out + [] == s.out;
    assert Parse(step, p, d) == Result(s.p, [], s.out);
  }

  lemma FeedOne<P, M>(step: Reader<P, M>, p: P, rx: seq<byte>, e: seq<byte>)
    ensures Feed(step, p, rx, [e]) == Drive(step, p, rx + e)
  {
    var r := Drive(step, p, rx + e);
    assert [e][1..] == [] && r.out + [] == r.out;
  }

  /** The unit in one call, or in two: what is emitted differs. */
  lemma CutUnit<P, M>(step: Reader<P, M>, p: P, d: seq<byte>, n: nat, m: nat)
    requires Derailed(step, p, d, n, m)
    ensures Feed(step, p, [], [d[..m]]).out == step(p, d[..m]).out
    ensures Feed(step, p, [], [d[..n], d[n..m]]).out == step(step(p, d[..n]).p, d[..m]).out
  {
    var h, u := d[..n], d[..m];
    var p1 := step(p, h).p;
    assert [] + u == u && [] + h == h && h + d[n..m] == u;
    FeedOne(step, p, [], u);
    DriveUnit(step, p, u);
    assert Drive(step, p, h) == Result(p1, h, []);
    FeedOne(step, p1, h, d[n..m]);
    DriveUnit(step, p1, u);
    assert [h, d[n..m]][1..] == [d[n..m]];
    assert Feed(step, p, [], [h, d[n..m]]) == Result(step(p1, u).p, [], [] + step(p1, u).out);
  }

  /** First the whole units `d0`, in one call if there are any. */
  function Ahead(d0: seq<byte>, pieces: seq<seq<byte>>): seq<seq<byte>> {
    if d0 == [] then pieces else [d0] + pieces
  }

  lemma FeedAhead<P, M>(step: Reader<P, M>, q: P, d0: seq<byte>, pieces: seq<seq<byte>>)
    requires Parse(step, q, d0).rest == [] && NonEmpty(pieces)
    ensures NonEmpty(Ahead(d0, pieces)) && Join(Ahead(d0, pieces)) == d0 + Join(pieces)
    ensures Feed(step, q, [], Ahead(d0, pieces)).out
            == Parse(step, q, d0).out + Feed(step, Parse(step, q, d0).p, [], pieces).out
  {
    var r := Parse(step, q, d0);
    if d0 != [] {
      assert Drive(step, q, d0) == Result(r.p, [], r.out + []);
      assert r.out + [] == r.out && [] + d0 == d0;
      assert ([d0] + pieces)[1..] == pieces;
    } else {
      assert [] + Join(pieces) == Join(pieces);
      assert [] + Feed(step, q, [], pieces).out == Feed(step, q, [], pieces).out;
    }
  }

  lemma JoinTwo(d: seq<byte>, n: nat, m: nat)
    requires n <= m <= |d|
    ensures Join([d[..m]]) == Join([d[..n], d[n..m]]) == d[..m]
  {
    assert [d[..m]][1..] == [] && [d[..n], d[n..m]][1..] == [d[n..m]] && [d[n..m]][1..] == [];
    assert Join([d[n..m]]) == d[n..m] && d[..n] + d[n..m] == d[..m];
  }

  /** Cutting is harmless for a stream exactly if no bad input occurs in it; otherwise even what is emitted
      depends on it. */
  lemma CutsMatterIff<P(!new), M>(step: Reader<P, M>, good: P -> bool, bad: (P, seq<byte>) -> bool, q: P, d: seq<byte>)
    requires Resumable(step, good, bad) && (forall p, x :: UnitShrinks(step, good, p, x))
    requires forall p, x :: good(p) && bad(p, x) ==> Derails(step, p, x)
    requires good(q)
    ensures CutInvariant(step, q, d) <==> NeverBad(step, bad, q, d)
    ensures OutInvariant(step, q, d) <==> NeverBad(step, bad, q, d)
  {
    if NeverBad(step, bad, q, d) {
      forall a: seq<seq<byte>>, b: seq<seq<byte>> | Join(a) == Join(b) && Join(a) <= d
        ensures Feed(step, q, [], a) == Feed(step, q, [], b)
      {
        assert d == Join(a) + d[|Join(a)|..];
        NeverBadPrefix(step, good, bad, q, Join(a), d[|Join(a)|..]);
        CutsDoNotMatter(step, good, bad, q, a);
        CutsDoNotMatter(step, good, bad, q, b);
      }
    } else {
      var k := FindBad(step, good, bad, q, d);
      assert Derails(step, Parse(step, q, d[..k]).p, d[k..]);
      var n: nat, m: nat :| Derailed(step, Parse(step, q, d[..k]).p, d[k..], n, m);
      DerailedOut(step, q, d, k, n, m);
    }
  }

  lemma Prepended<M>(s: seq<M>, a: seq<M>, b: seq<M>)
    requires a != b
    ensures s + a != s + b
  {
    assert (s + a)[|s|..] == a && (s + b)[|s|..] == b;
  }

  lemma DerailedOut<P, M>(step: Reader<P, M>, q: P, d: seq<byte>, k: nat, n: nat, m: nat)
    requires k < |d| && Parse(step, q, d[..k]).rest == [] && Derailed(step, Parse(step, q, d[..k]).p, d[k..], n, m)
    ensures !OutInvariant(step, q, d) && !CutInvariant(step, q, d)
  {
    var d0, h := d[..k], d[k..];
    var p := Parse(step, q, d0).p;
    var one, two := [h[..m]], [h[..n], h[n..m]];
    var a, b := Ahead(d0, one), Ahead(d0, two);
    FeedAhead(step, q, d0, one);
    FeedAhead(step, q, d0, two);
    CutUnit(step, p, h, n, m);
    Prepended(Parse(step, q, d0).out, Feed(step, p, [], one).out, Feed(step, p, [], two).out);
    JoinTwo(h, n, m);
    assert d0 + h[..m] == d[..k + m];
    assert Join(a) == Join(b) && Join(a) <= d && NonEmpty(a) && NonEmpty(b);
    assert Feed(step, q, [], a).out != Feed(step, q, [], b).out;
  }

  // ---- readers with states that behave alike

  function Mapped<P, M>(norm: P -> P, s: Step<P, M>): Step<P, M> {
    if s.Stall? then Stall(norm(s.p)) else Unit(norm(s.p), s.used, s.out)
  }

  /** The reader that forgets the differences between such states. */
  function Quotient<P, M>(step: Reader<P, M>, norm: P -> P): Reader<P, M> {
    (p: P, d: seq<byte>) => Mapped(norm, step(p, d))
  }

  /** States with the same normal form behave alike. */
  ghost predicate Alike<P(!new), M>(step: Reader<P, M>, norm: P -> P) {
    forall p, d :: Mapped(norm, step(norm(p), d)) == Mapped(norm, step(p, d))
  }

  /** Then repetition goes wrong for it where it does for the reader itself. */
  lemma DerailedAlike<P(!new), M>(step: Reader<P, M>, norm: P -> P, p: P, d: seq<byte>, n: nat, m: nat)
    requires Alike(step, norm) && Derailed(step, p, d, n, m)
    ensures Derails(Quotient(step, norm), p, d)
  {
    assert Derailed(Quotient(step, norm), p, d, n, m);
  }

  lemma {:induction false} ParseAlike<P(!new), M>(step: Reader<P, M>, norm: P -> P, p: P, d: seq<byte>)
    requires Alike(step, norm)
    ensures var r := Parse(step, p, d); Parse(Quotient(step, norm), norm(p), d) == Result(norm(r.p), r.rest, r.out)
    decreases |d|
  {
    if d != [] {
      var s := step(p, d);
      assert Quotient(step, norm)(norm(p), d) == Mapped(norm, s);
      if Progress(s, d) { ParseAlike(step, norm, s.p, d[s.used..]); }
    }
  }

  lemma {:induction false} DriveAlike<P(!new), M>(step: Reader<P, M>, norm: P -> P, p: P, rx: seq<byte>)
    requires Alike(step, norm)
    ensures var r := Drive(step, p, rx); Drive(Quotient(step, norm), norm(p), rx) == Result(norm(r.p), r.rest, r.out)
    decreases |rx|
  {
    ParseAlike(step, norm, p, rx);
    var r := Parse(step, p, rx);
    if rx != [] && |r.rest| != |rx| { DriveAlike(step, norm, r.p, r.rest); }
  }

  lemma {:induction false} FeedAlike<P(!new), M>(step: Reader<P, M>, norm: P -> P, p: P, rx: seq<byte>, pieces: seq<seq<byte>>)
    requires Alike(step, norm)
    ensures var r := Feed(step, p, rx, pieces);
            Feed(Quotient(step, norm), norm(p), rx, pieces) == Result(norm(r.p), r.rest, r.out)
    decreases |pieces|
  {
    if pieces != [] {
      DriveAlike(step, norm, p, rx + pieces[0]);
      var r := Drive(step, p, rx + pieces[0]);
      FeedAlike(step, norm, r.p, r.rest, pieces[1..]);
    }
  }

  lemma {:induction false} NeverBadAlike<P(!new), M>(step: Reader<P, M>, norm: P -> P, bad: (P, seq<byte>) -> bool, p: P, d: seq<byte>)
    requires Alike(step, norm) && forall q, x :: bad(norm(q), x) == bad(q, x)
    ensures NeverBad(Quotient(step, norm), bad, norm(p), d) <==> NeverBad(step, bad, p, d)
    decreases |d|
  {
    if d != [] {
      var s := step(p, d);
      assert Quotient(step, norm)(norm(p), d) == Mapped(norm, s);
      if Progress(s, d) { NeverBadAlike(step, norm, bad, s.p, d[s.used..]); }
    }
  }
}
