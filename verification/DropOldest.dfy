/** Bounded queues that drop their oldest entry when they are full: as values, and as a ring of slots. */
module DropOldest {
  import opened Wrappers

  /** Something that has left the queue, at its front: sent, or dropped for want of room. */
  datatype Left<T> = Left(item: T, sent: bool)

  datatype Box<T> = Box(pending: seq<T>, gone: seq<Left<T>>)

  datatype Op<T> = Push(x: T) | Flush(budget: nat) | Clear

  function DropOne<T>(b: Box<T>): Box<T>
    requires b.pending != []
  {
    Box(b.pending[1..], b.gone + [Left(b.pending[0], false)])
  }

  function PushTo<T>(b: Box<T>, cap: nat, x: T): Box<T>
    requires cap > 0
  {
    var room := if |b.pending| >= cap then DropOne(b) else b;
    Box(room.pending + [x], room.gone)
  }

  function FlushFrom<T>(b: Box<T>, budget: nat): (r: Box<T>)
    decreases budget
  {
    if budget == 0 || b.pending == [] then b
    else FlushFrom(Box(b.pending[1..], b.gone + [Left(b.pending[0], true)]), budget - 1)
  }

  /** Drops everything, the oldest first. */
  function Discard<T>(b: Box<T>): (r: Box<T>)
    decreases |b.pending|
  {
    if b.pending == [] then b else Discard(DropOne(b))
  }

  /** A push drops the oldest entry if the queue is full, and nothing otherwise. */
  lemma PushIs<T>(b: Box<T>, cap: nat, x: T)
    requires cap > 0
    ensures var r := PushTo(b, cap, x);
            if |b.pending| < cap then r.gone == b.gone && r.pending == b.pending + [x]
            else r.gone == b.gone + [Left(b.pending[0], false)] && r.pending == b.pending[1..] + [x]
  {
  }

  /** `r` is `b` after its `k` oldest entries have left, in order. */
  ghost predicate Leave<T>(b: Box<T>, r: Box<T>, k: nat, sent: bool) {
    && k <= |b.pending| && r.pending == b.pending[k..] && |r.gone| == |b.gone| + k && b.gone <= r.gone
    && forall i :: 0 <= i < k ==> r.gone[|b.gone| + i] == Left(b.pending[i], sent)
  }

  lemma OneMoreLeaves<T>(b: Box<T>, r: Box<T>, k: nat, sent: bool)
    requires b.pending != [] && Leave(Box(b.pending[1..], b.gone + [Left(b.pending[0], sent)]), r, k, sent)
    ensures Leave(b, r, k + 1, sent)
  {
    var m := Box(b.pending[1..], b.gone + [Left(b.pending[0], sent)]);
    assert b.gone <= m.gone <= r.gone;
    forall i | 0 <= i < k + 1 ensures r.gone[|b.gone| + i] == Left(b.pending[i], sent) {
      if i == 0 {
        assert r.gone[|b.gone|] == m.gone[|b.gone|];
      } else {
        assert r.gone[|m.gone| + (i - 1)] == Left(m.pending[i - 1], sent);
      }
    }
  }

  /** A flush sends the oldest entries, as many as there are within the budget. */
  lemma {:induction false} FlushIs<T>(b: Box<T>, budget: nat)
    ensures Leave(b, FlushFrom(b, budget), if budget < |b.pending| then budget else |b.pending|, true)
    decreases budget
  {
    if budget > 0 && b.pending != [] {
      var m := Box(b.pending[1..], b.gone + [Left(b.pending[0], true)]);
      FlushIs(m, budget - 1);
      OneMoreLeaves(b, FlushFrom(b, budget), if budget < |b.pending| then budget - 1 else |b.pending| - 1, true);
    }
  }

  /** A clear drops them all. */
  lemma {:induction false} DiscardIs<T>(b: Box<T>)
    ensures Leave(b, Discard(b), |b.pending|, false)
    decreases |b.pending|
  {
    if b.pending != [] {
      DiscardIs(DropOne(b));
      OneMoreLeaves(b, Discard(b), |b.pending| - 1, false);
    }
  }

  function Run<T>(cap: nat, ops: seq<Op<T>>): Box<T>
    requires cap > 0
    decreases |ops|
  {
    if ops == [] then Box([], [])
    else
      var b := Run(cap, ops[..|ops| - 1]);
      match ops[|ops| - 1]
      case Push(x) => PushTo(b, cap, x)
      case Flush(n) => FlushFrom(b, n)
      case Clear => Discard(b)
  }

  function Items<T>(gone: seq<Left<T>>): (s: seq<T>)
    ensures |s| == |gone| && forall i :: 0 <= i < |s| ==> s[i] == gone[i].item
  {
    if gone == [] then [] else [gone[0].item] + Items(gone[1..])
  }

  /** Those of one fate, in their order. */
  function OfFate<T>(gone: seq<Left<T>>, sent: bool): seq<T>
    decreases |gone|
  {
    if gone == [] then []
    else
      var k := |gone| - 1;
      OfFate(gone[..k], sent) + if gone[k].sent == sent then [gone[k].item] else []
  }

  function Pushed<T>(ops: seq<Op<T>>): seq<T>
    decreases |ops|
  {
    if ops == [] then []
    else
      var k := |ops| - 1;
      Pushed(ops[..k]) + if ops[k].Push? then [ops[k].x] else []
  }

  /** Everything in the order in which it leaves or will leave. */
  function Order<T>(b: Box<T>): seq<T> {
    Items(b.gone) + b.pending
  }

  lemma LeavingKeepsOrder<T>(b: Box<T>, sent: bool)
    requires b.pending != []
    ensures Order(Box(b.pending[1..], b.gone + [Left(b.pending[0], sent)])) == Order(b)
  {
    assert b.pending == [b.pending[0]] + b.pending[1..];
  }

  lemma {:induction false} FlushKeepsOrder<T>(b: Box<T>, budget: nat)
    ensures var r := FlushFrom(b, budget);
            Order(r) == Order(b) && |r.pending| == if |b.pending| > budget then |b.pending| - budget else 0
    decreases budget
  {
    if budget > 0 && b.pending != [] {
      LeavingKeepsOrder(b, true);
      FlushKeepsOrder(Box(b.pending[1..], b.gone + [Left(b.pending[0], true)]), budget - 1);
    }
  }

  lemma PushKeepsOrder<T>(b: Box<T>, cap: nat, x: T)
    requires cap > 0
    ensures Order(PushTo(b, cap, x)) == Order(b) + [x]
  {
    if |b.pending| >= cap { LeavingKeepsOrder(b, false); }
  }

  lemma {:induction false} DiscardKeepsOrder<T>(b: Box<T>)
    ensures Order(Discard(b)) == Order(b) && Discard(b).pending == []
    decreases |b.pending|
  {
    if b.pending != [] {
      LeavingKeepsOrder(b, false);
      DiscardKeepsOrder(DropOne(b));
    }
  }

  lemma {:induction false} FatesAddUp<T>(gone: seq<Left<T>>)
    ensures |gone| == |OfFate(gone, true)| + |OfFate(gone, false)|
    decreases |gone|
  {
    if gone != [] { FatesAddUp(gone[..|gone| - 1]); }
  }

  /** Over any run: what was pushed is what has left, in order, followed by what is pending, in order;
      and what was sent, dropped and is pending adds up. */
  lemma {:induction false} RunConserves<T>(cap: nat, ops: seq<Op<T>>)
    requires cap > 0
    ensures var b := Run(cap, ops);
            && Items(b.gone) + b.pending == Pushed(ops) && |b.pending| <= cap
            && |OfFate(b.gone, true)| + |OfFate(b.gone, false)| + |b.pending| == |Pushed(ops)|
    decreases |ops|
  {
    FatesAddUp(Run(cap, ops).gone);
    if ops != [] {
      var k := |ops| - 1;
      RunConserves(cap, ops[..k]);
      var b := Run(cap, ops[..k]);
      match ops[k]
      case Push(x) => PushKeepsOrder(b, cap, x);
      case Flush(n) => FlushKeepsOrder(b, n);
      case Clear => DiscardKeepsOrder(b);
    }
  }

  // ---- the ring

  function Next(i: nat, cap: nat): (j: nat)
    requires i < cap
    ensures j < cap
  {
    if i + 1 == cap then 0 else i + 1
  }

  /** The slot `i` places behind slot `r`. */
  function Pos(r: nat, i: nat, cap: nat): (p: nat)
    requires r < cap && i <= cap
    ensures p < cap
  {
    if r + i < cap then r + i else r + i - cap
  }

  lemma NextIsMod(i: nat, cap: nat)
    requires i < cap
    ensures (i + 1) % cap == Next(i, cap)
  {
  }

  predicate RingInv<T>(slots: seq<Option<T>>, r: nat, n: nat) {
    && 0 < |slots| && r < |slots| && n <= |slots|
    && (forall i :: 0 <= i < n ==> slots[Pos(r, i, |slots|)].Some?)
    && (forall i :: n <= i < |slots| ==> slots[Pos(r, i, |slots|)].None?)
  }

  function Live<T>(slots: seq<Option<T>>, r: nat, n: nat): (s: seq<T>)
    requires RingInv(slots, r, n)
    ensures |s| == n
  {
    seq(n, i requires 0 <= i < n => slots[Pos(r, i, |slots|)].value)
  }

  lemma PopLive<T>(slots: seq<Option<T>>, r: nat, n: nat)
    requires RingInv(slots, r, n) && n > 0
    ensures var c := |slots|; var s := slots[r := None];
            && slots[r] == Some(Live(slots, r, n)[0]) && RingInv(s, Next(r, c), n - 1)
            && Live(s, Next(r, c), n - 1) == Live(slots, r, n)[1..]
            && Pos(Next(r, c), n - 1, c) == Pos(r, n, c)
  {
    var c := |slots|;
    assert Pos(r, 0, c) == r;
    assert forall i :: 0 <= i < c ==> Pos(Next(r, c), i, c) == Pos(r, i + 1, c);
    assert Pos(r, c, c) == r;
  }

  lemma PushLive<T>(slots: seq<Option<T>>, r: nat, n: nat, x: T)
    requires RingInv(slots, r, n) && n < |slots|
    ensures var c := |slots|; var s := slots[Pos(r, n, c) := Some(x)];
            && RingInv(s, r, n + 1) && Live(s, r, n + 1) == Live(slots, r, n) + [x]
            && Next(Pos(r, n, c), c) == Pos(r, n + 1, c)
  {
    var c := |slots|;
    assert forall i :: 0 <= i < c && i != n ==> Pos(r, i, c) != Pos(r, n, c);
  }

  class Ring<T> {
    const slots: array<Option<T>>
    var r: nat
    var w: nat
    var n: nat

    ghost predicate Valid()
      reads this, slots
    {
      RingInv(slots[..], r, n) && w == Pos(r, n, slots.Length)
    }

    ghost function View(): (s: seq<T>)
      requires Valid()
      reads this, slots
      ensures |s| == n
    {
      Live(slots[..], r, n)
    }

    constructor (cap: nat)
      requires cap > 0
      ensures Valid() && slots.Length == cap && View() == [] && fresh(slots)
    {
      slots := new Option<T>[cap](_ => None);
      r, w, n := 0, 0, 0;
    }

    method Clear()
      requires slots.Length > 0
      modifies this, slots
      ensures Valid() && View() == []
    {
      var i := 0;
      while i < slots.Length
        invariant i <= slots.Length && forall j :: 0 <= j < i ==> slots[j].None?
      {
        slots[i] := None;
        i := i + 1;
      }
      r, w, n := 0, 0, 0;
    }

    method PopFront() returns (x: T)
      requires Valid() && n > 0
      modifies this, slots
      ensures Valid() && x == old(View())[0] && View() == old(View())[1..]
    {
      NextIsMod(r, slots.Length);
      hide RingInv, Live, Pos, Next;
      ghost var before := slots[..];
      PopLive(slots[..], r, n);
      x := slots[r].value;
      slots[r] := None;
      assert slots[..] == before[r := None];
      r := (r + 1) % slots.Length;
      n := n - 1;
    }

    method Append(x: T)
      requires Valid() && n < slots.Length
      modifies this, slots
      ensures Valid() && View() == old(View()) + [x]
    {
      NextIsMod(w, slots.Length);
      hide RingInv, Live, Next;
      ghost var before := slots[..];
      PushLive(slots[..], r, n, x);
      slots[w] := Some(x);
      assert slots[..] == before[w := Some(x)];
      w := (w + 1) % slots.Length;
      n := n + 1;
    }
  }
}
