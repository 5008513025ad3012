/** The two outgoing queues of a player connection: FLV tags, and RTP packets. */
module Outboxes {
  import opened Bytes
  import opened DropOldest

  datatype Tag = Tag(msgType: byte, dts: nat, body: seq<byte>)

  datatype Packet = Packet(channel: byte, data: seq<byte>)

  const SLOT_MAX: nat := 2048

  lemma FateAppends<T>(gone: seq<Left<T>>, e: Left<T>, sent: bool)
    ensures OfFate(gone + [e], sent) == OfFate(gone, sent) + if e.sent == sent then [e.item] else []
  {
    assert (gone + [e])[..|gone|] == gone;
  }

  lemma {:induction false} DiscardDrops<T>(b: Box<T>)
    ensures Discard(b).pending == [] && OfFate(Discard(b).gone, true) == OfFate(b.gone, true)
    decreases |b.pending|
  {
    if b.pending != [] {
      FateAppends(b.gone, Left(b.pending[0], false), true);
      DiscardDrops(DropOne(b));
    }
  }

  /** The FLV outbox; `tags` is what the connection was given, `gone` also has what was dropped. */
  class FlvOutbox {
    const ring: Ring<Tag>
    const hasSink: bool
    var tags: seq<Tag>
    ghost var gone: seq<Left<Tag>>

    ghost predicate Valid()
      reads this, ring, ring.slots
    {
      ring.Valid() && tags == OfFate(gone, true)
    }

    ghost function State(): Box<Tag>
      requires Valid()
      reads this, ring, ring.slots
    {
      Box(ring.View(), gone)
    }

    constructor (cap: nat, sink: bool)
      requires cap > 0
      ensures Valid() && State() == Box([], []) && ring.slots.Length == cap && hasSink == sink
      ensures fresh(ring) && fresh(ring.slots)
    {
      ring := new Ring(cap);
      hasSink, tags, gone := sink, [], [];
    }

    method Clear()
      requires Valid()
      modifies this`gone, ring, ring.slots
      ensures Valid() && State() == Discard(old(State()))
    {
      DiscardDrops(State());
      gone := Discard(State()).gone;
      ring.Clear();
    }

    /** One tag for the outbox; fails only for an empty body. */
    method Push(tag: Tag) returns (ok: bool)
      requires Valid()
      modifies this, ring, ring.slots
      ensures Valid() && tags == old(tags) && ok == (tag.body != [])
      ensures State() == if ok then PushTo(old(State()), ring.slots.Length, tag) else old(State())
    {
      if tag.body == [] { return false; }
      if ring.n >= ring.slots.Length {
        var oldest := ring.PopFront();
        FateAppends(gone, Left(oldest, false), true);
        gone := gone + [Left(oldest, false)];
      }
      ring.Append(tag);
      ok := true;
    }

    method SendOldest()
      requires Valid() && ring.n > 0
      modifies this, ring, ring.slots
      ensures Valid() && ring.n == old(ring.n) - 1
      ensures State() == Box(old(State()).pending[1..], old(gone) + [Left(old(State()).pending[0], true)])
    {
      var tag := ring.PopFront();
      tags := tags + [tag];
      FateAppends(gone, Left(tag, true), true);
      gone := gone + [Left(tag, true)];
    }

    /** Gives the connection up to `budget` tags. */
    method Flush(budget: int) returns (sent: nat)
      requires Valid()
      modifies this, ring, ring.slots
      ensures Valid()
      ensures State() == FlushFrom(old(State()), if hasSink && budget > 0 then budget else 0)
      ensures sent == |old(State()).pending| - |State().pending|
    {
      sent := 0;
      if budget <= 0 || ring.n == 0 || !hasSink { return; }
      ghost var start := State();
      var left := budget;
      while left > 0 && ring.n > 0
        invariant Valid() && 0 <= left && sent == |start.pending| - |State().pending|
        invariant FlushFrom(State(), left) == FlushFrom(start, budget)
        decreases left
      {
        SendOldest();
        left, sent := left - 1, sent + 1;
      }
    }
  }

  // ---- RTP

  /** Sent past the queue. */
  function SendNow(b: Box<Packet>, p: Packet): Box<Packet> {
    Box(b.pending, b.gone + [Left(p, true)])
  }

  /** A packet for the connection.  All senders share one guard: it is `busy` if any of them is flushing
      when this one looks whether to go past its empty queue, and `held` if so at the high-water mark. */
  function Submit(b: Box<Packet>, cap: nat, high: nat, queued: bool, busy: bool, held: bool, p: Packet): Box<Packet>
    requires cap > 0
  {
    if p.data == [] then b
    else if !queued || (b.pending == [] && !busy) || |p.data| > SLOT_MAX then SendNow(b, p)
    else
      var q := PushTo(b, cap, p);
      if |q.pending| >= high && !held then FlushFrom(q, high) else q
  }

  /** What becomes of a packet: it is written at once if queueing is off, if nothing is pending and no flush under way,
      or if it is longer than a slot of 2048 bytes; else it is queued, and at the high-water mark that many packets
      are sent, unless a flush is under way. */
  lemma SubmitIs(b: Box<Packet>, cap: nat, high: nat, queued: bool, busy: bool, held: bool, p: Packet)
    requires cap > 0 && p.data != []
    ensures var r := Submit(b, cap, high, queued, busy, held, p);
            if !queued || (b.pending == [] && !busy) || |p.data| > 2048 then
              r.pending == b.pending && r.gone == b.gone + [Left(p, true)]
            else
              var q := PushTo(b, cap, p); var n := if high < |q.pending| then high else |q.pending|;
              if |q.pending| >= high && !held then Leave(q, r, n, true) else r == q
  {
    FlushIs(PushTo(b, cap, p), high);
  }

  /** A packet goes to its place in the order exactly if it does not overtake: with queueing on, that is
      if nothing is pending or the packet fits into a slot. */
  lemma SubmitKeepsOrderIff(b: Box<Packet>, cap: nat, high: nat, busy: bool, held: bool, p: Packet)
    requires cap > 0 && p.data != [] && Fits(b)
    ensures Order(Submit(b, cap, high, true, busy, held, p)) == Order(b) + [p] <==> b.pending == [] || |p.data| <= SLOT_MAX
  {
    if |p.data| > SLOT_MAX && b.pending != [] {
      Overtaken(b, p);
      assert (Order(b) + [p])[|b.gone|] == b.pending[0] && b.pending[0] in b.pending;
    } else {
      StepInOrder(b, cap, high, SubmitOp(true, busy, held, p));
    }
  }

  lemma Overtaken(b: Box<Packet>, p: Packet)
    ensures Order(SendNow(b, p)) == Items(b.gone) + [p] + b.pending
  {
    ItemsAppend(b.gone, Left(p, true));
  }

  lemma {:induction false} ItemsAppend<T>(gone: seq<Left<T>>, e: Left<T>)
    ensures Items(gone + [e]) == Items(gone) + [e.item]
  {
    assert forall i :: 0 <= i < |gone| ==> (gone + [e])[i] == gone[i];
  }

  // ---- runs of one sender, whatever the others do meanwhile

  datatype SenderOp =
    | SubmitOp(queued: bool, busy: bool, held: bool, p: Packet)
    | FlushOp(budget: nat, busy: bool)
    | ResetOp

  function Step(b: Box<Packet>, cap: nat, high: nat, op: SenderOp): Box<Packet>
    requires cap > 0
  {
    match op
    case SubmitOp(queued, busy, held, p) => Submit(b, cap, high, queued, busy, held, p)
    case FlushOp(n, busy) => if busy then b else FlushFrom(b, n)
    case ResetOp => Discard(b)
  }

  function SenderRun(cap: nat, high: nat, ops: seq<SenderOp>): Box<Packet>
    requires cap > 0
    decreases |ops|
  {
    if ops == [] then Box([], []) else Step(SenderRun(cap, high, ops[..|ops| - 1]), cap, high, ops[|ops| - 1])
  }

  function Brought(op: SenderOp): seq<Packet> {
    if op.SubmitOp? && op.p.data != [] then [op.p] else []
  }

  function Submitted(ops: seq<SenderOp>): seq<Packet>
    decreases |ops|
  {
    if ops == [] then [] else Submitted(ops[..|ops| - 1]) + Brought(ops[|ops| - 1])
  }

  predicate Fits(b: Box<Packet>) {
    forall q :: q in b.pending ==> |q.data| <= SLOT_MAX
  }

  /** A packet that is written at once although others are pending. */
  predicate Overtakes(b: Box<Packet>, op: SenderOp) {
    Brought(op) != [] && (!op.queued || |op.p.data| > SLOT_MAX) && b.pending != []
  }

  lemma StepInOrder(b: Box<Packet>, cap: nat, high: nat, op: SenderOp)
    requires cap > 0 && !Overtakes(b, op)
    ensures Order(Step(b, cap, high, op)) == Order(b) + Brought(op)
  {
    match op
    case SubmitOp(queued, busy, held, p) =>
      if p.data != [] {
        if !queued || (b.pending == [] && !busy) || |p.data| > SLOT_MAX {
          Overtaken(b, p);
        } else {
          PushKeepsOrder(b, cap, p);
          FlushKeepsOrder(PushTo(b, cap, p), high);
        }
      }
    case FlushOp(n, _) => FlushKeepsOrder(b, n);
    case ResetOp => DiscardKeepsOrder(b);
  }

  /** What has left stays so; what is pending fits into slots, and there are at most `cap` of them. */
  lemma {:induction false} FlushOnly(b: Box<Packet>, budget: nat)
    requires Fits(b)
    ensures Fits(FlushFrom(b, budget)) && b.gone <= FlushFrom(b, budget).gone
    decreases budget
  {
    if budget > 0 && b.pending != [] {
      FlushOnly(Box(b.pending[1..], b.gone + [Left(b.pending[0], true)]), budget - 1);
    }
  }

  lemma {:induction false} DiscardOnly(b: Box<Packet>)
    ensures b.gone <= Discard(b).gone
    decreases |b.pending|
  {
    if b.pending != [] { DiscardOnly(DropOne(b)); }
  }

  lemma StepKeeps(b: Box<Packet>, cap: nat, high: nat, op: SenderOp)
    requires cap > 0 && Fits(b) && |b.pending| <= cap
    ensures var r := Step(b, cap, high, op); Fits(r) && |r.pending| <= cap && b.gone <= r.gone
  {
    match op
    case SubmitOp(queued, busy, held, p) =>
      if p.data != [] && queued && !(b.pending == [] && !busy) && |p.data| <= SLOT_MAX {
        var q := PushTo(b, cap, p);
        FlushOnly(q, high);
        FlushKeepsOrder(q, high);
      }
    case FlushOp(n, _) =>
      FlushOnly(b, n);
      FlushKeepsOrder(b, n);
    case ResetOp =>
      DiscardOnly(b);
      DiscardKeepsOrder(b);
  }

  /** Over every run, whatever the other senders do: every packet submitted has been written, has been
      dropped, or is pending; at most `cap` are, and each fits into a slot. */
  lemma {:induction false} SenderConserves(cap: nat, high: nat, ops: seq<SenderOp>)
    requires cap > 0
    ensures var b := SenderRun(cap, high, ops);
            && multiset(Order(b)) == multiset(Submitted(ops)) && |b.pending| <= cap && Fits(b)
            && |OfFate(b.gone, true)| + |OfFate(b.gone, false)| + |b.pending| == |Submitted(ops)|
    decreases |ops|
  {
    FatesAddUp(SenderRun(cap, high, ops).gone);
    if ops != [] {
      var k := |ops| - 1;
      var b := SenderRun(cap, high, ops[..k]);
      SenderConserves(cap, high, ops[..k]);
      StepKeeps(b, cap, high, ops[k]);
      if Overtakes(b, ops[k]) { Overtaken(b, ops[k].p); } else { StepInOrder(b, cap, high, ops[k]); }
      assert multiset(Order(Step(b, cap, high, ops[k]))) == multiset(Order(b)) + multiset(Brought(ops[k]));
      SameSize(Order(SenderRun(cap, high, ops)), Submitted(ops));
    }
  }

  lemma SameSize<T>(s: seq<T>, t: seq<T>)
    requires multiset(s) == multiset(t)
    ensures |s| == |t|
  {
    assert |multiset(s)| == |s| && |multiset(t)| == |t|;
  }

  predicate NeverOvertakes(cap: nat, high: nat, ops: seq<SenderOp>)
    requires cap > 0
  {
    forall i :: 0 <= i < |ops| ==> !Overtakes(SenderRun(cap, high, ops[..i]), ops[i])
  }

  /** Every packet can be told from those pending by its size, since it goes through the queue if it fits,
      or because no packet is submitted twice. */
  predicate Distinguished(ops: seq<SenderOp>) {
    || (forall op :: op in ops && op.SubmitOp? ==> op.queued)
    || (forall i, j :: 0 <= i < j < |Submitted(ops)| ==> Submitted(ops)[i] != Submitted(ops)[j])
  }

  /** The order of two sequences differs at a place where packets have already left. */
  ghost predicate Astray(b: Box<Packet>, s: seq<Packet>) {
    exists i :: 0 <= i < |b.gone| && i < |s| && b.gone[i].item != s[i]
  }

  lemma AstrayIsOut(b: Box<Packet>, s: seq<Packet>)
    requires Astray(b, s)
    ensures Order(b) != s
  {
    var i :| 0 <= i < |b.gone| && i < |s| && b.gone[i].item != s[i];
    assert Order(b)[i] == b.gone[i].item;
  }

  lemma AstrayStays(b: Box<Packet>, s: seq<Packet>, r: Box<Packet>, t: seq<Packet>)
    requires Astray(b, s) && b.gone <= r.gone && s <= t
    ensures Astray(r, t)
  {
    var i :| 0 <= i < |b.gone| && i < |s| && b.gone[i].item != s[i];
    assert r.gone[i].item != t[i];
  }
  lemma {:induction false} OrderOverRun(cap: nat, high: nat, ops: seq<SenderOp>)
    requires cap > 0
    ensures NeverOvertakes(cap, high, ops) ==> Order(SenderRun(cap, high, ops)) == Submitted(ops)
    ensures !NeverOvertakes(cap, high, ops) && Distinguished(ops) ==> Astray(SenderRun(cap, high, ops), Submitted(ops))
    decreases |ops|
  {
    if ops != [] {
      OrderOverRun(cap, high, ops[..|ops| - 1]);
      OrderOneMore(cap, high, ops);
    }
  }

  lemma {:induction false} OrderOneMore(cap: nat, high: nat, ops: seq<SenderOp>)
    requires cap > 0 && ops != []
    requires var some := ops[..|ops| - 1];
             && (NeverOvertakes(cap, high, some) ==> Order(SenderRun(cap, high, some)) == Submitted(some))
             && (!NeverOvertakes(cap, high, some) && Distinguished(some) ==> Astray(SenderRun(cap, high, some), Submitted(some)))
    ensures NeverOvertakes(cap, high, ops) ==> Order(SenderRun(cap, high, ops)) == Submitted(ops)
    ensures !NeverOvertakes(cap, high, ops) && Distinguished(ops) ==> Astray(SenderRun(cap, high, ops), Submitted(ops))
  {
    var some, op := ops[..|ops| - 1], ops[|ops| - 1];
    var b := SenderRun(cap, high, some);
    SenderConserves(cap, high, some);
    StepKeeps(b, cap, high, op);
    NeverSplit(cap, high, ops);
    hide Order, Distinguished, NeverOvertakes, Astray, Fits;
    if Distinguished(ops) { DistinguishedBefore(ops); }
    if !NeverOvertakes(cap, high, some) {
      if Distinguished(ops) { AstrayStays(b, Submitted(some), SenderRun(cap, high, ops), Submitted(ops)); }
    } else if Overtakes(b, op) {
      if Distinguished(ops) { OvertakingStrays(b, op, ops); }
    } else {
      StepInOrder(b, cap, high, op);
    }
  }

  lemma NeverSplit(cap: nat, high: nat, ops: seq<SenderOp>)
    requires cap > 0 && ops != []
    ensures var k := |ops| - 1; NeverOvertakes(cap, high, ops) <==>
              NeverOvertakes(cap, high, ops[..k]) && !Overtakes(SenderRun(cap, high, ops[..k]), ops[k])
  {
    var k := |ops| - 1;
    assert forall i :: 0 <= i < k ==> ops[..k][..i] == ops[..i];
  }

  lemma DistinguishedBefore(ops: seq<SenderOp>)
    requires ops != [] && Distinguished(ops)
    ensures Distinguished(ops[..|ops| - 1])
  {
    var some := ops[..|ops| - 1];
    assert forall i :: 0 <= i < |Submitted(some)| ==> Submitted(some)[i] == Submitted(ops)[i];
  }

  lemma {:induction false} OvertakingStrays(b: Box<Packet>, op: SenderOp, ops: seq<SenderOp>)
    requires ops != [] && op == ops[|ops| - 1] && Distinguished(ops)
    requires Overtakes(b, op) && Fits(b) && Order(b) == Submitted(ops[..|ops| - 1])
    ensures Astray(SendNow(b, op.p), Submitted(ops))
  {
    var i := |b.gone|;
    assert Submitted(ops)[i] == b.pending[0] && b.pending[0] in b.pending;
    assert Submitted(ops)[|Submitted(ops)| - 1] == op.p && op in ops;
    assert SendNow(b, op.p).gone[i].item == op.p;
  }

  /** Over every run, whatever the other senders do: packets leave in the order in which they were submitted
      if and only if none is written past pending ones.  Only packets that are equal could hide it. */
  lemma InOrderIff(cap: nat, high: nat, ops: seq<SenderOp>)
    requires cap > 0
    ensures NeverOvertakes(cap, high, ops) ==> Order(SenderRun(cap, high, ops)) == Submitted(ops)
    ensures Distinguished(ops) ==>
              (Order(SenderRun(cap, high, ops)) == Submitted(ops) <==> NeverOvertakes(cap, high, ops))
  {
    OrderOverRun(cap, high, ops);
    if !NeverOvertakes(cap, high, ops) && Distinguished(ops) {
      AstrayIsOut(SenderRun(cap, high, ops), Submitted(ops));
    }
  }

  /** A packet that stays in an empty queue, because another sender is flushing. */
  predicate Lingers(high: nat, op: SenderOp) {
    Brought(op) != [] && op.queued && op.busy && |op.p.data| <= SLOT_MAX && (op.held || high != 1)
  }

  /** Nothing is pending at any time. */
  predicate NeverPending(cap: nat, high: nat, ops: seq<SenderOp>)
    requires cap > 0
    decreases |ops|
  {
    SenderRun(cap, high, ops).pending == [] && (ops == [] || NeverPending(cap, high, ops[..|ops| - 1]))
  }

  predicate NoneLingers(high: nat, ops: seq<SenderOp>) {
    forall i :: 0 <= i < |ops| ==> !Lingers(high, ops[i])
  }

  /** The queue is never used if and only if no packet that could be queued comes while another sender is
      flushing; then every packet is written at once, in order. */
  lemma {:induction false} NeverPendingIff(cap: nat, high: nat, ops: seq<SenderOp>)
    requires cap > 0
    ensures NeverPending(cap, high, ops) <==> NoneLingers(high, ops)
    ensures NeverPending(cap, high, ops) ==> var b := SenderRun(cap, high, ops);
                                             OfFate(b.gone, true) == Submitted(ops) && OfFate(b.gone, false) == []
    decreases |ops|
  {
    if ops != [] {
      var k := |ops| - 1;
      NeverPendingIff(cap, high, ops[..k]);
      NoneLingersSplits(high, ops);
      if SenderRun(cap, high, ops[..k]).pending == [] { FromEmpty(SenderRun(cap, high, ops[..k]), cap, high, ops[k]); }
      hide NoneLingers, Step, Lingers, OfFate, Brought;
    }
  }

  lemma NoneLingersSplits(high: nat, ops: seq<SenderOp>)
    requires ops != []
    ensures var k := |ops| - 1; NoneLingers(high, ops) <==> NoneLingers(high, ops[..k]) && !Lingers(high, ops[k])
  {
    hide Lingers;
  }

  /** A packet that enters an empty queue and is flushed out again, or stays. */
  lemma ThroughEmpty(gone: seq<Left<Packet>>, high: nat, p: Packet)
    ensures FlushFrom(Box([p], gone), high) == if high == 0 then Box([p], gone) else Box([], gone + [Left(p, true)])
  {
    if high > 0 { assert [p][1..] == []; }
  }

  lemma SentAtOnce(gone: seq<Left<Packet>>, p: Packet)
    ensures OfFate(gone + [Left(p, true)], true) == OfFate(gone, true) + [p]
    ensures OfFate(gone + [Left(p, true)], false) == OfFate(gone, false)
  {
    FateAppends(gone, Left(p, true), true);
    FateAppends(gone, Left(p, true), false);
  }

  lemma FromEmpty(b: Box<Packet>, cap: nat, high: nat, op: SenderOp)
    requires cap > 0 && b.pending == []
    ensures var r := Step(b, cap, high, op);
            && (r.pending == [] <==> !Lingers(high, op))
            && (!Lingers(high, op) ==> OfFate(r.gone, true) == OfFate(b.gone, true) + Brought(op)
                                       && OfFate(r.gone, false) == OfFate(b.gone, false))
  {
    if Brought(op) != [] {
      SentAtOnce(b.gone, op.p);
      ThroughEmpty(b.gone, high, op.p);
      assert PushTo(b, cap, op.p) == Box([op.p], b.gone);
      hide FlushFrom, OfFate, PushTo;
    } else {
      assert FlushFrom(b, 0) == b;
    }
  }

  /** So a packet can be overtaken: a small one comes while another sender is flushing, then an oversized one. */
  lemma OvertakingHappens(cap: nat, high: nat, small: Packet, big: Packet, held: bool)
    requires cap > 0 && high > 1 && 0 < |small.data| <= 2048 < |big.data|
    ensures var ops := [SubmitOp(true, true, held, small), SubmitOp(true, false, false, big)];
            && Submitted(ops) == [small, big]
            && SenderRun(cap, high, ops) == Box([small], [Left(big, true)])
  {
    var ops := [SubmitOp(true, true, held, small), SubmitOp(true, false, false, big)];
    assert ops[..1] == [ops[0]] && ops[..1][..0] == [];
    assert SenderRun(cap, high, ops[..1]) == Box([small], []);
    assert Submitted(ops[..1]) == [small];
  }

  /** How many flushes are under way; all senders of the program share one. */
  class FlushGuard {
    var depth: nat

    constructor ()
      ensures depth == 0
    {
      depth := 0;
    }
  }

  class RtpSender {
    const ring: Ring<Packet>
    const high: nat
    const guard: FlushGuard
    var wire: seq<Packet>
    ghost var gone: seq<Left<Packet>>

    ghost predicate Valid()
      reads this, ring, ring.slots
    {
      ring.Valid() && wire == OfFate(gone, true)
    }

    ghost function State(): Box<Packet>
      requires Valid()
      reads this, ring, ring.slots
    {
      Box(ring.View(), gone)
    }

    constructor (cap: nat, highWater: nat, shared: FlushGuard)
      requires cap > 0
      ensures Valid() && State() == Box([], []) && ring.slots.Length == cap && high == highWater && guard == shared
      ensures fresh(ring) && fresh(ring.slots)
    {
      ring := new Ring(cap);
      high, guard, wire, gone := highWater, shared, [], [];
    }

    method Reset()
      requires Valid()
      modifies this`gone, ring, ring.slots
      ensures Valid() && State() == Discard(old(State()))
    {
      DiscardDrops(State());
      gone := Discard(State()).gone;
      ring.Clear();
    }

    method Write(p: Packet)
      requires Valid()
      modifies this`wire, this`gone
      ensures Valid() && State() == SendNow(old(State()), p)
    {
      wire := wire + [p];
      FateAppends(gone, Left(p, true), true);
      gone := gone + [Left(p, true)];
    }

    method Push(p: Packet) returns (ok: bool)
      requires Valid()
      modifies this`gone, ring, ring.slots
      ensures Valid() && ok == (p.data != [] && |p.data| <= SLOT_MAX)
      ensures State() == if ok then PushTo(old(State()), ring.slots.Length, p) else old(State())
    {
      if p.data == [] || |p.data| > SLOT_MAX { return false; }
      if ring.n >= ring.slots.Length {
        var oldest := ring.PopFront();
        FateAppends(gone, Left(oldest, false), true);
        gone := gone + [Left(oldest, false)];
      }
      ring.Append(p);
      ok := true;
    }

    method SendOldest()
      requires Valid() && ring.n > 0
      modifies this`wire, this`gone, ring, ring.slots
      ensures Valid() && ring.n == old(ring.n) - 1
      ensures State() == Box(old(State()).pending[1..], old(gone) + [Left(old(State()).pending[0], true)])
    {
      var p := ring.PopFront();
      wire := wire + [p];
      FateAppends(gone, Left(p, true), true);
      gone := gone + [Left(p, true)];
    }

    method FlushInner(budget: int, closing: bool)
      requires Valid()
      modifies this`wire, this`gone, ring, ring.slots
      ensures Valid() && State() == FlushFrom(old(State()), if closing || budget < 0 then 0 else budget)
    {
      if budget <= 0 || closing { return; }
      ghost var start := State();
      var left := budget;
      while left > 0 && ring.n > 0
        invariant Valid() && 0 <= left
        invariant FlushFrom(State(), left) == FlushFrom(start, budget)
        decreases left
      {
        SendOldest();
        left := left - 1;
      }
    }

    /** Does nothing while a flush of any sender is under way. */
    method Flush(budget: int, closing: bool)
      requires Valid()
      modifies this, ring, ring.slots, guard
      ensures Valid() && guard.depth == old(guard.depth)
      ensures State() == FlushFrom(old(State()), if closing || budget < 0 || guard.depth > 0 then 0 else budget)
    {
      if budget <= 0 || guard.depth > 0 { return; }
      guard.depth := guard.depth + 1;
      FlushInner(budget, closing);
      guard.depth := guard.depth - 1;
    }

    method Send(queued: bool, p: Packet)
      requires Valid()
      modifies this, ring, ring.slots, guard
      ensures Valid() && guard.depth == old(guard.depth)
      ensures var busy := guard.depth > 0;
              State() == Submit(old(State()), ring.slots.Length, high, queued, busy, busy, p)
    {
      if p.data == [] { return; }
      if !queued || (ring.n == 0 && guard.depth == 0) {
        Write(p);
        return;
      }
      var ok := Push(p);
      if !ok {
        Write(p);
      } else if ring.n >= high {
        Flush(high, false);
      }
    }
  }
}
