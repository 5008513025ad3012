/** What a commit means for what can be found in the ring: the views of the frames, which GOPs are given
    up and why, and what the ring remembers of the frames it has seen. */
module GopCommit {
  import opened GopRing

  // ---- the view of a frame

  /** Slot `x` is the view of frame `f`: its fields as they are, the low 32 bits of its decoding time, and
      those of its presentation time unless that is missing or no other than the decoding time. */
  predicate ViewOf(x: Slot, f: Frame) {
    && x.codec == f.codec && x.track == f.track && x.data == f.data
    && x.keyframe == f.keyframe && x.config == f.config && x.droppable == f.droppable
    && x.dts == f.dts % 0x1_0000_0000
    && var pts := f.pts % 0x1_0000_0000;
       if pts == 0 || pts == x.dts then x.pts == 0 else x.pts == pts
  }

  lemma StoredIsView(f: Frame)
    ensures ViewOf(Stored(f), f)
  {
  }

  predicate ViewsOf(xs: seq<Slot>, fs: seq<Frame>) {
    |xs| == |fs| && forall i :: 0 <= i < |xs| ==> ViewOf(xs[i], fs[i])
  }

  /** Once `f` has been seen, the ring knows of video that is more than a configuration. */
  predicate KnowsVideo(s: Ring, f: Frame) {
    s.hasVideo || (|f.data| > 0 && f.track == Video && !f.config)
  }

  predicate Admits(pol: Policy, s: Ring, f: Frame) {
    |f.data| > 0 && pol.storable(f, s.cacheStarted, KnowsVideo(s, f))
  }

  /** `ys` is `xs`, with the view of `f` appended if it is admitted. */
  ghost predicate GrownBy(xs: seq<Slot>, ys: seq<Slot>, f: Frame, admitted: bool) {
    if admitted then |ys| == |xs| + 1 && ys[..|xs|] == xs && ViewOf(ys[|xs|], f) else ys == xs
  }

  /** A commit leaves the frames before it alone and appends the view of an admitted frame. */
  lemma CommitShows(cfg: Config, pol: Policy, s: Ring, f: Frame)
    requires RingInv(cfg, s)
    ensures GrownBy(s.committed, Commit(cfg, pol, s, f).committed, f, Admits(pol, s, f))
  {
    hide RingInv, Store;
    SeeKeeps(cfg, s, f);
    StoringKeeps(cfg, pol, SeeFrame(s, f), f);
  }

  /** The frames a run of operations has accepted since the ring was cleared last. */
  function Accepted(cfg: Config, pol: Policy, s: Ring, ops: seq<Op>, fs: seq<Frame>): seq<Frame>
    decreases |ops|
  {
    if ops == [] then fs
    else
      Accepted(cfg, pol, Apply(cfg, pol, s, ops[0]), ops[1..],
               match ops[0]
               case OpCommit(f) => if Admits(pol, s, f) then fs + [f] else fs
               case OpClear => []
               case _ => fs)
  }

  lemma ApplyShows(cfg: Config, pol: Policy, s: Ring, op: Op, fs: seq<Frame>)
    requires RingInv(cfg, s) && ViewsOf(s.committed, fs)
    ensures ViewsOf(Apply(cfg, pol, s, op).committed, Accepted(cfg, pol, s, [op], fs))
  {
    hide Commit, RingInv;
    if op.OpCommit? { CommitShows(cfg, pol, s, op.f); }
  }

  lemma {:induction false} AcceptedSteps(cfg: Config, pol: Policy, s: Ring, ops: seq<Op>, fs: seq<Frame>)
    requires ops != []
    ensures Accepted(cfg, pol, s, ops, fs)
         == Accepted(cfg, pol, Apply(cfg, pol, s, ops[0]), ops[1..], Accepted(cfg, pol, s, [ops[0]], fs))
  {
    hide Apply, Admits;
  }

  lemma {:induction false} RunShowsFrom(cfg: Config, pol: Policy, s: Ring, ops: seq<Op>, fs: seq<Frame>)
    requires RingInv(cfg, s) && ViewsOf(s.committed, fs)
    ensures ViewsOf(Run(cfg, pol, s, ops).committed, Accepted(cfg, pol, s, ops, fs))
    decreases |ops|
  {
    if ops != [] {
      hide RingInv, ViewsOf, Apply;
      ApplyKeeps(cfg, pol, s, ops[0]);
      ApplyShows(cfg, pol, s, ops[0], fs);
      AcceptedSteps(cfg, pol, s, ops, fs);
      RunShowsFrom(cfg, pol, Apply(cfg, pol, s, ops[0]), ops[1..], Accepted(cfg, pol, s, [ops[0]], fs));
    }
  }

  /** Over every run from a new ring: what is committed is, one by one and in order, the view of each frame
      accepted since the ring was cleared last. */
  lemma RunShows(cfg: Config, pol: Policy, target: nat, cacheMs: nat, ops: seq<Op>)
    requires cfg.Valid()
    ensures ViewsOf(Run(cfg, pol, Fresh(cfg, target, cacheMs), ops).committed,
                    Accepted(cfg, pol, Fresh(cfg, target, cacheMs), ops, []))
  {
    RunShowsFrom(cfg, pol, Fresh(cfg, target, cacheMs), ops, []);
  }

  // ---- which GOPs are given up

  predicate TooOld(cacheMs: nat, now: nat, g: Gop) {
    cacheMs != 0 && now >= g.dts && now - g.dts > cacheMs
  }

  function StartOf(s: Ring, i: nat): nat {
    if i < |s.gops| then s.gops[i].start else |s.committed|
  }

  /** How many frames are counted once the GOPs before the `i`th are gone. */
  function CountedFrom(s: Ring, i: nat): int {
    if |s.gops| == 0 then s.count else s.count - (StartOf(s, i) - s.gops[0].start)
  }

  /** `t` is `s` without its first `d` GOPs. */
  ghost predicate Without(s: Ring, t: Ring, d: nat) {
    && d <= |s.gops| && t.gops == s.gops[d..] && t.count == CountedFrom(s, d)
    && t.committed == s.committed && t.targetGops == s.targetGops && t.cacheMs == s.cacheMs
  }

  lemma CountsShift(s: Ring, t: Ring, d: nat, i: nat)
    requires Without(s, t, d) && i <= |t.gops|
    ensures CountedFrom(t, i) == CountedFrom(s, d + i)
  {
  }

  lemma WithoutTwice(s: Ring, t: Ring, d: nat, u: Ring, e: nat)
    requires Without(s, t, d) && Without(t, u, e)
    ensures Without(s, u, d + e)
    ensures forall i :: 0 <= i <= |t.gops| ==> CountedFrom(t, i) == CountedFrom(s, d + i)
  {
    assert u.gops == s.gops[d + e..];
  }

  lemma PopIsWithout(cfg: Config, s: Ring)
    requires MidInv(cfg, s) && |s.gops| > 0
    ensures MidInv(cfg, PopFront(s)) && Without(s, PopFront(s), 1)
  {
    PopKeeps(cfg, s);
  }

  /** Trimming by time takes exactly the GOPs in front of the first that is not too old, but never the last. */
  lemma {:induction false} TrimTakes(cfg: Config, s: Ring, now: nat) returns (d: nat)
    requires MidInv(cfg, s)
    ensures Without(s, TrimForTime(s, now), d) && MidInv(cfg, TrimForTime(s, now))
    ensures |s.gops| > 0 ==> d < |s.gops|
    ensures forall i :: 0 <= i < d ==> TooOld(s.cacheMs, now, s.gops[i])
    ensures d < |s.gops| - 1 ==> !TooOld(s.cacheMs, now, s.gops[d])
    decreases |s.gops|
  {
    d := 0;
    if Overdue(s, now) {
      var t := PopFront(s);
      PopIsWithout(cfg, s);
      hide MidInv, PopFront;
      var e := TrimTakes(cfg, t, now);
      WithoutTwice(s, t, 1, TrimForTime(t, now), e);
      d := e + 1;
      ShiftedOld(s.gops, t.gops, s.cacheMs, now, e);
    }
  }

  /** The GOPs `a` trimmed to `b`: only GOPs that are too old have gone, from the front on, and the first one left
      is not, or is the last. */
  ghost predicate TrimmedTo(a: seq<Gop>, b: seq<Gop>, cacheMs: nat, now: nat) {
    && |b| <= |a| && b == a[|a| - |b|..] && (|a| > 0 ==> |b| > 0)
    && (forall i :: 0 <= i < |a| - |b| ==> TooOld(cacheMs, now, a[i]))
    && (|b| > 1 ==> !TooOld(cacheMs, now, b[0]))
  }

  lemma TrimIsExact(cfg: Config, s: Ring, now: nat)
    requires MidInv(cfg, s)
    ensures TrimmedTo(s.gops, TrimForTime(s, now).gops, s.cacheMs, now)
  {
    hide MidInv, TrimForTime, TooOld;
    var d := TrimTakes(cfg, s, now);
  }

  lemma ShiftedOld(a: seq<Gop>, b: seq<Gop>, cacheMs: nat, now: nat, e: nat)
    requires |a| > 1 && b == a[1..] && TooOld(cacheMs, now, a[0]) && e < |b|
    requires forall i :: 0 <= i < e ==> TooOld(cacheMs, now, b[i])
    requires e < |b| - 1 ==> !TooOld(cacheMs, now, b[e])
    ensures forall i :: 0 <= i < e + 1 ==> TooOld(cacheMs, now, a[i])
    ensures e + 1 < |a| - 1 ==> !TooOld(cacheMs, now, a[e + 1])
  {
    forall i | 0 < i < e + 1 ensures TooOld(cacheMs, now, a[i]) {
      assert b[i - 1] == a[i];
    }
  }

  /** There is no room in the index as long as the GOPs from the `i`th on are there. */
  predicate NoRoom(cfg: Config, s: Ring, i: nat)
    requires i < |s.gops|
  {
    var n := |s.gops| - i;
    n >= cfg.maxGop || (n >= s.targetGops && CountedFrom(s, i) >= cfg.cap)
  }

  /** Room in the index takes at most one GOP. */
  lemma IndexTakes(cfg: Config, s: Ring) returns (d: nat)
    requires MidInv(cfg, s)
    ensures Without(s, PopWhileIndexFull(cfg, s), d) && MidInv(cfg, PopWhileIndexFull(cfg, s))
    ensures forall i :: 0 <= i < d ==> NoRoom(cfg, s, i)
    ensures d < |s.gops| ==> !NoRoom(cfg, s, d)
    ensures d <= 1
  {
    d := 0;
    if IndexFull(cfg, s) && |s.gops| > 0 {
      PopIsWithout(cfg, s);
      assert PopWhileIndexFull(cfg, PopFront(s)) == PopFront(s);
      d := 1;
    }
  }

  /** So does a free slot. */
  lemma RoomTakes(cfg: Config, s: Ring) returns (d: nat)
    requires MidInv(cfg, s)
    ensures Without(s, PopWhileFull(cfg, s), d) && MidInv(cfg, PopWhileFull(cfg, s))
    ensures d == if s.count >= cfg.cap && |s.gops| > 0 then 1 else 0
    ensures d < |s.gops| ==> CountedFrom(s, d) < cfg.cap
  {
    d := 0;
    if s.count >= cfg.cap && |s.gops| > 0 {
      PopIsWithout(cfg, s);
      assert PopWhileFull(cfg, PopFront(s)) == PopFront(s);
      d := 1;
    }
  }

  /** The ring of `s`, with the GOP that the commit of `f` opens, if it does, and with no other given up. */
  function Grown(pol: Policy, s: Ring, f: Frame): Ring {
    if pol.newGop(f, s.keyPos, s.hasVideo) then s.(gops := s.gops + [Gop(|s.committed|, f.dts % 0x1_0000_0000)]) else s
  }

  /** Why the commit of `f` gives up the `i`th GOP: it is too old, which does not count for the last one; there
      is no room in the index for the GOP that opens; or there is no slot for the frame, or for the next one
      after it as long as it is not the last. */
  predicate HasToGo(cfg: Config, pol: Policy, s: Ring, f: Frame, i: nat)
    requires i < |Grown(pol, s, f).gops|
  {
    var g := Grown(pol, s, f);
    || (i < |g.gops| - 1 && TooOld(s.cacheMs, f.dts % 0x1_0000_0000, g.gops[i]))
    || (pol.newGop(f, s.keyPos, s.hasVideo) && i < |s.gops| && NoRoom(cfg, s, i))
    || CountedFrom(g, i) + (if i < |g.gops| - 1 then 1 else 0) >= cfg.cap
  }

  /** Fewer are counted the more GOPs are gone. */
  lemma CountedFalls(cfg: Config, s: Ring, i: nat, j: nat)
    requires MidInv(cfg, s) && i <= j <= |s.gops|
    ensures CountedFrom(s, j) <= CountedFrom(s, i) && (i < j < |s.gops| ==> CountedFrom(s, j) < CountedFrom(s, i))
  {
  }

  lemma RoomStays(cfg: Config, s: Ring, i: nat, j: nat)
    requires MidInv(cfg, s) && i <= j < |s.gops| && !NoRoom(cfg, s, i)
    ensures !NoRoom(cfg, s, j)
  {
    CountedFalls(cfg, s, i, j);
  }

  lemma GrownCounts(pol: Policy, s: Ring, f: Frame, i: nat)
    requires |s.gops| > 0 && i <= |s.gops|
    ensures CountedFrom(Grown(pol, s, f), i) == CountedFrom(s, i)
  {
  }

  lemma AppendedWithout(s: Ring, t: Ring, d: nat, g: Ring, here: Gop)
    requires Without(s, t, d) && |s.gops| > 0 && here.start == |s.committed| && g == s.(gops := s.gops + [here])
    ensures Without(g, t.(gops := t.gops + [here]), d)
  {
    assert g.gops[d..] == s.gops[d..] + [here];
  }

  /** The older GOPs that opening one takes: those that there is no room for, and those that are too old. */
  lemma OlderTake(cfg: Config, s: Ring, now: nat) returns (d: nat)
    requires MidInv(cfg, s) && |s.gops| > 0
    ensures Without(s, TrimForTime(PopWhileIndexFull(cfg, s), now), d)
    ensures forall i :: 0 <= i < d ==> NoRoom(cfg, s, i) || TooOld(s.cacheMs, now, s.gops[i])
    ensures d < |s.gops| ==> !NoRoom(cfg, s, d)
  {
    hide MidInv, PopWhileIndexFull, TrimForTime, TooOld, NoRoom, CountedFrom;
    var a := PopWhileIndexFull(cfg, s);
    var d1 := IndexTakes(cfg, s);
    var d2 := TrimTakes(cfg, a, now);
    WithoutTwice(s, a, d1, TrimForTime(a, now), d2);
    d := d1 + d2;
    if d < |s.gops| { RoomStays(cfg, s, d1, d); }
    forall i | d1 <= i < d ensures TooOld(s.cacheMs, now, s.gops[i]) { assert a.gops[i - d1] == s.gops[i]; }
  }

  lemma NextIs(cfg: Config, s: Ring, dts: nat)
    requires RingInv(cfg, s) && |s.gops| > 0
    ensures var b := TrimForTime(PopWhileIndexFull(cfg, s), dts);
            OnNewGop(cfg, s, dts) == b.(gops := b.gops + [Gop(|s.committed|, dts)])
  {
    hide TrimForTime, PopWhileIndexFull;
  }

  lemma FirstTakesNone(cfg: Config, pol: Policy, s: Ring, f: Frame)
    requires RingInv(cfg, s) && Opens(pol, s, f) && |s.gops| == 0
    ensures Without(Grown(pol, s, f), OnNewGop(cfg, s, DtsMs(f)), 0)
  {
    hide TrimForTime, PopWhileIndexFull;
  }

  lemma NextTakes(cfg: Config, pol: Policy, s: Ring, f: Frame) returns (d: nat)
    requires RingInv(cfg, s) && Opens(pol, s, f) && |s.gops| > 0
    ensures d <= |s.gops| && Without(Grown(pol, s, f), OnNewGop(cfg, s, DtsMs(f)), d)
    ensures forall i :: 0 <= i < d ==> NoRoom(cfg, s, i) || TooOld(s.cacheMs, DtsMs(f), s.gops[i])
    ensures d < |s.gops| ==> !NoRoom(cfg, s, d)
  {
    assert MidInv(cfg, s);
    var now, here := DtsMs(f), Gop(|s.committed|, DtsMs(f));
    NextIs(cfg, s, now);
    hide RingInv, MidInv, OnNewGop, TrimForTime, PopWhileIndexFull, CountedFrom, NoRoom, TooOld;
    d := OlderTake(cfg, s, now);
    AppendedWithout(s, TrimForTime(PopWhileIndexFull(cfg, s), now), d, Grown(pol, s, f), here);
  }

  lemma OlderHasToGo(cfg: Config, pol: Policy, s: Ring, f: Frame, i: nat)
    requires Opens(pol, s, f) && i < |s.gops| && (NoRoom(cfg, s, i) || TooOld(s.cacheMs, DtsMs(f), s.gops[i]))
    ensures HasToGo(cfg, pol, s, f, i)
  {
    hide NoRoom, TooOld;
    assert Grown(pol, s, f).gops[i] == s.gops[i];
  }

  // ---- the whole commit

  lemma SlotHasToGo(cfg: Config, pol: Policy, s: Ring, f: Frame, i: nat)
    requires i < |Grown(pol, s, f).gops| && CountedFrom(Grown(pol, s, f), i) >= cfg.cap
    ensures HasToGo(cfg, pol, s, f, i)
  {
    hide Grown, NoRoom, TooOld, CountedFrom;
  }

  /** `o` is the ring in the commit of `f` when the first `d` GOPs have been given up for good reasons. */
  ghost predicate TakenFor(cfg: Config, pol: Policy, s: Ring, f: Frame, o: Ring, d: nat) {
    && Without(Grown(pol, s, f), o, d) && MidInv(cfg, o)
    && (forall i :: 0 <= i < d ==> HasToGo(cfg, pol, s, f, i))
    && (d < |s.gops| && Opens(pol, s, f) ==> !NoRoom(cfg, s, d))
  }

  lemma RoomTakesMore(cfg: Config, pol: Policy, s: Ring, f: Frame, o: Ring, d1: nat) returns (d: nat)
    requires MidInv(cfg, s) && TakenFor(cfg, pol, s, f, o, d1)
    ensures TakenFor(cfg, pol, s, f, PopWhileFull(cfg, o), d)
    ensures d < |Grown(pol, s, f).gops| ==> CountedFrom(Grown(pol, s, f), d) < cfg.cap
  {
    hide MidInv, NoRoom, HasToGo, PopWhileFull, Opens, Grown, CountedFrom;
    var e := RoomTakes(cfg, o);
    WithoutTwice(Grown(pol, s, f), o, d1, PopWhileFull(cfg, o), e);
    d := d1 + e;
    if e == 1 { SlotHasToGo(cfg, pol, s, f, d1); }
    if d < |s.gops| && Opens(pol, s, f) { RoomStays(cfg, s, d1, d); }
  }

  lemma OpenedIs(cfg: Config, pol: Policy, s: Ring, f: Frame) returns (o: Ring, d: nat)
    requires RingInv(cfg, s)
    ensures TakenFor(cfg, pol, s, f, o, d) && Prepare(cfg, pol, s, f) == PopWhileFull(cfg, o)
  {
    hide RingInv, OnNewGop, NoRoom, TooOld, HasToGo, PopWhileFull;
    if !Opens(pol, s, f) {
      InvIsMid(cfg, s);
      o, d := s, 0;
    } else if |s.gops| == 0 {
      FirstGopKeeps(cfg, s, DtsMs(f));
      FirstTakesNone(cfg, pol, s, f);
      o, d := OnNewGop(cfg, s, DtsMs(f)), 0;
    } else {
      NextGopKeeps(cfg, s, DtsMs(f));
      o := OnNewGop(cfg, s, DtsMs(f));
      d := NextTakes(cfg, pol, s, f);
      forall i | 0 <= i < d ensures HasToGo(cfg, pol, s, f, i) { OlderHasToGo(cfg, pol, s, f, i); }
    }
  }

  /** Before the slot is overwritten. */
  lemma PrepareTakes(cfg: Config, pol: Policy, s: Ring, f: Frame) returns (d: nat)
    requires RingInv(cfg, s)
    ensures TakenFor(cfg, pol, s, f, Prepare(cfg, pol, s, f), d)
    ensures d < |Grown(pol, s, f).gops| ==> CountedFrom(Grown(pol, s, f), d) < cfg.cap
  {
    assert MidInv(cfg, s);
    hide RingInv, MidInv, Prepare, PopWhileFull, TakenFor, Grown, CountedFrom;
    var o, d1 := OpenedIs(cfg, pol, s, f);
    d := RoomTakesMore(cfg, pol, s, f, o, d1);
  }

  lemma IfFullTakes(cfg: Config, a: Ring) returns (d: nat)
    requires MidInv(cfg, a) && |a.gops| > 0
    ensures Without(a, PopIfFull(cfg, a), d) && MidInv(cfg, PopIfFull(cfg, a)) && d < |a.gops|
    ensures d == if a.count >= cfg.cap && |a.gops| > 1 then 1 else 0
    ensures d < |a.gops| - 1 ==> CountedFrom(a, d) < cfg.cap
  {
    d := 0;
    if a.count >= cfg.cap && |a.gops| > 1 {
      PopIsWithout(cfg, a);
      d := 1;
    }
  }

  /** After the overwrite, the first GOP goes if the ring is full and it is not the last; and so do those that
      are too old. */
  lemma TailTakes(cfg: Config, a: Ring, now: nat) returns (d: nat)
    requires MidInv(cfg, a) && |a.gops| > 0
    ensures Without(a, TrimForTime(PopIfFull(cfg, a), now), d) && d < |a.gops|
    ensures forall i :: 0 <= i < d ==> TooOld(a.cacheMs, now, a.gops[i]) || (i == 0 && a.count >= cfg.cap)
    ensures d < |a.gops| - 1 ==> !TooOld(a.cacheMs, now, a.gops[d]) && CountedFrom(a, d) < cfg.cap
  {
    hide MidInv, PopIfFull, TrimForTime, TooOld, CountedFrom;
    var b := PopIfFull(cfg, a);
    var d1 := IfFullTakes(cfg, a);
    var d2 := TrimTakes(cfg, b, now);
    WithoutTwice(a, b, d1, TrimForTime(b, now), d2);
    d := d1 + d2;
    CountedFalls(cfg, a, d1, d);
    forall i | d1 <= i < d ensures TooOld(a.cacheMs, now, a.gops[i]) { assert b.gops[i - d1] == a.gops[i]; }
  }

  lemma KeyIsWithout(pol: Policy, u: Ring, t: Ring, f: Frame, d: nat)
    requires Without(NoteKey(pol, u, f), t, d)
    ensures Without(u, t, d) && CountedFrom(NoteKey(pol, u, f), d) == CountedFrom(u, d)
  {
  }

  lemma SettleTakes(cfg: Config, pol: Policy, u: Ring, f: Frame) returns (d: nat)
    requires MidInv(cfg, u) && |u.gops| > 0
    ensures Without(u, Settle(cfg, pol, u, f), d) && d < |u.gops|
    ensures forall i :: 0 <= i < d ==> TooOld(u.cacheMs, DtsMs(f), u.gops[i]) || (i == 0 && u.count >= cfg.cap)
    ensures d < |u.gops| - 1 ==> !TooOld(u.cacheMs, DtsMs(f), u.gops[d]) && CountedFrom(u, d) < cfg.cap
  {
    var a := NoteKey(pol, u, f);
    assert MidInv(cfg, a) && a.gops == u.gops && a.count == u.count && a.cacheMs == u.cacheMs;
    hide MidInv, PopIfFull, TrimForTime, TooOld, CountedFrom, NoteKey, Without;
    d := TailTakes(cfg, a, DtsMs(f));
    KeyIsWithout(pol, u, Settle(cfg, pol, u, f), f, d);
  }

  lemma StoredCounts(cfg: Config, p: Ring, f: Frame, i: nat)
    requires i < |p.gops| && p.count < cfg.cap
    ensures CountedFrom(StoreFrame(cfg, p, f), i) == CountedFrom(p, i) + 1
  {
  }

  /** The ring `p` is ready for the frame, with the first `d1` GOPs gone; after the store, `e` more go. */
  ghost predicate Follows(cfg: Config, pol: Policy, s: Ring, f: Frame, p: Ring, d1: nat, t: Ring, e: nat) {
    var g, u := Grown(pol, s, f), StoreFrame(cfg, p, f);
    && TakenFor(cfg, pol, s, f, p, d1) && |p.gops| > 0 && p.count < cfg.cap && Without(u, t, e) && e < |p.gops|
    && (forall i :: 0 <= i < e ==> TooOld(u.cacheMs, DtsMs(f), u.gops[i]) || (i == 0 && u.count >= cfg.cap))
    && (e < |u.gops| - 1 ==> !TooOld(u.cacheMs, DtsMs(f), u.gops[e]) && CountedFrom(u, e) < cfg.cap)
  }

  /** Positions and counts in `p` and in the grown ring. */
  lemma Positions(cfg: Config, pol: Policy, s: Ring, f: Frame, p: Ring, d1: nat, t: Ring, e: nat, i: nat)
    requires Follows(cfg, pol, s, f, p, d1, t, e) && i < |p.gops|
    ensures var g, u := Grown(pol, s, f), StoreFrame(cfg, p, f);
            && |g.gops| == d1 + |p.gops| && u.gops == p.gops && g.gops[d1 + i] == p.gops[i] && u.cacheMs == s.cacheMs
            && CountedFrom(u, i) == CountedFrom(g, d1 + i) + 1
  {
    hide CountedFrom, HasToGo, NoRoom, TooOld, MidInv;
    StoredCounts(cfg, p, f, i);
    CountsShift(Grown(pol, s, f), p, d1, i);
  }

  lemma LaterGo(cfg: Config, pol: Policy, s: Ring, f: Frame, p: Ring, d1: nat, t: Ring, e: nat, i: nat)
    requires Follows(cfg, pol, s, f, p, d1, t, e) && i < e
    ensures d1 + i < |Grown(pol, s, f).gops| && HasToGo(cfg, pol, s, f, d1 + i)
  {
    Positions(cfg, pol, s, f, p, d1, t, e, i);
    assert CountedFrom(StoreFrame(cfg, p, f), 0) == StoreFrame(cfg, p, f).count;
    hide CountedFrom, NoRoom, TooOld, MidInv, Grown;
  }

  lemma FewerCounted(cfg: Config, pol: Policy, s: Ring, f: Frame, p: Ring, d1: nat, t: Ring, e: nat)
    requires MidInv(cfg, s) && Follows(cfg, pol, s, f, p, d1, t, e)
    ensures CountedFrom(StoreFrame(cfg, p, f), e) <= cfg.cap
    ensures Opens(pol, s, f) && d1 + e < |s.gops| ==> !NoRoom(cfg, s, d1 + e)
  {
    hide NoRoom, TooOld, MidInv, Grown, HasToGo;
    CountedFalls(cfg, p, 0, e);
    StoredCounts(cfg, p, f, e);
    if Opens(pol, s, f) && d1 + e < |s.gops| { RoomStays(cfg, s, d1, d1 + e); }
  }

  lemma FollowsLast(cfg: Config, pol: Policy, s: Ring, f: Frame, p: Ring, d1: nat, t: Ring, e: nat)
    requires Follows(cfg, pol, s, f, p, d1, t, e)
    ensures var u := StoreFrame(cfg, p, f); e < |p.gops| == |u.gops|
    ensures var u := StoreFrame(cfg, p, f);
            e < |u.gops| - 1 ==> !TooOld(u.cacheMs, DtsMs(f), u.gops[e]) && CountedFrom(u, e) < cfg.cap
  {
    hide CountedFrom, NoRoom, TooOld, MidInv, Grown, TakenFor, Without, HasToGo;
  }

  lemma NextStays(cfg: Config, pol: Policy, s: Ring, f: Frame, p: Ring, d1: nat, t: Ring, e: nat)
    requires MidInv(cfg, s) && Follows(cfg, pol, s, f, p, d1, t, e)
    ensures d1 + e < |Grown(pol, s, f).gops| && !HasToGo(cfg, pol, s, f, d1 + e)
  {
    hide CountedFrom, NoRoom, TooOld, MidInv, Grown, Follows, StoreFrame;
    FollowsLast(cfg, pol, s, f, p, d1, t, e);
    Positions(cfg, pol, s, f, p, d1, t, e, e);
    FewerCounted(cfg, pol, s, f, p, d1, t, e);
  }

  lemma FollowsTo(cfg: Config, pol: Policy, s: Ring, f: Frame, p: Ring, d1: nat, t: Ring, e: nat)
    requires Follows(cfg, pol, s, f, p, d1, t, e)
    ensures d1 + e < |Grown(pol, s, f).gops| && t.gops == Grown(pol, s, f).gops[d1 + e..]
    ensures t.count == CountedFrom(Grown(pol, s, f), d1 + e) + 1
  {
    hide CountedFrom, NoRoom, TooOld, MidInv, Grown;
    Positions(cfg, pol, s, f, p, d1, t, e, e);
    assert Grown(pol, s, f).gops[d1..][e..] == Grown(pol, s, f).gops[d1 + e..];
  }

  lemma CommitFollows(cfg: Config, pol: Policy, s: Ring, f: Frame) returns (d1: nat, e: nat)
    requires RingInv(cfg, s)
    ensures var p := Prepare(cfg, pol, s, f);
            if |p.gops| == 0 then TakenFor(cfg, pol, s, f, p, d1) && |Store(cfg, pol, s, f).gops| == 0
            else Follows(cfg, pol, s, f, p, d1, Store(cfg, pol, s, f), e)
  {
    PrepareKeeps(cfg, pol, s, f);
    var p := Prepare(cfg, pol, s, f);
    StoreKeeps(cfg, p, f);
    var u := StoreFrame(cfg, p, f);
    hide RingInv, MidInv, Prepare, Settle, CountedFrom, HasToGo, NoRoom, TooOld, Guarded;
    d1 := PrepareTakes(cfg, pol, s, f);
    e := 0;
    if |p.gops| == 0 { SettleKeeps(cfg, pol, u, f); } else { e := SettleTakes(cfg, pol, u, f); }
  }

  lemma InvIsMid(cfg: Config, s: Ring)
    requires RingInv(cfg, s)
    ensures MidInv(cfg, s)
  {
  }

  lemma EarlierGo(cfg: Config, pol: Policy, s: Ring, f: Frame, p: Ring, d1: nat, i: nat)
    requires TakenFor(cfg, pol, s, f, p, d1) && i < d1
    ensures i < |Grown(pol, s, f).gops| && HasToGo(cfg, pol, s, f, i)
  {
    hide HasToGo, MidInv, Grown, CountedFrom, NoRoom;
  }

  /** The GOPs of `t` are those from the first on that does not have to go, and what is left of the others is
      counted together with the frame. */
  ghost predicate GoneUpTo(cfg: Config, pol: Policy, s: Ring, f: Frame, t: Ring, d: nat) {
    var g := Grown(pol, s, f);
    && d <= |g.gops| && t.gops == g.gops[d..]
    && (forall i :: 0 <= i < d ==> HasToGo(cfg, pol, s, f, i))
    && (d < |g.gops| ==> !HasToGo(cfg, pol, s, f, d) && t.count == CountedFrom(g, d) + 1)
  }

  lemma AllGo(cfg: Config, pol: Policy, s: Ring, f: Frame, p: Ring, d: nat, t: Ring)
    requires TakenFor(cfg, pol, s, f, p, d) && |p.gops| == |t.gops| == 0
    ensures GoneUpTo(cfg, pol, s, f, t, d)
  {
    hide HasToGo, MidInv, Grown, CountedFrom, NoRoom;
    assert t.gops == Grown(pol, s, f).gops[d..];
  }

  lemma SomeGo(cfg: Config, pol: Policy, s: Ring, f: Frame, p: Ring, d1: nat, t: Ring, e: nat)
    requires MidInv(cfg, s) && Follows(cfg, pol, s, f, p, d1, t, e)
    ensures GoneUpTo(cfg, pol, s, f, t, d1 + e)
  {
    assert TakenFor(cfg, pol, s, f, p, d1);
    hide MidInv, HasToGo, CountedFrom, Grown, Follows, TakenFor;
    forall i | 0 <= i < d1 + e ensures i < |Grown(pol, s, f).gops| && HasToGo(cfg, pol, s, f, i) {
      if i < d1 { EarlierGo(cfg, pol, s, f, p, d1, i); } else { LaterGo(cfg, pol, s, f, p, d1, t, e, i - d1); }
    }
    NextStays(cfg, pol, s, f, p, d1, t, e);
    FollowsTo(cfg, pol, s, f, p, d1, t, e);
  }

  /** A commit gives up exactly the GOPs in front of the first that does not have to go. */
  lemma GopsThatGo(cfg: Config, pol: Policy, s: Ring, f: Frame) returns (d: nat)
    requires RingInv(cfg, s)
    ensures GoneUpTo(cfg, pol, s, f, Store(cfg, pol, s, f), d)
  {
    hide RingInv, MidInv, Prepare, Store, Follows, TakenFor, GoneUpTo;
    InvIsMid(cfg, s);
    var p, t := Prepare(cfg, pol, s, f), Store(cfg, pol, s, f);
    var d1, e := CommitFollows(cfg, pol, s, f);
    if |p.gops| == 0 {
      d := d1;
      AllGo(cfg, pol, s, f, p, d, t);
    } else {
      d := d1 + e;
      SomeGo(cfg, pol, s, f, p, d1, t, e);
    }
  }

  lemma SeenOrNot(pol: Policy, s: Ring, f: Frame)
    requires |f.data| > 0
    ensures SeeFrame(s, f) == s.(hasVideo := KnowsVideo(s, f)) && (Accepts(pol, SeeFrame(s, f), f) <==> Admits(pol, s, f))
  {
  }

  lemma AcceptedGoes(cfg: Config, pol: Policy, s: Ring, f: Frame) returns (d: nat)
    requires RingInv(cfg, s) && Admits(pol, s, f)
    ensures GoneUpTo(cfg, pol, s.(hasVideo := KnowsVideo(s, f)), f, Commit(cfg, pol, s, f), d)
  {
    hide RingInv, Store, GoneUpTo, SeeFrame, Accepts;
    SeeKeeps(cfg, s, f);
    SeenOrNot(pol, s, f);
    d := GopsThatGo(cfg, pol, SeeFrame(s, f), f);
  }

  // ---- what the ring remembers

  /** The flags and settings of `t`. */
  datatype Memory = Memory(cacheStarted: bool, hasVideo: bool, keyPos: bool, targetGops: nat, cacheMs: nat)

  function MemoryOf(s: Ring): Memory {
    Memory(s.cacheStarted, s.hasVideo, s.keyPos, s.targetGops, s.cacheMs)
  }

  lemma PopRemembers(cfg: Config, s: Ring, now: nat)
    requires MidInv(cfg, s)
    ensures MemoryOf(TrimForTime(s, now)) == MemoryOf(PopWhileIndexFull(cfg, s)) == MemoryOf(PopWhileFull(cfg, s))
         == MemoryOf(PopIfFull(cfg, s)) == MemoryOf(s)
  {
    hide MidInv, TrimForTime, PopWhileIndexFull, PopWhileFull, PopIfFull;
    TrimKeeps(cfg, s, now);
    PopWhileIndexFullKeeps(cfg, s);
    PopWhileFullKeeps(cfg, s);
    PopIfFullKeeps(cfg, s);
  }

  lemma OpenRemembers(cfg: Config, s: Ring, dts: nat)
    requires RingInv(cfg, s)
    ensures MidInv(cfg, OnNewGop(cfg, s, dts)) && MemoryOf(OnNewGop(cfg, s, dts)) == MemoryOf(s).(cacheStarted := true)
  {
    if |s.gops| == 0 {
      FirstGopKeeps(cfg, s, dts);
    } else {
      NextGopKeeps(cfg, s, dts);
      hide TrimForTime, PopWhileIndexFull;
      PopWhileIndexFullKeeps(cfg, s);
      PopRemembers(cfg, s, dts);
      PopRemembers(cfg, PopWhileIndexFull(cfg, s), dts);
    }
  }

  lemma PrepareRemembers(cfg: Config, pol: Policy, s: Ring, f: Frame)
    requires RingInv(cfg, s)
    ensures MidInv(cfg, Prepare(cfg, pol, s, f))
    ensures MemoryOf(Prepare(cfg, pol, s, f))
         == MemoryOf(s).(cacheStarted := s.cacheStarted || pol.newGop(f, s.keyPos, s.hasVideo))
  {
    hide MidInv, OnNewGop, PopWhileFull;
    PrepareKeeps(cfg, pol, s, f);
    if Opens(pol, s, f) {
      OpenRemembers(cfg, s, DtsMs(f));
      PopRemembers(cfg, OnNewGop(cfg, s, DtsMs(f)), 0);
    } else {
      PopRemembers(cfg, s, 0);
    }
  }

  lemma SettleRemembers(cfg: Config, pol: Policy, u: Ring, f: Frame)
    requires MidInv(cfg, u)
    ensures MemoryOf(Settle(cfg, pol, u, f)) == MemoryOf(NoteKey(pol, u, f))
  {
    var a := NoteKey(pol, u, f);
    assert MidInv(cfg, a);
    hide MidInv, TrimForTime, PopIfFull, NoteKey, MemoryOf;
    PopRemembers(cfg, a, 0);
    PopIfFullKeeps(cfg, a);
    PopRemembers(cfg, PopIfFull(cfg, a), DtsMs(f));
  }

  /** A new GOP starts the cache; a frame that must not be dropped tells whether a GOP may begin behind it: video
      by being a marker, audio by coming before any video. */
  lemma StoreRemembers(cfg: Config, pol: Policy, s: Ring, f: Frame)
    requires RingInv(cfg, s)
    ensures var t := Store(cfg, pol, s, f);
            && t.cacheStarted == (s.cacheStarted || pol.newGop(f, s.keyPos, s.hasVideo))
            && t.keyPos == (if f.droppable then s.keyPos else if f.track == Video then pol.marker(f) else s.keyPos || !s.hasVideo)
            && t.hasVideo == s.hasVideo && t.targetGops == s.targetGops && t.cacheMs == s.cacheMs
  {
    hide RingInv, MidInv, Prepare, Settle;
    PrepareRemembers(cfg, pol, s, f);
    PrepareKeeps(cfg, pol, s, f);
    StoreKeeps(cfg, Prepare(cfg, pol, s, f), f);
    SettleRemembers(cfg, pol, StoreFrame(cfg, Prepare(cfg, pol, s, f), f), f);
  }

  /** The same for every commit, refused or not. */
  lemma CommitRemembers(cfg: Config, pol: Policy, s: Ring, f: Frame)
    requires RingInv(cfg, s)
    ensures var t := Commit(cfg, pol, s, f);
            && t.hasVideo == KnowsVideo(s, f) && t.targetGops == s.targetGops && t.cacheMs == s.cacheMs
            && t.cacheStarted == (s.cacheStarted || (Admits(pol, s, f) && pol.newGop(f, s.keyPos, t.hasVideo)))
            && t.keyPos == if !Admits(pol, s, f) || f.droppable then s.keyPos
                           else if f.track == Video then pol.marker(f) else s.keyPos || !t.hasVideo
  {
    hide RingInv, Store, SeeFrame, Accepts;
    if |f.data| > 0 {
      SeenOrNot(pol, s, f);
      SeeKeeps(cfg, s, f);
      StoreRemembers(cfg, pol, SeeFrame(s, f), f);
    }
  }

  predicate IsVideo(op: Op) {
    op.OpVideoConfig? || (op.OpCommit? && |op.f.data| > 0 && op.f.track == Video && !op.f.config)
  }

  predicate NoClear(ops: seq<Op>) {
    forall j :: 0 <= j < |ops| ==> !ops[j].OpClear?
  }

  /** One of the operations tells of video, and the ring is not cleared after it. */
  predicate TellsVideo(ops: seq<Op>) {
    exists i :: 0 <= i < |ops| && IsVideo(ops[i]) && NoClear(ops[i + 1..])
  }

  lemma FirstOrLater(ops: seq<Op>)
    requires ops != []
    ensures NoClear(ops) <==> !ops[0].OpClear? && NoClear(ops[1..])
    ensures TellsVideo(ops) <==> (IsVideo(ops[0]) && NoClear(ops[1..])) || TellsVideo(ops[1..])
  {
    if TellsVideo(ops[1..]) {
      var i :| 0 <= i < |ops| - 1 && IsVideo(ops[1..][i]) && NoClear(ops[1..][i + 1..]);
      assert IsVideo(ops[i + 1]) && ops[1..][i + 1..] == ops[i + 2..];
    }
    if TellsVideo(ops) {
      var i :| 0 <= i < |ops| && IsVideo(ops[i]) && NoClear(ops[i + 1..]);
      if i > 0 { assert IsVideo(ops[1..][i - 1]) && ops[1..][i..] == ops[i + 1..]; }
    }
  }

  lemma VideoNow(cfg: Config, pol: Policy, s: Ring, op: Op)
    requires RingInv(cfg, s)
    ensures Apply(cfg, pol, s, op).hasVideo <==> IsVideo(op) || (s.hasVideo && !op.OpClear?)
  {
    hide RingInv, Commit;
    if op.OpCommit? { CommitRemembers(cfg, pol, s, op.f); }
  }

  /** The ring knows of video exactly if something told it since it was cleared last. */
  lemma {:induction false} VideoIff(cfg: Config, pol: Policy, s: Ring, ops: seq<Op>)
    requires RingInv(cfg, s)
    ensures Run(cfg, pol, s, ops).hasVideo <==> TellsVideo(ops) || (s.hasVideo && NoClear(ops))
    decreases |ops|
  {
    if ops != [] {
      hide RingInv, Apply, TellsVideo, NoClear, IsVideo;
      ApplyKeeps(cfg, pol, s, ops[0]);
      VideoNow(cfg, pol, s, ops[0]);
      FirstOrLater(ops);
      VideoIff(cfg, pol, Apply(cfg, pol, s, ops[0]), ops[1..]);
    }
  }

  /** The number of GOPs asked for becomes the nearest one that the index allows. */
  lemma TargetIsNearest(cfg: Config, pol: Policy, s: Ring, n: nat, m: nat)
    requires cfg.Valid() && 1 <= m <= cfg.maxGop
    ensures var k := Apply(cfg, pol, s, OpTarget(n)).targetGops;
            1 <= k <= cfg.maxGop && (if k <= n then n - k else k - n) <= (if m <= n then n - m else m - n)
  {
  }
}
