/** The value of the live GOP ring and what each of its locked operations does to that value.

    `Ring.committed` is the list of every slot ever published since the last clear, so the absolute
    index of a frame is its position in that list; `write_idx` is its length.  `Ring.published` is
    the list of values stored into the shared `oldest_seq` word, in order. */
module GopRing {
  import Bytes

  /** Ring capacity, length of the GOP index and reader lag limit. */
  datatype Config = Config(cap: nat, maxGop: nat, maxLag: nat) {
    predicate Valid() {
      1 <= maxLag < cap && 2 <= maxGop
    }
  }

  datatype Track = Video | Audio

  datatype Frame = Frame(codec: nat, track: Track, keyframe: bool, config: bool, droppable: bool,
                         dts: nat, pts: nat, data: seq<int>)

  /** The public view of a ring slot. */
  datatype Slot = Slot(codec: nat, track: Track, keyframe: bool, config: bool, droppable: bool,
                       dts: nat, pts: nat, data: seq<int>)

  /** The codec table: three probes of a frame that this model does not interpret. */
  datatype Policy = Policy(storable: (Frame, bool, bool) -> bool,
                           newGop: (Frame, bool, bool) -> bool,
                           marker: Frame -> bool)

  datatype Gop = Gop(start: nat, dts: nat)

  datatype Ring = Ring(committed: seq<Slot>, count: nat, gops: seq<Gop>, published: seq<nat>,
                       targetGops: nat, cacheMs: nat, cacheStarted: bool, hasVideo: bool, keyPos: bool) {
    function WriteIdx(): nat {
      |committed|
    }

    /** The last value stored into `oldest_seq`. */
    function OldestSeq(): nat {
      if published == [] then 0 else published[|published| - 1]
    }

    function OldestIdx(): int {
      if |gops| > 0 then gops[0].start
      else if count > 0 then WriteIdx() - count
      else WriteIdx()
    }

    function BeginningIdx(): int {
      if count > 0 && WriteIdx() >= count then WriteIdx() - count else 0
    }
  }

  function DtsMs(f: Frame): nat {
    f.dts % Bytes.U32
  }

  function PtsMs(f: Frame): nat {
    var pts := f.pts % Bytes.U32;
    if pts == 0 || pts == DtsMs(f) then 0 else pts
  }

  function Stored(f: Frame): Slot {
    Slot(f.codec, f.track, f.keyframe, f.config, f.droppable, DtsMs(f), PtsMs(f), f.data)
  }

  function ClampTarget(cfg: Config, n: nat): nat {
    if n < 1 then 1 else if n > cfg.maxGop then cfg.maxGop else n
  }

  function Fresh(cfg: Config, target: nat, cacheMs: nat): Ring {
    Ring([], 0, [], [0], ClampTarget(cfg, target), cacheMs, false, false, false)
  }

  function Publish(s: Ring, v: int): Ring {
    s.(published := s.published + [if v < 0 then 0 else v])
  }

  /** How many frames leave `count` when the front GOP is popped. */
  function DroppedByPop(s: Ring): int
    requires |s.gops| > 0
  {
    (if |s.gops| > 1 then s.gops[1].start else s.WriteIdx()) - s.gops[0].start
  }

  function PopFront(s: Ring): Ring {
    if |s.gops| == 0 then s
    else
      var dropped := DroppedByPop(s);
      var count := if dropped <= 0 then s.count else if dropped <= s.count then s.count - dropped else 0;
      var t := s.(gops := s.gops[1..], count := count);
      Publish(t, t.OldestIdx())
  }

  predicate Overdue(s: Ring, now: nat) {
    s.cacheMs != 0 && |s.gops| > 1 && now >= s.gops[0].dts && now - s.gops[0].dts > s.cacheMs
  }

  function TrimForTime(s: Ring, now: nat): Ring
    decreases |s.gops|
  {
    if Overdue(s, now) then TrimForTime(PopFront(s), now) else s
  }

  predicate IndexFull(cfg: Config, s: Ring) {
    |s.gops| >= cfg.maxGop || (|s.gops| >= s.targetGops && s.count >= cfg.cap)
  }

  function PopWhileIndexFull(cfg: Config, s: Ring): Ring
    decreases |s.gops|
  {
    if IndexFull(cfg, s) && |s.gops| > 0 then PopWhileIndexFull(cfg, PopFront(s)) else s
  }

  function PopWhileFull(cfg: Config, s: Ring): Ring
    decreases |s.gops|
  {
    if s.count >= cfg.cap && |s.gops| > 0 then PopWhileFull(cfg, PopFront(s)) else s
  }

  function OnNewGop(cfg: Config, s: Ring, dts: nat): Ring {
    var here := Gop(s.WriteIdx(), dts);
    if !s.cacheStarted || |s.gops| == 0 then
      Publish(s.(cacheStarted := true, gops := [here]), s.WriteIdx())
    else if s.WriteIdx() > s.gops[|s.gops| - 1].start then
      var t := TrimForTime(PopWhileIndexFull(cfg, s), dts);
      t.(gops := t.gops + [here])
    else s
  }

  function SeeFrame(s: Ring, f: Frame): Ring {
    if f.track == Video && !f.config then s.(hasVideo := true) else s
  }

  /** Asked of the ring once it has seen the frame. */
  predicate Accepts(pol: Policy, s: Ring, f: Frame) {
    |f.data| > 0 && pol.storable(f, s.cacheStarted, s.hasVideo)
  }

  predicate Opens(pol: Policy, s: Ring, f: Frame) {
    pol.newGop(f, s.keyPos, s.hasVideo)
  }

  /** A commit up to the moment the slot is about to be overwritten. */
  function Prepare(cfg: Config, pol: Policy, s: Ring, f: Frame): Ring {
    PopWhileFull(cfg, if Opens(pol, s, f) then OnNewGop(cfg, s, DtsMs(f)) else s)
  }

  function StoreFrame(cfg: Config, s: Ring, f: Frame): Ring {
    s.(committed := s.committed + [Stored(f)], count := if s.count < cfg.cap then s.count + 1 else s.count)
  }

  function NoteKey(pol: Policy, s: Ring, f: Frame): Ring {
    if f.droppable then s
    else if f.track == Video then s.(keyPos := pol.marker(f))
    else if !s.hasVideo then s.(keyPos := true)
    else s
  }

  function PopIfFull(cfg: Config, s: Ring): Ring {
    if s.count >= cfg.cap && |s.gops| > 1 then PopFront(s) else s
  }

  /** A commit from the moment the slot has been overwritten. */
  function Settle(cfg: Config, pol: Policy, s: Ring, f: Frame): Ring {
    TrimForTime(PopIfFull(cfg, NoteKey(pol, s, f)), DtsMs(f))
  }

  /** The commit of a frame the ring accepts. */
  function Store(cfg: Config, pol: Policy, s: Ring, f: Frame): Ring {
    Settle(cfg, pol, StoreFrame(cfg, Prepare(cfg, pol, s, f), f), f)
  }

  /** The whole of one locked commit. */
  function Commit(cfg: Config, pol: Policy, s: Ring, f: Frame): Ring {
    if |f.data| == 0 then s
    else
      var t := SeeFrame(s, f);
      if Accepts(pol, t, f) then Store(cfg, pol, t, f) else t
  }

  function Clear(s: Ring): Ring {
    Ring([], 0, [], [0], s.targetGops, s.cacheMs, false, false, false)
  }

  datatype Op = OpCommit(f: Frame) | OpClear | OpTarget(n: nat) | OpCache(ms: nat) | OpVideoConfig

  function Apply(cfg: Config, pol: Policy, s: Ring, op: Op): Ring {
    match op
    case OpCommit(f) => Commit(cfg, pol, s, f)
    case OpClear => Clear(s)
    case OpTarget(n) => s.(targetGops := ClampTarget(cfg, n))
    case OpCache(ms) => s.(cacheMs := ms)
    case OpVideoConfig => s.(cacheStarted := true, hasVideo := true)
  }

  function Run(cfg: Config, pol: Policy, s: Ring, ops: seq<Op>): Ring
    decreases |ops|
  {
    if ops == [] then s else Run(cfg, pol, Apply(cfg, pol, s, ops[0]), ops[1..])
  }

  // ---------------------------------------------------------------------------------------------
  // The ring invariant
  // ---------------------------------------------------------------------------------------------

  /** True of the ring at every point of every locked operation. */
  ghost predicate MidInv(cfg: Config, s: Ring) {
    && cfg.Valid()
    && s.count <= cfg.cap && s.count <= s.WriteIdx()
    && |s.gops| <= cfg.maxGop
    && (forall i, j :: 0 <= i < j < |s.gops| ==> s.gops[i].start < s.gops[j].start)
    && (forall i :: 0 <= i < |s.gops| ==> s.gops[i].start <= s.WriteIdx())
    && (|s.gops| > 0 ==> s.WriteIdx() - s.gops[0].start <= s.count)
    && (|s.gops| > 0 ==> s.cacheStarted)
    && 1 <= s.targetGops <= cfg.maxGop
    && s.OldestSeq() <= s.OldestIdx()
  }

  /** The word that lock-free readers compare with is not behind the frames that `count` keeps. */
  ghost predicate Guarded(s: Ring) {
    s.OldestSeq() >= s.WriteIdx() - s.count
  }

  /** Full with nothing left to pop: the one state in which commits overwrite unannounced. */
  predicate Stuck(cfg: Config, s: Ring) {
    s.count >= cfg.cap && |s.gops| == 0
  }

  /** True of the ring between locked operations. */
  ghost predicate RingInv(cfg: Config, s: Ring) {
    && MidInv(cfg, s)
    && (forall i :: 0 <= i < |s.gops| ==> s.gops[i].start < s.WriteIdx())
    && (s.WriteIdx() > 0 ==> s.count > 0)
    && (Stuck(cfg, s) || Guarded(s))
  }

  /** What any number of pops may do to the ring. */
  ghost predicate Popped(s: Ring, t: Ring) {
    && t == s.(count := t.count, gops := t.gops, published := t.published)
    && t.count <= s.count
    && |t.gops| <= |s.gops| && (|s.gops| == 0 ==> t == s)
    && (|t.gops| > 0 ==> s.count - t.count == t.gops[0].start - s.gops[0].start)
    && (|t.gops| > 0 ==> t.gops[|t.gops| - 1] == s.gops[|s.gops| - 1])
    && (|t.gops| == 0 && |s.gops| > 0 ==> s.count - t.count == s.WriteIdx() - s.gops[0].start)
    && Announced(s.published, t.published, s.WriteIdx() - s.count)
  }

  /** `newer` extends `older` by values that are all at least `low`. */
  ghost predicate Announced(older: seq<nat>, newer: seq<nat>, low: int) {
    && |older| <= |newer|
    && (forall i :: 0 <= i < |older| ==> newer[i] == older[i])
    && (forall i :: |older| <= i < |newer| ==> newer[i] >= low)
  }

  lemma AnnouncedTransitive(a: seq<nat>, b: seq<nat>, c: seq<nat>, low: int, low': int)
    requires Announced(a, b, low) && Announced(b, c, low') && low <= low'
    ensures Announced(a, c, low)
  {
    forall i | |a| <= i < |c| ensures c[i] >= low {
      if i < |b| { assert c[i] == b[i]; }
    }
  }

  /** Popping a GOP never needs to clamp `count` at zero, and it keeps the ring consistent. */
  lemma PopKeeps(cfg: Config, s: Ring)
    requires MidInv(cfg, s) && |s.gops| > 0
    ensures 0 <= DroppedByPop(s) <= s.count
    ensures MidInv(cfg, PopFront(s)) && Popped(s, PopFront(s)) && Guarded(PopFront(s))
    ensures PopFront(s).OldestSeq() == PopFront(s).OldestIdx()
  {
  }

  lemma PoppedTransitive(cfg: Config, s: Ring, t: Ring, u: Ring)
    requires MidInv(cfg, s) && MidInv(cfg, t) && Popped(s, t) && Popped(t, u)
    ensures Popped(s, u)
  {
    AnnouncedTransitive(s.published, t.published, u.published, s.WriteIdx() - s.count, t.WriteIdx() - t.count);
  }

  lemma {:induction false} TrimKeeps(cfg: Config, s: Ring, now: nat)
    requires MidInv(cfg, s)
    ensures var t := TrimForTime(s, now); MidInv(cfg, t) && Popped(s, t) && (Guarded(s) ==> Guarded(t))
    ensures var t := TrimForTime(s, now); (|s.gops| > 0 ==> |t.gops| > 0) && !Overdue(t, now)
    ensures var t := TrimForTime(s, now); t == s || t.OldestSeq() == t.OldestIdx()
    decreases |s.gops|
  {
    if Overdue(s, now) {
      PopKeeps(cfg, s);
      TrimKeeps(cfg, PopFront(s), now);
      PoppedTransitive(cfg, s, PopFront(s), TrimForTime(s, now));
    }
  }

  lemma {:induction false} PopWhileIndexFullKeeps(cfg: Config, s: Ring)
    requires MidInv(cfg, s)
    ensures var t := PopWhileIndexFull(cfg, s);
            MidInv(cfg, t) && Popped(s, t) && (Guarded(s) ==> Guarded(t)) && !IndexFull(cfg, t)
    ensures var t := PopWhileIndexFull(cfg, s); t == s || t.OldestSeq() == t.OldestIdx()
    decreases |s.gops|
  {
    if IndexFull(cfg, s) && |s.gops| > 0 {
      PopKeeps(cfg, s);
      PopWhileIndexFullKeeps(cfg, PopFront(s));
      PoppedTransitive(cfg, s, PopFront(s), PopWhileIndexFull(cfg, s));
    }
  }

  lemma {:induction false} PopWhileFullKeeps(cfg: Config, s: Ring)
    requires MidInv(cfg, s)
    ensures var t := PopWhileFull(cfg, s);
            MidInv(cfg, t) && Popped(s, t) && (Guarded(s) ==> Guarded(t)) && (t.count < cfg.cap || |t.gops| == 0)
    ensures var t := PopWhileFull(cfg, s); t == s || t.OldestSeq() == t.OldestIdx()
    decreases |s.gops|
  {
    if s.count >= cfg.cap && |s.gops| > 0 {
      PopKeeps(cfg, s);
      PopWhileFullKeeps(cfg, PopFront(s));
      PoppedTransitive(cfg, s, PopFront(s), PopWhileFull(cfg, s));
    }
  }

  /** `t` is `s` with a GOP starting at the write index and possibly older GOPs popped. */
  ghost predicate Opened(cfg: Config, s: Ring, t: Ring, dts: nat) {
    && MidInv(cfg, t) && |t.gops| > 0 && t.gops[|t.gops| - 1] == Gop(s.WriteIdx(), dts)
    && (|t.gops| > 1 ==> |s.gops| > 0 && t.gops[|t.gops| - 2].start < s.WriteIdx())
    && t.committed == s.committed && t.count <= s.count
    && Announced(s.published, t.published, s.WriteIdx() - s.count)
    && (Guarded(s) ==> Guarded(t))
    && (|s.gops| == 0 ==> t.count == s.count && |t.gops| == 1)
    && (|s.gops| > 0 && s.count == cfg.cap ==> t.count < cfg.cap || t.gops[0].start < s.WriteIdx())
  }

  lemma StartKeeps(cfg: Config, s: Ring)
    requires MidInv(cfg, s)
    ensures MidInv(cfg, s.(cacheStarted := true))
  {
  }

  lemma FirstGopKeeps(cfg: Config, s: Ring, dts: nat)
    requires RingInv(cfg, s) && |s.gops| == 0
    ensures Opened(cfg, s, OnNewGop(cfg, s, dts), dts)
  {
  }

  lemma AppendGopKeeps(cfg: Config, s: Ring, t: Ring, dts: nat)
    requires RingInv(cfg, s) && |s.gops| > 0
    requires MidInv(cfg, t) && Popped(s, t) && |t.gops| < cfg.maxGop && (Guarded(s) ==> Guarded(t))
    ensures Opened(cfg, s, t.(gops := t.gops + [Gop(s.WriteIdx(), dts)]), dts)
  {
    var u := t.(gops := t.gops + [Gop(s.WriteIdx(), dts)]);
    if |t.gops| > 0 {
      assert u.gops[0] == t.gops[0] && u.gops[|u.gops| - 2] == s.gops[|s.gops| - 1];
    }
    assert forall i :: 0 <= i < |t.gops| ==> u.gops[i] == t.gops[i];
    assert forall i :: 0 <= i < |t.gops| - 1 ==> t.gops[i].start < t.gops[|t.gops| - 1].start;
  }

  lemma NextGopKeeps(cfg: Config, s: Ring, dts: nat)
    requires RingInv(cfg, s) && |s.gops| > 0
    ensures Opened(cfg, s, OnNewGop(cfg, s, dts), dts)
  {
    var a := PopWhileIndexFull(cfg, s);
    PopWhileIndexFullKeeps(cfg, s);
    var b := TrimForTime(a, dts);
    TrimKeeps(cfg, a, dts);
    PoppedTransitive(cfg, s, a, b);
    AppendGopKeeps(cfg, s, b, dts);
  }

  /** The ring after the part of a commit that precedes the overwrite. */
  ghost predicate Prepared(cfg: Config, s: Ring, t: Ring) {
    && MidInv(cfg, t) && t.committed == s.committed
    && Announced(s.published, t.published, s.WriteIdx() - s.count)
    && (t.count < cfg.cap ==> Guarded(t))
    && (t.count < cfg.cap <==> !Stuck(cfg, s))
    && (Stuck(cfg, s) ==> |t.gops| == 0)
  }

  lemma PopToMakeRoom(cfg: Config, s: Ring, u: Ring)
    requires RingInv(cfg, s) && MidInv(cfg, u) && u.committed == s.committed && u.count <= s.count
    requires Announced(s.published, u.published, s.WriteIdx() - s.count)
    requires Guarded(s) ==> Guarded(u)
    requires Stuck(cfg, s) ==> u.count == s.count && (|u.gops| > 0 ==> u.gops[0].start == s.WriteIdx())
    requires !Stuck(cfg, s) ==> u.count < cfg.cap || (|u.gops| > 0 && u.gops[0].start < s.WriteIdx())
    requires |u.gops| > 1 ==> |s.gops| > 0
    ensures Prepared(cfg, s, PopWhileFull(cfg, u))
  {
    PopWhileFullKeeps(cfg, u);
    var t := PopWhileFull(cfg, u);
    AnnouncedTransitive(s.published, u.published, t.published, s.WriteIdx() - s.count, u.WriteIdx() - u.count);
  }

  lemma PrepareKeeps(cfg: Config, pol: Policy, s: Ring, f: Frame)
    requires RingInv(cfg, s)
    ensures Prepared(cfg, s, Prepare(cfg, pol, s, f))
  {
    if Opens(pol, s, f) {
      if |s.gops| == 0 { FirstGopKeeps(cfg, s, DtsMs(f)); } else { NextGopKeeps(cfg, s, DtsMs(f)); }
      PopToMakeRoom(cfg, s, OnNewGop(cfg, s, DtsMs(f)));
    } else {
      PopToMakeRoom(cfg, s, s);
    }
  }

  /** A commit overwrites only a frame that lock-free readers have been told to refuse, exactly
      when the ring is not full without a GOP. */
  lemma OverwriteIsAnnounced(cfg: Config, pol: Policy, s: Ring, f: Frame)
    requires RingInv(cfg, s) && s.WriteIdx() >= cfg.cap
    ensures Prepare(cfg, pol, s, f).OldestSeq() > s.WriteIdx() - cfg.cap <==> s.count < cfg.cap || |s.gops| > 0
  {
    PrepareKeeps(cfg, pol, s, f);
  }

  /** The ring after a whole commit of `f` made from `u`, the prepared ring with the frame stored. */
  ghost predicate Settled(cfg: Config, u: Ring, t: Ring) {
    && MidInv(cfg, t) && t.committed == u.committed && t.count > 0
    && (forall i :: 0 <= i < |t.gops| ==> t.gops[i].start < t.WriteIdx())
    && Announced(u.published, t.published, u.WriteIdx() - u.count)
    && (Guarded(u) ==> Guarded(t))
    && (|u.gops| > 0 <==> |t.gops| > 0)
    && (|u.gops| == 0 ==> t.count == u.count)
  }

  ghost predicate SameButKey(u: Ring, a: Ring) {
    && a.committed == u.committed && a.count == u.count && a.gops == u.gops && a.published == u.published
    && a.targetGops == u.targetGops && a.cacheStarted == u.cacheStarted
  }

  lemma NoteKeyOnly(pol: Policy, u: Ring, f: Frame)
    ensures SameButKey(u, NoteKey(pol, u, f))
  {
  }

  lemma SettledWhenPopped(cfg: Config, u: Ring, a: Ring, t: Ring)
    requires MidInv(cfg, u) && u.count > 0 && SameButKey(u, a)
    requires forall i :: 0 <= i < |u.gops| ==> u.gops[i].start < u.WriteIdx()
    requires MidInv(cfg, t) && Popped(a, t) && (Guarded(a) ==> Guarded(t)) && (|a.gops| > 0 ==> |t.gops| > 0)
    ensures Settled(cfg, u, t)
  {
    if |t.gops| > 0 {
      var last := |t.gops| - 1;
      assert t.gops[last].start < t.WriteIdx();
      assert forall i :: 0 <= i < last ==> t.gops[i].start < t.gops[last].start;
    }
  }

  lemma PopIfFullKeeps(cfg: Config, a: Ring)
    requires MidInv(cfg, a)
    ensures var b := PopIfFull(cfg, a);
            MidInv(cfg, b) && Popped(a, b) && (Guarded(a) ==> Guarded(b)) && (|a.gops| > 0 ==> |b.gops| > 0)
  {
    if |a.gops| > 1 { PopKeeps(cfg, a); }
  }

  lemma SettlePops(cfg: Config, pol: Policy, a: Ring, dts: nat)
    requires MidInv(cfg, a)
    ensures var t := TrimForTime(PopIfFull(cfg, a), dts);
            MidInv(cfg, t) && Popped(a, t) && (Guarded(a) ==> Guarded(t)) && (|a.gops| > 0 ==> |t.gops| > 0)
    ensures !Overdue(TrimForTime(PopIfFull(cfg, a), dts), dts)
  {
    var b := PopIfFull(cfg, a);
    PopIfFullKeeps(cfg, a);
    TrimKeeps(cfg, b, dts);
    PoppedTransitive(cfg, a, b, TrimForTime(b, dts));
  }

  lemma SettleKeeps(cfg: Config, pol: Policy, u: Ring, f: Frame)
    requires MidInv(cfg, u) && u.count > 0
    requires forall i :: 0 <= i < |u.gops| ==> u.gops[i].start < u.WriteIdx()
    ensures Settled(cfg, u, Settle(cfg, pol, u, f)) && !Overdue(Settle(cfg, pol, u, f), DtsMs(f))
  {
    var a := NoteKey(pol, u, f);
    NoteKeyOnly(pol, u, f);
    SettlePops(cfg, pol, a, DtsMs(f));
    SettledWhenPopped(cfg, u, a, Settle(cfg, pol, u, f));
  }

  lemma StoreKeeps(cfg: Config, s: Ring, f: Frame)
    requires MidInv(cfg, s) && (s.count < cfg.cap || |s.gops| == 0)
    ensures var u := StoreFrame(cfg, s, f);
            MidInv(cfg, u) && u.count > 0 && (s.count < cfg.cap && Guarded(s) ==> Guarded(u))
    ensures var u := StoreFrame(cfg, s, f);
            (forall i :: 0 <= i < |u.gops| ==> u.gops[i].start < u.WriteIdx()) && u.gops == s.gops
  {
  }

  /** Storing a frame keeps the ring invariant, appends exactly that frame, trims what time allows to
      trim, and never leaves the stuck state. */
  lemma StoringKeeps(cfg: Config, pol: Policy, s: Ring, f: Frame)
    requires RingInv(cfg, s)
    ensures var t := Store(cfg, pol, s, f);
            RingInv(cfg, t) && t.committed == s.committed + [Stored(f)] && (Stuck(cfg, s) ==> Stuck(cfg, t))
    ensures var t := Store(cfg, pol, s, f);
            t.cacheMs == 0 || |t.gops| <= 1 || DtsMs(f) < t.gops[0].dts || DtsMs(f) - t.gops[0].dts <= t.cacheMs
  {
    PrepareKeeps(cfg, pol, s, f);
    var t := Prepare(cfg, pol, s, f);
    StoreKeeps(cfg, t, f);
    SettleKeeps(cfg, pol, StoreFrame(cfg, t, f), f);
  }

  lemma CommitKeeps(cfg: Config, pol: Policy, s: Ring, f: Frame)
    requires RingInv(cfg, s)
    ensures RingInv(cfg, Commit(cfg, pol, s, f)) && s.WriteIdx() <= Commit(cfg, pol, s, f).WriteIdx()
  {
    SeeKeeps(cfg, s, f);
    hide Store, MidInv, Guarded, Stuck, SeeFrame;
    StoringKeeps(cfg, pol, SeeFrame(s, f), f);
  }

  lemma SeeKeeps(cfg: Config, s: Ring, f: Frame)
    requires RingInv(cfg, s)
    ensures RingInv(cfg, SeeFrame(s, f)) && SeeFrame(s, f).WriteIdx() == s.WriteIdx() && SeeFrame(s, f).committed == s.committed
  {
  }

  lemma ApplyKeeps(cfg: Config, pol: Policy, s: Ring, op: Op)
    requires RingInv(cfg, s)
    ensures RingInv(cfg, Apply(cfg, pol, s, op))
    ensures !op.OpClear? ==> s.WriteIdx() <= Apply(cfg, pol, s, op).WriteIdx()
  {
    if op.OpCommit? { CommitKeeps(cfg, pol, s, op.f); }
  }

  /** Every run of commits, clears and settings keeps the ring invariant. */
  lemma {:induction false} RunKeeps(cfg: Config, pol: Policy, s: Ring, ops: seq<Op>)
    requires RingInv(cfg, s)
    ensures RingInv(cfg, Run(cfg, pol, s, ops))
    decreases |ops|
  {
    if ops != [] {
      ApplyKeeps(cfg, pol, s, ops[0]);
      RunKeeps(cfg, pol, Apply(cfg, pol, s, ops[0]), ops[1..]);
    }
  }

  ghost predicate Reachable(cfg: Config, pol: Policy, s: Ring) {
    exists target: nat, cacheMs: nat, ops :: s == Run(cfg, pol, Fresh(cfg, target, cacheMs), ops)
  }

  lemma ReachableKeeps(cfg: Config, pol: Policy, s: Ring)
    requires cfg.Valid() && Reachable(cfg, pol, s)
    ensures RingInv(cfg, s)
  {
    var target: nat, cacheMs: nat, ops :| s == Run(cfg, pol, Fresh(cfg, target, cacheMs), ops);
    RunKeeps(cfg, pol, Fresh(cfg, target, cacheMs), ops);
  }
}
