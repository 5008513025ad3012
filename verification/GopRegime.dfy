/** The regime in which the ring always holds a playable GOP: `p` frames before the first GOP and no
    GOP longer than the capacity less `p` and one. */
module GopRegime {
  import opened GopRing

  ghost predicate LiveShort(cfg: Config, p: nat, s: Ring) {
    && MidInv(cfg, s) && |s.gops| > 0
    && s.count == p + s.WriteIdx() - s.gops[0].start
    && s.OldestSeq() == s.gops[0].start
    && s.WriteIdx() - s.gops[|s.gops| - 1].start + p < cfg.cap
  }

  ghost predicate Regime(cfg: Config, p: nat, s: Ring) {
    RingInv(cfg, s) && LiveShort(cfg, p, s)
  }

  /** `f` either starts a GOP or leaves the one it joins short enough. */
  predicate KeepsGopShort(cfg: Config, pol: Policy, p: nat, s: Ring, f: Frame) {
    Opens(pol, s, f) || (|s.gops| > 0 && s.WriteIdx() + 1 - s.gops[|s.gops| - 1].start <= cfg.cap - p - 1)
  }

  predicate StaysShort(cfg: Config, pol: Policy, p: nat, s: Ring, f: Frame) {
    Accepts(pol, s, f) ==> KeepsGopShort(cfg, pol, p, s, f)
  }

  predicate GopsStayShort(cfg: Config, pol: Policy, p: nat, s: Ring, ops: seq<Op>)
    decreases |ops|
  {
    ops == [] || (
      && !ops[0].OpClear?
      && (ops[0].OpCommit? ==> StaysShort(cfg, pol, p, SeeFrame(s, ops[0].f), ops[0].f))
      && GopsStayShort(cfg, pol, p, Apply(cfg, pol, s, ops[0]), ops[1..]))
  }

  lemma LiveWhenPopped(cfg: Config, p: nat, s: Ring, t: Ring)
    requires LiveShort(cfg, p, s) && MidInv(cfg, t) && Popped(s, t) && |t.gops| > 0
    requires t == s || t.OldestSeq() == t.OldestIdx()
    ensures LiveShort(cfg, p, t) && s.OldestSeq() <= t.OldestSeq()
  {
  }

  /** `t` is still in the regime `s` was in, and `oldest_seq` has not gone back. */
  ghost predicate Onward(cfg: Config, p: nat, s: Ring, t: Ring) {
    && LiveShort(cfg, p, t) && s.OldestSeq() <= t.OldestSeq() && t.committed == s.committed
    && |s.gops| > 0 && t.gops[|t.gops| - 1] == s.gops[|s.gops| - 1]
  }

  lemma PopOnward(cfg: Config, p: nat, s: Ring)
    requires LiveShort(cfg, p, s) && |s.gops| > 1
    ensures Onward(cfg, p, s, PopFront(s))
  {
    PopKeeps(cfg, s);
    LiveWhenPopped(cfg, p, s, PopFront(s));
  }

  lemma {:induction false} IndexFullOnward(cfg: Config, p: nat, s: Ring)
    requires LiveShort(cfg, p, s)
    ensures Onward(cfg, p, s, PopWhileIndexFull(cfg, s))
    decreases |s.gops|
  {
    if IndexFull(cfg, s) {
      PopOnward(cfg, p, s);
      IndexFullOnward(cfg, p, PopFront(s));
    }
  }

  lemma {:induction false} FullOnward(cfg: Config, p: nat, s: Ring)
    requires LiveShort(cfg, p, s)
    ensures Onward(cfg, p, s, PopWhileFull(cfg, s)) && PopWhileFull(cfg, s).count < cfg.cap
    decreases |s.gops|
  {
    if s.count >= cfg.cap {
      PopOnward(cfg, p, s);
      FullOnward(cfg, p, PopFront(s));
    }
  }

  lemma {:induction false} TrimOnward(cfg: Config, p: nat, s: Ring, now: nat)
    requires LiveShort(cfg, p, s)
    ensures Onward(cfg, p, s, TrimForTime(s, now))
    decreases |s.gops|
  {
    if Overdue(s, now) {
      PopOnward(cfg, p, s);
      TrimOnward(cfg, p, PopFront(s), now);
    }
  }

  lemma AppendOnward(cfg: Config, p: nat, s: Ring, t: Ring, here: Gop)
    requires LiveShort(cfg, p, s) && MidInv(cfg, t) && |s.gops| + 1 == |t.gops| && p < cfg.cap
    requires t == s.(gops := s.gops + [here]) && here.start == s.WriteIdx()
    ensures LiveShort(cfg, p, t) && t.OldestSeq() == s.OldestSeq()
  {
    assert t.gops[0] == s.gops[0];
  }

  lemma OpenStaysLive(cfg: Config, p: nat, s: Ring, dts: nat)
    requires Regime(cfg, p, s) && p < cfg.cap
    ensures var t := OnNewGop(cfg, s, dts); LiveShort(cfg, p, t) && s.OldestSeq() <= t.OldestSeq()
    ensures var t := OnNewGop(cfg, s, dts); t.committed == s.committed && t.gops[|t.gops| - 1].start == s.WriteIdx()
  {
    var a := PopWhileIndexFull(cfg, s);
    IndexFullOnward(cfg, p, s);
    var b := TrimForTime(a, dts);
    TrimOnward(cfg, p, a, dts);
    NextGopKeeps(cfg, s, dts);
    AppendOnward(cfg, p, b, OnNewGop(cfg, s, dts), Gop(s.WriteIdx(), dts));
  }

  lemma PrepareStaysLive(cfg: Config, pol: Policy, p: nat, s: Ring, f: Frame)
    requires Regime(cfg, p, s) && p < cfg.cap
    ensures var t := Prepare(cfg, pol, s, f);
            LiveShort(cfg, p, t) && t.count < cfg.cap && s.OldestSeq() <= t.OldestSeq() && t.committed == s.committed
            && t.gops[|t.gops| - 1].start == if Opens(pol, s, f) then s.WriteIdx() else s.gops[|s.gops| - 1].start
  {
    if Opens(pol, s, f) {
      OpenStaysLive(cfg, p, s, DtsMs(f));
      FullOnward(cfg, p, OnNewGop(cfg, s, DtsMs(f)));
    } else {
      FullOnward(cfg, p, s);
    }
  }

  lemma StoreStaysLive(cfg: Config, pol: Policy, p: nat, s: Ring, f: Frame)
    requires LiveShort(cfg, p, s) && s.count < cfg.cap
    requires s.WriteIdx() + 1 - s.gops[|s.gops| - 1].start <= cfg.cap - p - 1
    ensures var u := NoteKey(pol, StoreFrame(cfg, s, f), f); LiveShort(cfg, p, u) && u.OldestSeq() == s.OldestSeq()
  {
    StoreKeeps(cfg, s, f);
    NoteKeyOnly(pol, StoreFrame(cfg, s, f), f);
  }

  lemma SettleStaysLive(cfg: Config, p: nat, a: Ring, now: nat)
    requires LiveShort(cfg, p, a)
    ensures Onward(cfg, p, a, TrimForTime(PopIfFull(cfg, a), now))
  {
    var b := PopIfFull(cfg, a);
    if |a.gops| > 1 { PopOnward(cfg, p, a); }
    assert Onward(cfg, p, a, b);
    TrimOnward(cfg, p, b, now);
  }

  /** One commit inside the regime keeps a GOP live, keeps `oldest_seq` at the start of the oldest GOP
      and never moves it back. */
  lemma StoringStaysLive(cfg: Config, pol: Policy, p: nat, s: Ring, f: Frame)
    requires Regime(cfg, p, s) && p + 1 < cfg.cap && KeepsGopShort(cfg, pol, p, s, f)
    ensures var t := Store(cfg, pol, s, f); Regime(cfg, p, t) && s.OldestSeq() <= t.OldestSeq()
  {
    PrepareStaysLive(cfg, pol, p, s, f);
    var t := Prepare(cfg, pol, s, f);
    StoreStaysLive(cfg, pol, p, t, f);
    SettleStaysLive(cfg, p, NoteKey(pol, StoreFrame(cfg, t, f), f), DtsMs(f));
    StoringKeeps(cfg, pol, s, f);
  }

  lemma SeeStaysLive(cfg: Config, p: nat, s: Ring, f: Frame)
    requires Regime(cfg, p, s)
    ensures Regime(cfg, p, SeeFrame(s, f)) && SeeFrame(s, f).OldestSeq() == s.OldestSeq()
  {
  }

  lemma ApplyStaysLive(cfg: Config, pol: Policy, p: nat, s: Ring, op: Op)
    requires Regime(cfg, p, s) && p + 1 < cfg.cap && !op.OpClear?
    requires op.OpCommit? ==> StaysShort(cfg, pol, p, SeeFrame(s, op.f), op.f)
    ensures var t := Apply(cfg, pol, s, op); Regime(cfg, p, t) && s.OldestSeq() <= t.OldestSeq()
  {
    if op.OpCommit? {
      SeeStaysLive(cfg, p, s, op.f);
      hide Store, Regime, SeeFrame;
      if Accepts(pol, SeeFrame(s, op.f), op.f) { StoringStaysLive(cfg, pol, p, SeeFrame(s, op.f), op.f); }
    }
  }

  lemma {:induction false} RunStaysLive(cfg: Config, pol: Policy, p: nat, s: Ring, ops: seq<Op>)
    requires Regime(cfg, p, s) && p + 1 < cfg.cap && GopsStayShort(cfg, pol, p, s, ops)
    ensures var t := Run(cfg, pol, s, ops); Regime(cfg, p, t) && s.OldestSeq() <= t.OldestSeq()
    decreases |ops|
  {
    if ops != [] {
      ApplyStaysLive(cfg, pol, p, s, ops[0]);
      RunStaysLive(cfg, pol, p, Apply(cfg, pol, s, ops[0]), ops[1..]);
    }
  }

  /** No GOP so far, and everything committed is still counted. */
  ghost predicate Waiting(cfg: Config, s: Ring) {
    RingInv(cfg, s) && |s.gops| == 0 && s.count == s.WriteIdx()
  }

  /** The first GOP enters the regime, whatever number `p` of frames came before it. */
  lemma FirstGopEnters(cfg: Config, pol: Policy, s: Ring, f: Frame)
    requires Waiting(cfg, s) && s.WriteIdx() + 1 < cfg.cap && Opens(pol, s, f)
    ensures Regime(cfg, s.WriteIdx(), Store(cfg, pol, s, f))
  {
    FirstGopKeeps(cfg, s, DtsMs(f));
    StoringKeeps(cfg, pol, s, f);
    var u := StoreFrame(cfg, Prepare(cfg, pol, s, f), f);
    assert u.gops == [Gop(s.WriteIdx(), DtsMs(f))] && u.count == s.WriteIdx() + 1;
    NoteKeyOnly(pol, u, f);
  }

  predicate NoGopYet(cfg: Config, pol: Policy, s: Ring, ops: seq<Op>)
    decreases |ops|
  {
    && |s.gops| == 0
    && (ops == [] || (!ops[0].OpClear? && NoGopYet(cfg, pol, Apply(cfg, pol, s, ops[0]), ops[1..])))
  }

  lemma QuietApply(cfg: Config, pol: Policy, s: Ring, op: Op)
    requires Waiting(cfg, s) && !op.OpClear?
    requires |Apply(cfg, pol, s, op).gops| == 0 && |Apply(cfg, pol, s, op).committed| < cfg.cap
    ensures Waiting(cfg, Apply(cfg, pol, s, op))
  {
    hide Store;
    if op.OpCommit? && Accepts(pol, SeeFrame(s, op.f), op.f) {
      QuietCommit(cfg, pol, SeeFrame(s, op.f), op.f);
    }
  }

  lemma {:induction false} WaitingRun(cfg: Config, pol: Policy, s: Ring, ops: seq<Op>)
    requires Waiting(cfg, s) && NoGopYet(cfg, pol, s, ops) && |Run(cfg, pol, s, ops).committed| < cfg.cap
    ensures Waiting(cfg, Run(cfg, pol, s, ops))
    decreases |ops|
  {
    if ops != [] {
      var t := Apply(cfg, pol, s, ops[0]);
      ApplyKeeps(cfg, pol, s, ops[0]);
      RunGrows(cfg, pol, t, ops[1..]);
      QuietApply(cfg, pol, s, ops[0]);
      WaitingRun(cfg, pol, t, ops[1..]);
    }
  }

  lemma QuietCommit(cfg: Config, pol: Policy, s: Ring, f: Frame)
    requires Waiting(cfg, s) && |Store(cfg, pol, s, f).gops| == 0 && |Store(cfg, pol, s, f).committed| < cfg.cap
    ensures Waiting(cfg, Store(cfg, pol, s, f))
  {
    StoringKeeps(cfg, pol, s, f);
    if Opens(pol, s, f) { FirstGopKeeps(cfg, s, DtsMs(f)); }
    PrepareKeeps(cfg, pol, s, f);
    var t := Prepare(cfg, pol, s, f);
    StoreKeeps(cfg, t, f);
    SettleKeeps(cfg, pol, StoreFrame(cfg, t, f), f);
  }

  lemma {:induction false} RunGrows(cfg: Config, pol: Policy, s: Ring, ops: seq<Op>)
    requires RingInv(cfg, s) && NoGopYet(cfg, pol, s, ops)
    ensures |s.committed| <= |Run(cfg, pol, s, ops).committed|
    decreases |ops|
  {
    if ops != [] {
      ApplyKeeps(cfg, pol, s, ops[0]);
      RunGrows(cfg, pol, Apply(cfg, pol, s, ops[0]), ops[1..]);
    }
  }

  /** The whole story from an empty ring: `pre` without a GOP, the frame `f` that opens the first one,
      then any `post` whose GOPs stay short. */
  lemma FromTheFirstGopOn(cfg: Config, pol: Policy, target: nat, cacheMs: nat, pre: seq<Op>, f: Frame, post: seq<Op>)
    requires cfg.Valid() && NoGopYet(cfg, pol, Fresh(cfg, target, cacheMs), pre)
    requires var s := SeeFrame(Run(cfg, pol, Fresh(cfg, target, cacheMs), pre), f);
             && |s.committed| + 1 < cfg.cap && Accepts(pol, s, f) && Opens(pol, s, f)
             && GopsStayShort(cfg, pol, |s.committed|, Store(cfg, pol, s, f), post)
    ensures var s := Run(cfg, pol, Fresh(cfg, target, cacheMs), pre);
            var t := Commit(cfg, pol, s, f);
            var u := Run(cfg, pol, t, post);
            |u.gops| > 0 && u.OldestSeq() == u.gops[0].start && t.OldestSeq() <= u.OldestSeq()
  {
    WaitingRun(cfg, pol, Fresh(cfg, target, cacheMs), pre);
    var s := SeeFrame(Run(cfg, pol, Fresh(cfg, target, cacheMs), pre), f);
    FirstGopEnters(cfg, pol, s, f);
    hide Store, Run, MidInv;
    RunStaysLive(cfg, pol, |s.committed|, Store(cfg, pol, s, f), post);
  }

  // ---- outside the regime

  predicate Marker(f: Frame) {
    f.track == Video && (f.keyframe || f.config)
  }

  /** The policy for codecs that bring no probes of their own. */
  function DefaultPolicy(): Policy {
    Policy((f: Frame, started: bool, video: bool) => if f.track == Audio && !video then true else started || (!f.droppable && Marker(f)),
           (f: Frame, keyPos: bool, video: bool) => if f.track == Audio then !video else !f.config && Marker(f),
           (f: Frame) => Marker(f))
  }

  /** A video frame that is neither a key frame nor a configuration. */
  predicate PlainVideo(f: Frame) {
    |f.data| > 0 && f.track == Video && !f.keyframe && !f.config
  }

  /** After a configuration was set and `n` such frames were committed. */
  function ConfiguredRun(f: Frame, n: nat): seq<Op> {
    [OpVideoConfig] + seq(n, _ => OpCommit(f))
  }

  ghost predicate Plain(cfg: Config, s: Ring, n: nat) {
    && s.WriteIdx() == n && |s.gops| == 0 && s.OldestSeq() == 0 && s.cacheStarted && s.hasVideo
    && s.count == if n < cfg.cap then n else cfg.cap
  }

  lemma PlainCommit(cfg: Config, s: Ring, f: Frame, n: nat)
    requires cfg.Valid() && PlainVideo(f) && Plain(cfg, s, n)
    ensures Plain(cfg, Commit(cfg, DefaultPolicy(), s, f), n + 1)
  {
    var t := SeeFrame(s, f);
    assert Prepare(cfg, DefaultPolicy(), t, f) == t;
    var u := StoreFrame(cfg, t, f);
    assert Settle(cfg, DefaultPolicy(), u, f) == NoteKey(DefaultPolicy(), u, f);
  }

  lemma {:induction false} PlainCommits(cfg: Config, target: nat, cacheMs: nat, f: Frame, n: nat)
    requires cfg.Valid() && PlainVideo(f)
    ensures Plain(cfg, Run(cfg, DefaultPolicy(), Fresh(cfg, target, cacheMs), ConfiguredRun(f, n)), n)
    decreases n
  {
    hide Commit, DefaultPolicy;
    var pol, s := DefaultPolicy(), Fresh(cfg, target, cacheMs);
    if n == 0 {
      assert ConfiguredRun(f, 0)[1..] == [];
      assert Run(cfg, pol, s, ConfiguredRun(f, 0)) == Apply(cfg, pol, s, OpVideoConfig);
    } else {
      var k := n - 1;
      PlainCommits(cfg, target, cacheMs, f, k);
      assert ConfiguredRun(f, n) == ConfiguredRun(f, k) + [OpCommit(f)];
      RunAppends(cfg, pol, s, ConfiguredRun(f, k), OpCommit(f));
      PlainCommit(cfg, Run(cfg, pol, s, ConfiguredRun(f, k)), f, k);
    }
  }

  lemma {:induction false} RunAppends(cfg: Config, pol: Policy, s: Ring, ops: seq<Op>, op: Op)
    ensures Run(cfg, pol, s, ops + [op]) == Apply(cfg, pol, Run(cfg, pol, s, ops), op)
    decreases |ops|
  {
    if ops == [] {
      assert ops + [op] == [op];
    } else {
      assert (ops + [op])[1..] == ops[1..] + [op];
      RunAppends(cfg, pol, Apply(cfg, pol, s, ops[0]), ops[1..], op);
    }
  }

  /** Without a GOP, one frame more than the ring holds is enough: a configuration, then frames that are
      not key frames.  Frame 0 is gone and lock-free readers are still told that it is there. */
  lemma OverwriteCanBeSilent(cfg: Config, target: nat, cacheMs: nat, f: Frame)
    requires cfg.Valid() && PlainVideo(f)
    ensures var s := Run(cfg, DefaultPolicy(), Fresh(cfg, target, cacheMs), ConfiguredRun(f, cfg.cap + 1));
            Stuck(cfg, s) && s.OldestSeq() == 0 && s.WriteIdx() - cfg.cap == 1
  {
    PlainCommits(cfg, target, cacheMs, f, cfg.cap + 1);
  }
}
