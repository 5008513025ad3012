/** Which frames a reader is given over a run, in which order, and what they say. */
module SeqlockDeliveries {
  import opened GopCommit
  import opened GopRing
  import opened Wrappers
  import opened Seqlock
  import opened SeqlockSafety
  import opened SeqlockReader
  import opened SeqlockWriter
  import opened SeqlockRuns
  import opened SeqlockBytes
  import opened SeqlockCursor

  // ---- the order

  predicate Seeks(step: Step, r: nat) {
    step.RSeek? && step.r == r
  }

  /** Reader `r` is not moved, and whenever it reads under the mutex the oldest frame is not past its cursor. */
  ghost predicate KeepsUp(env: Env, s: World, steps: seq<Step>, r: nat)
    requires IsRun(env, s, steps)
    decreases |steps|
  {
    r < |s.readers| && (
      steps == [] || (
        && !Seeks(steps[0], r)
        && (steps[0].RLocked? && steps[0].r == r ==> Oldest(s.ring, s.readers[r].fromBeginning) <= s.readers[r].readIdx)
        && KeepsUp(env, Do(env, s, steps[0]), steps[1..], r)))
  }

  /** From `a` to `b` the reader has been given the frames from its cursor on, one after the other. */
  ghost predicate Consecutive(a: Reader, b: Reader) {
    && |a.delivered| <= |b.delivered| && b.delivered[..|a.delivered|] == a.delivered
    && b.readIdx - a.readIdx == |b.delivered| - |a.delivered| == b.taken - a.taken
    && forall n :: |a.delivered| <= n < |b.delivered| ==> b.delivered[n].idx == a.readIdx + n - |a.delivered|
  }

  /** Of what it has been given it keeps all that it has not dropped. */
  ghost predicate Keeping(a: Reader, b: Reader) {
    forall j :: j in b.kept ==>
      if j < a.taken then j in a.kept && b.kept[j] == a.kept[j]
      else 0 <= |a.delivered| + j - a.taken < |b.delivered| && b.kept[j] == b.delivered[|a.delivered| + j - a.taken]
  }

  lemma ConsecutiveOn(a: Reader, b: Reader, c: Reader)
    requires Consecutive(a, b) && Consecutive(b, c)
    ensures Consecutive(a, c)
  {
    forall n | 0 <= n < |b.delivered| ensures c.delivered[n] == b.delivered[n] {
      assert c.delivered[..|b.delivered|][n] == b.delivered[n];
    }
  }

  lemma KeepingOn(a: Reader, b: Reader, c: Reader)
    requires Consecutive(a, b) && Consecutive(b, c) && Keeping(a, b) && Keeping(b, c)
    ensures Keeping(a, c)
  {
    forall n | 0 <= n < |b.delivered| ensures c.delivered[n] == b.delivered[n] {
      assert c.delivered[..|b.delivered|][n] == b.delivered[n];
    }
  }

  lemma StandsOrGets(a: Reader, b: Reader)
    requires Stands(a, b) || exists e :: Gets(a, b, e) && e.idx == a.readIdx
    requires forall j :: j in a.kept ==> j < a.taken
    ensures Consecutive(a, b) && Keeping(a, b)
  {
  }

  lemma StepIsNext(env: Env, s: World, step: Step, r: nat)
    requires Dims(env, s) && Inv(env, s) && Enabled(env, s, step) && r < |s.readers| && !Seeks(step, r)
    requires step.RLocked? && step.r == r ==> Oldest(s.ring, s.readers[r].fromBeginning) <= s.readers[r].readIdx
    ensures Consecutive(s.readers[r], Do(env, s, step).readers[r]) && Keeping(s.readers[r], Do(env, s, step).readers[r])
  {
    assert forall j :: j in s.readers[r].kept ==> j < s.readers[r].taken by { assert ReaderOk(env, s, r); }
    hide Inv, Enabled, Do, Stands, Gets, Consecutive, Keeping;
    CursorMoves(env, s, step, r);
    StandsOrGets(s.readers[r], Do(env, s, step).readers[r]);
  }

  /** A reader that keeps up is given every frame from its cursor on, without a gap and without a repetition, and
      its cursor is one behind the last. */
  lemma {:induction false} NoGaps(env: Env, s: World, steps: seq<Step>, r: nat)
    requires Inv(env, s) && IsRun(env, s, steps) && AllCareful(env, s, steps) && KeepsUp(env, s, steps, r)
    ensures r < |End(env, s, steps).readers| && Consecutive(s.readers[r], End(env, s, steps).readers[r])
    ensures Keeping(s.readers[r], End(env, s, steps).readers[r])
    decreases |steps|
  {
    if steps != [] {
      var t := Do(env, s, steps[0]);
      assert Dims(env, s);
      hide Inv, Do, Consecutive, Keeping, Enabled;
      StepIsNext(env, s, steps[0], r);
      StepKeeps(env, s, steps[0]);
      NoGaps(env, t, steps[1..], r);
      var u := End(env, t, steps[1..]).readers[r];
      ConsecutiveOn(s.readers[r], t.readers[r], u);
      KeepingOn(s.readers[r], t.readers[r], u);
    } else {
      assert Keeping(s.readers[r], s.readers[r]) by { assert ReaderOk(env, s, r); }
    }
  }

  lemma InvParts(env: Env, s: World)
    requires Inv(env, s)
    ensures Dims(env, s) && Sized(env, s) && HandOk(env, s)
  {
  }

  // ---- the exceptions

  ghost predicate NeverSeeks(steps: seq<Step>, r: nat) {
    forall n :: 0 <= n < |steps| ==> !Seeks(steps[n], r)
  }

  lemma NeverSeeksSplit(steps: seq<Step>, r: nat)
    requires steps != [] && NeverSeeks(steps, r)
    ensures !Seeks(steps[0], r) && NeverSeeks(steps[1..], r)
  {
  }

  /** The state after the first `n` steps. */
  ghost function At(env: Env, s: World, steps: seq<Step>, n: nat): World
    requires IsRun(env, s, steps) && n <= |steps|
    decreases n
  {
    if n == 0 then s else At(env, Do(env, s, steps[0]), steps[1..], n - 1)
  }

  /** Deliveries are only appended, and the cursor is one behind the last one. */
  ghost predicate Extends(a: Reader, b: Reader) {
    && |a.delivered| <= |b.delivered| && b.delivered[..|a.delivered|] == a.delivered
    && b.readIdx == if |b.delivered| == |a.delivered| then a.readIdx else b.delivered[|b.delivered| - 1].idx + 1
  }

  lemma ExtendsSame(a: Reader)
    ensures Extends(a, a)
  {
  }

  lemma ExtendsOn(a: Reader, b: Reader, c: Reader)
    requires Extends(a, b) && Extends(b, c)
    ensures Extends(a, c)
  {
    forall n | 0 <= n < |b.delivered| ensures c.delivered[n] == b.delivered[n] {
      assert c.delivered[..|b.delivered|][n] == b.delivered[n];
    }
  }

  /** In state `u`, `step` gives reader `r` a frame with index `i`: the one at its cursor, or under the mutex, and
      only if the cursor is behind the oldest frame, the one a catch-up goes to. */
  ghost predicate Rightly(env: Env, u: World, step: Step, r: nat, i: nat)
    requires r < |u.readers|
  {
    var a := u.readers[r];
    || i == a.readIdx
    || (step.RLocked? && step.r == r && a.readIdx < Oldest(u.ring, a.fromBeginning)
        && CatchUp(env, u.ring, a.fromBeginning, step.mux, i))
  }

  /** A step that does not move the reader gives it at most one frame, and rightly. */
  ghost predicate OneMore(env: Env, s: World, step: Step, t: World, r: nat)
    requires r < |s.readers| == |t.readers|
  {
    var a, b := s.readers[r], t.readers[r];
    && Extends(a, b) && |b.delivered| <= |a.delivered| + 1
    && (|b.delivered| > |a.delivered| ==> Rightly(env, s, step, r, b.delivered[|a.delivered|].idx))
  }

  lemma StepGivesOne(env: Env, s: World, step: Step, r: nat)
    requires Dims(env, s) && Inv(env, s) && Enabled(env, s, step) && r < |s.readers| && !Seeks(step, r)
    ensures OneMore(env, s, step, Do(env, s, step), r)
  {
    hide Inv, Enabled, Do, CatchUp;
    CursorMoves(env, s, step, r);
  }

  lemma {:induction false} RunExtends(env: Env, s: World, steps: seq<Step>, r: nat)
    requires Inv(env, s) && IsRun(env, s, steps) && AllCareful(env, s, steps) && r < |s.readers| && NeverSeeks(steps, r)
    ensures r < |End(env, s, steps).readers| && Extends(s.readers[r], End(env, s, steps).readers[r])
    decreases |steps|
  {
    hide Inv, Sized, HandOk, Do, Extends, Enabled, Rightly, NeverSeeks;
    if steps == [] {
      ExtendsSame(s.readers[r]);
    } else {
      var t := Do(env, s, steps[0]);
      InvParts(env, s);
      NeverSeeksSplit(steps, r);
      StepGivesOne(env, s, steps[0], r);
      StepKeeps(env, s, steps[0]);
      RunExtends(env, t, steps[1..], r);
      ExtendsOn(s.readers[r], t.readers[r], End(env, t, steps[1..]).readers[r]);
    }
  }

  /** Step `n` of the run gives reader `r` its delivery `m`, and rightly; the cursor is then one behind the delivery
      before it, or where it was. */
  ghost predicate GivenAt(env: Env, s: World, steps: seq<Step>, r: nat, m: nat, e: Delivery, n: nat)
    requires IsRun(env, s, steps) && r < |s.readers|
  {
    n < |steps| && var u, v := At(env, s, steps, n), At(env, s, steps, n + 1);
    && r < |u.readers| == |v.readers| && m == |u.readers[r].delivered| && Extends(s.readers[r], u.readers[r])
    && v.readers[r].delivered == u.readers[r].delivered + [e] && Rightly(env, u, steps[n], r, e.idx)
  }

  lemma GivenFirst(env: Env, s: World, steps: seq<Step>, r: nat, m: nat)
    requires IsRun(env, s, steps) && steps != [] && r < |s.readers|
    requires var t := Do(env, s, steps[0]);
             && OneMore(env, s, steps[0], t, r) && |s.readers[r].delivered| == m < |t.readers[r].delivered|
             && r < |End(env, t, steps[1..]).readers| && Extends(t.readers[r], End(env, t, steps[1..]).readers[r])
    ensures GivenAt(env, s, steps, r, m, End(env, s, steps).readers[r].delivered[m], 0)
  {
    hide Do, Enabled, Rightly;
    var t := Do(env, s, steps[0]);
    var b, c := t.readers[r].delivered, End(env, t, steps[1..]).readers[r].delivered;
    assert c[..|b|][m] == c[m];
    assert At(env, s, steps, 0) == s && At(env, s, steps, 1) == t;
  }

  lemma GivenLater(env: Env, s: World, steps: seq<Step>, r: nat, m: nat, e: Delivery, n: nat)
    requires IsRun(env, s, steps) && steps != [] && r < |s.readers| && OneMore(env, s, steps[0], Do(env, s, steps[0]), r)
    requires GivenAt(env, Do(env, s, steps[0]), steps[1..], r, m, e, n)
    ensures GivenAt(env, s, steps, r, m, e, n + 1)
  {
    hide Do, Enabled, Rightly, Extends;
    var t := Do(env, s, steps[0]);
    var u := At(env, t, steps[1..], n);
    ExtendsOn(s.readers[r], t.readers[r], u.readers[r]);
    assert At(env, s, steps, n + 1) == u && At(env, s, steps, n + 2) == At(env, t, steps[1..], n + 1);
  }

  /** Over any run without a seek, every frame that a reader is given follows the one before it, except for those
      that a catch-up goes to. */
  lemma {:induction false} EveryDelivery(env: Env, s: World, steps: seq<Step>, r: nat, m: nat) returns (n: nat)
    requires Inv(env, s) && IsRun(env, s, steps) && AllCareful(env, s, steps) && r < |s.readers| && NeverSeeks(steps, r)
    requires r < |End(env, s, steps).readers| && |s.readers[r].delivered| <= m < |End(env, s, steps).readers[r].delivered|
    ensures GivenAt(env, s, steps, r, m, End(env, s, steps).readers[r].delivered[m], n)
    decreases |steps|
  {
    hide Inv, Sized, HandOk, Do, Enabled, Rightly, NeverSeeks, GivenAt;
    InvParts(env, s);
    NeverSeeksSplit(steps, r);
    var t := Do(env, s, steps[0]);
    StepGivesOne(env, s, steps[0], r);
    StepKeeps(env, s, steps[0]);
    if |t.readers[r].delivered| > m {
      n := 0;
      RunExtends(env, t, steps[1..], r);
      GivenFirst(env, s, steps, r, m);
    } else {
      n := EveryDelivery(env, t, steps[1..], r, m);
      GivenLater(env, s, steps, r, m, End(env, s, steps).readers[r].delivered[m], n);
      n := n + 1;
    }
  }

  // ---- the contents

  /** The frames whose commits the run begins. */
  function Begun(steps: seq<Step>): seq<Frame>
    decreases |steps|
  {
    if steps == [] then [] else (if steps[0].WBegin? then [steps[0].f] else []) + Begun(steps[1..])
  }

  /** The committed frames are the views of the frames begun, but for one whose commit is still under way. */
  ghost predicate BegunOk(s: World, fs: seq<Frame>) {
    && |fs| == |s.ring.committed| + (if s.writer.Idle? then 0 else 1)
    && (forall i :: 0 <= i < |s.ring.committed| ==> ViewOf(s.ring.committed[i], fs[i]))
    && (!s.writer.Idle? ==> fs[|fs| - 1] == s.writer.f)
  }

  /** Until the last step of a commit its frame is the same and the ring as well. */
  lemma WriterGoesOn(env: Env, s: World)
    requires Dims(env, s) && !s.writer.Idle? && (s.writer.Settling? ==> s.writer.k < |Oldests(env, s, s.writer.f)|)
    ensures var t := WriterStep(env, s); t.ring == s.ring && !t.writer.Idle? && t.writer.f == s.writer.f
  {
    hide Store, Prepare, Words, Exchange, Oldests, Early, StoreOldest;
    forall k { OldestOnly(env, s, s.writer.f, k); }
  }

  lemma OldestOnly(env: Env, s: World, f: Frame, k: nat)
    ensures StoreOldest(env, s, f, k) == s.(oldestSeq := StoreOldest(env, s, f, k).oldestSeq)
  {
    hide Oldests;
  }

  lemma WriterBegun(env: Env, s: World, fs: seq<Frame>)
    requires Dims(env, s) && Sized(env, s) && !s.writer.Idle? && BegunOk(s, fs)
    ensures BegunOk(WriterStep(env, s), fs)
  {
    hide RingInv, Sized, Oldests, ViewOf, Stored;
    if s.writer.Settling? && s.writer.k >= |Oldests(env, s, s.writer.f)| {
      hide Store;
      StoredRing(env, s, s.writer.f);
      StoredIsView(s.writer.f);
    } else {
      hide WriterStep;
      WriterGoesOn(env, s);
    }
  }

  lemma StepBegun(env: Env, s: World, step: Step, fs: seq<Frame>)
    requires Dims(env, s) && Sized(env, s) && Enabled(env, s, step) && BegunOk(s, fs)
    ensures BegunOk(Do(env, s, step), fs + if step.WBegin? then [step.f] else [])
  {
    hide RingInv, WriterStep, ReaderStep, LoadWord, LockedTake, ViewOf;
    assert fs + [] == fs;
    if step.WStep? { WriterBegun(env, s, fs); }
  }

  lemma BegunSplits(steps: seq<Step>, fs: seq<Frame>)
    ensures fs + Begun(steps) == if steps == [] then fs
                                 else fs + (if steps[0].WBegin? then [steps[0].f] else []) + Begun(steps[1..])
  {
  }

  lemma {:induction false} RunBegun(env: Env, s: World, steps: seq<Step>, fs: seq<Frame>)
    requires Inv(env, s) && IsRun(env, s, steps) && AllCareful(env, s, steps) && BegunOk(s, fs)
    ensures BegunOk(End(env, s, steps), fs + Begun(steps))
    decreases |steps|
  {
    hide Inv, Sized, HandOk, Do, Enabled, BegunOk, Begun;
    InvParts(env, s);
    BegunSplits(steps, fs);
    if steps != [] {
      var more := if steps[0].WBegin? then [steps[0].f] else [];
      StepBegun(env, s, steps[0], fs);
      StepKeeps(env, s, steps[0]);
      RunBegun(env, Do(env, s, steps[0]), steps[1..], fs + more);
    }
  }

  /** The nine words say what frame `f` is: each of its fields in its place, the low 32 bits of its times, the
      buffer and the length. */
  predicate Say(words: seq<Word>, b: BufId, f: Frame) {
    && |words| == 9
    && words[0] == Num(f.codec) && words[1] == Flag(f.track == Video) && words[2] == Flag(f.keyframe)
    && words[3] == Flag(f.config) && words[4] == Flag(f.droppable) && words[5] == Num(f.dts % 0x1_0000_0000)
    && words[6] == Num(var pts := f.pts % 0x1_0000_0000; if pts == f.dts % 0x1_0000_0000 then 0 else pts)
    && words[7] == Num(b) && words[8] == Num(|f.data|)
  }

  lemma ViewSays(x: Slot, b: BufId, f: Frame)
    requires ViewOf(x, f)
    ensures Say(Words(Pub(x, b)), b, f)
  {
  }

  /** A careful run from an empty ring. */
  ghost predicate FromStart(env: Env, target: nat, cacheMs: nat, begins: seq<bool>, steps: seq<Step>) {
    var start := Start(env, target, cacheMs, begins);
    env.cfg.Valid() && |begins| == env.readers && IsRun(env, start, steps) && AllCareful(env, start, steps)
  }

  ghost function Final(env: Env, target: nat, cacheMs: nat, begins: seq<bool>, steps: seq<Step>): World
    requires FromStart(env, target, cacheMs, begins, steps)
  {
    End(env, Start(env, target, cacheMs, begins), steps)
  }

  /** Over every run the frames found in the ring are, one by one and field by field, those whose commits were
      begun; only one of them may be still on its way. */
  lemma CommittedAreBegun(env: Env, target: nat, cacheMs: nat, begins: seq<bool>, steps: seq<Step>)
    requires FromStart(env, target, cacheMs, begins, steps)
    ensures var s := Final(env, target, cacheMs, begins, steps);
            && |s.ring.committed| <= |Begun(steps)| <= |s.ring.committed| + 1
            && forall i :: 0 <= i < |s.ring.committed| ==> ViewOf(s.ring.committed[i], Begun(steps)[i])
  {
    var start := Start(env, target, cacheMs, begins);
    hide Inv, ViewOf, Begun;
    StartInv(env, target, cacheMs, begins);
    assert BegunOk(start, []);
    RunBegun(env, start, steps, []);
    assert [] + Begun(steps) == Begun(steps);
  }

  /** In a run whose commits never begin on a full ring without a GOP, whatever a reader is given at an index says
      what the frame begun there was. */
  lemma DeliveriesSay(env: Env, target: nat, cacheMs: nat, begins: seq<bool>, steps: seq<Step>, r: nat, n: nat)
    requires FromStart(env, target, cacheMs, begins, steps)
    requires var s := Final(env, target, cacheMs, begins, steps);
             s.clean && r < |s.readers| && n < |s.readers[r].delivered|
    ensures var e := Final(env, target, cacheMs, begins, steps).readers[r].delivered[n];
            e.idx < |Begun(steps)| && Say(e.words, e.b, Begun(steps)[e.idx])
  {
    var s := Final(env, target, cacheMs, begins, steps);
    hide Begun, Exact, ViewOf, Say, Words;
    assert Leads(env, target, cacheMs, begins, steps, s);
    DeliveriesAreExact(env, s, r);
    CommittedAreBegun(env, target, cacheMs, begins, steps);
    var e := s.readers[r].delivered[n];
    ViewSays(s.ring.committed[e.idx], e.b, Begun(steps)[e.idx]);
  }

  /** Delivery `n` of the reader has index `n` and says what `f` is, and has its bytes as long as the reader keeps it. */
  ghost predicate Arrived(s: World, rd: Reader, n: nat, f: Frame)
    requires n < |rd.delivered|
  {
    var e := rd.delivered[n];
    e.idx == n && Say(e.words, e.b, f) && (n in rd.kept ==> rd.kept[n] == e && Content(s, e.b) == f.data)
  }

  lemma KeptArrives(env: Env, target: nat, cacheMs: nat, begins: seq<bool>, steps: seq<Step>, r: nat, n: nat)
    requires FromStart(env, target, cacheMs, begins, steps) && Final(env, target, cacheMs, begins, steps).clean
    requires AllFair(env, Start(env, target, cacheMs, begins), steps)
    requires var s := Final(env, target, cacheMs, begins, steps); r < |s.readers| && n in s.readers[r].kept && s.readers[r].kept[n].idx == n
    ensures var s := Final(env, target, cacheMs, begins, steps);
            n < |Begun(steps)| && Content(s, s.readers[r].kept[n].b) == Begun(steps)[n].data
  {
    hide Begun, ViewOf, Words;
    KeptBytes(env, target, cacheMs, begins, steps);
    CommittedAreBegun(env, target, cacheMs, begins, steps);
    SameData(Final(env, target, cacheMs, begins, steps).ring.committed, Begun(steps), n);
  }

  lemma SameData(xs: seq<Slot>, fs: seq<Frame>, n: nat)
    requires n < |xs| ==> n < |fs| && ViewOf(xs[n], fs[n])
    ensures n < |xs| ==> xs[n].data == fs[n].data
  {
  }

  lemma FromNothing(a: Reader, b: Reader)
    requires a.readIdx == a.taken == 0 && a.delivered == [] && a.kept == map[] && Consecutive(a, b) && Keeping(a, b)
    ensures b.readIdx == |b.delivered| && forall n :: 0 <= n < |b.delivered| ==> b.delivered[n].idx == n
    ensures forall n :: n in b.kept ==> n < |b.delivered| && b.kept[n] == b.delivered[n]
  {
  }

  /** A reader that keeps up from the beginning on is given the very frames that are committed, all of them, in
      order and each once; each says what the frame was, and has its bytes for as long as the reader keeps it. */
  lemma StreamArrives(env: Env, target: nat, cacheMs: nat, begins: seq<bool>, steps: seq<Step>, r: nat)
    requires FromStart(env, target, cacheMs, begins, steps) && Final(env, target, cacheMs, begins, steps).clean
    requires var start := Start(env, target, cacheMs, begins);
             AllFair(env, start, steps) && r < |begins| && KeepsUp(env, start, steps, r)
    ensures var s := Final(env, target, cacheMs, begins, steps);
            r < |s.readers| && var rd := s.readers[r];
            && rd.readIdx == |rd.delivered| <= |Begun(steps)|
            && forall n :: 0 <= n < |rd.delivered| ==> Arrived(s, rd, n, Begun(steps)[n])
  {
    var start := Start(env, target, cacheMs, begins);
    hide Inv, Begun, Say, Consecutive, Keeping;
    StartInv(env, target, cacheMs, begins);
    NoGaps(env, start, steps, r);
    var s := Final(env, target, cacheMs, begins, steps);
    var rd := s.readers[r];
    FromNothing(start.readers[r], rd);
    forall n | 0 <= n < |rd.delivered| ensures n < |Begun(steps)| && Arrived(s, rd, n, Begun(steps)[n]) {
      DeliveriesSay(env, target, cacheMs, begins, steps, r, n);
      if n in rd.kept { KeptArrives(env, target, cacheMs, begins, steps, r, n); }
    }
    if rd.delivered != [] { DeliveriesSay(env, target, cacheMs, begins, steps, r, |rd.delivered| - 1); }
  }
}
