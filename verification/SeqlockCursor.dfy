/** Where the cursor of a reader stands after every step: it moves only to be one behind a frame that the reader
    has just been given, and that frame is the one at the cursor or the one a catch-up goes to. */
module SeqlockCursor {
  import opened GopRing
  import opened Wrappers
  import opened Seqlock
  import opened SeqlockSafety
  import opened SeqlockReader
  import opened SeqlockRuns

  /** The oldest frame that a reader is given under the mutex. */
  function Oldest(ring: Ring, fromBeginning: bool): int {
    if !fromBeginning && |ring.gops| > 0 then ring.gops[0].start else |ring.committed| - ring.count
  }

  /** Where the search for a synchronisation frame begins: at the newest GOP. */
  function Newest(ring: Ring, fromBeginning: bool): int {
    if |ring.gops| == 0 || ring.gops[|ring.gops| - 1].start < Oldest(ring, fromBeginning) then Oldest(ring, fromBeginning)
    else ring.gops[|ring.gops| - 1].start
  }

  /** `i` is the first synchronisation frame from `from` on, or `from` itself if there is none. */
  ghost predicate FirstSyncAt(env: Env, ring: Ring, from: int, i: int) {
    && 0 <= from <= i < |ring.committed| && (forall k :: from <= k < i ==> !env.sync(ring.committed[k]))
    && (env.sync(ring.committed[i]) || (i == from && forall k :: from <= k < |ring.committed| ==> !env.sync(ring.committed[k])))
  }

  /** Where a reader that has fallen behind goes on: at the oldest frame, or, to fill the interleaver, at a
      synchronisation frame. */
  ghost predicate CatchUp(env: Env, ring: Ring, fromBeginning: bool, mux: bool, i: int) {
    if mux then FirstSyncAt(env, ring, Newest(ring, fromBeginning), i) else i == Oldest(ring, fromBeginning)
  }

  lemma {:induction false} FirstSyncIs(env: Env, ring: Ring, i: nat, miss: nat)
    requires i <= |ring.committed|
    ensures var x := FirstSync(env, ring, i, miss);
            || (i <= x < |ring.committed| && env.sync(ring.committed[x]) && forall k :: i <= k < x ==> !env.sync(ring.committed[k]))
            || (x == miss && forall k :: i <= k < |ring.committed| ==> !env.sync(ring.committed[k]))
    decreases |ring.committed| - i
  {
    if i < |ring.committed| && !env.sync(ring.committed[i]) { FirstSyncIs(env, ring, i + 1, miss); }
  }

  /** A reader at or behind the oldest frame stays where it is; any other catches up. */
  lemma LockedIs(env: Env, ring: Ring, rd: Reader, mux: bool)
    requires RingInv(env.cfg, ring)
    ensures var idx := LockedIdx(env, ring, rd, mux);
            if rd.readIdx >= Oldest(ring, rd.fromBeginning) then idx == rd.readIdx
            else 0 <= idx < |ring.committed| && CatchUp(env, ring, rd.fromBeginning, mux, idx)
  {
    FirstSyncIs(env, ring, Newest(ring, rd.fromBeginning), Newest(ring, rd.fromBeginning));
  }

  // ---- one step

  /** The reader has neither moved nor been given anything; it may have let go of something. */
  ghost predicate Stands(a: Reader, b: Reader) {
    && b.readIdx == a.readIdx && b.delivered == a.delivered && b.taken == a.taken && b.fromBeginning == a.fromBeginning
    && forall j :: j in b.kept ==> j in a.kept && b.kept[j] == a.kept[j]
  }

  /** The reader has been given `e`, keeps it and stands one behind it. */
  ghost predicate Gets(a: Reader, b: Reader, e: Delivery) {
    && b.readIdx == e.idx + 1 && b.delivered == a.delivered + [e] && b.taken == a.taken + 1 && b.fromBeginning == a.fromBeginning
    && b.kept == a.kept[a.taken := e] && b.pc.Ready? && b.inCs == a.inCs
  }

  /** Nobody but reader `r` has changed. */
  ghost predicate Only(s: World, t: World, r: nat) {
    r < |s.readers| == |t.readers| && forall q :: 0 <= q < |s.readers| && q != r ==> t.readers[q] == s.readers[q]
  }

  ghost predicate StandsIn(s: World, t: World, r: nat) {
    Only(s, t, r) && Stands(s.readers[r], t.readers[r])
  }

  ghost predicate GetsIn(s: World, t: World, r: nat, e: Delivery) {
    Only(s, t, r) && Gets(s.readers[r], t.readers[r], e)
  }

  lemma DeliverGets(s: World, r: nat, idx: nat, b: BufId, words: seq<Word>)
    requires r < |s.readers|
    ensures GetsIn(s, Deliver(s, r, idx, b, words), r, Delivery(idx, b, words))
  {
  }

  lemma GotoStands(s: World, r: nat, pc: Pc)
    requires r < |s.readers|
    ensures StandsIn(s, Goto(s, r, pc), r)
  {
  }

  lemma LookStands(env: Env, s: World, r: nat)
    requires 0 < env.cfg.cap == |s.cells| && r < |s.readers| && AllLoaded(s.readers[r].pc)
    ensures StandsIn(s, SecondLook(env, s, r), r)
  {
    hide StandsIn, Goto, Assembled, CellOf;
    forall pc ensures StandsIn(s, Goto(s, r, pc), r) { GotoStands(s, r, pc); }
  }

  lemma RefStands(env: Env, s: World, r: nat)
    requires 0 < env.cfg.cap == |s.cells| && r < |s.readers|
    ensures s.readers[r].pc.Copied? ==> StandsIn(s, TryRef(s, r), r)
    ensures s.readers[r].pc.Refd? ==> StandsIn(s, ThirdLook(env, s, r), r)
    ensures s.readers[r].pc.Took? && s.readers[r].readIdx < s.oldestSeq ==> StandsIn(s, Recheck(s, r), r)
  {
    hide Stands, Goto, AddRef, DropRef, Live, CellOf, Deliver;
    forall pc ensures StandsIn(s, Goto(s, r, pc), r) { GotoStands(s, r, pc); }
  }

  lemma LeaveStands(s: World, r: nat)
    requires r < |s.readers| && s.readers[r].pc.Leaving? && s.readers[r].pc != Leaving(Empty)
    ensures StandsIn(s, LeaveCs(s, r), r)
  {
  }

  lemma QuietStands(env: Env, s: World, r: nat)
    requires 0 < env.cfg.cap == |s.cells| && r < |s.readers| && s.readers[r].pc != Leaving(Empty)
    requires s.readers[r].pc.Took? ==> s.readers[r].readIdx < s.oldestSeq
    ensures StandsIn(s, ReaderStep(env, s, r), r)
  {
    hide Goto, SecondLook, TryRef, ThirdLook, LeaveCs, Recheck, CellOf, AllLoaded;
    forall pc ensures StandsIn(s, Goto(s, r, pc), r) { GotoStands(s, r, pc); }
    RefStands(env, s, r);
    if s.readers[r].pc.Copying? && AllLoaded(s.readers[r].pc) { LookStands(env, s, r); }
    if s.readers[r].pc.Leaving? { LeaveStands(s, r); }
  }

  lemma LoadStands(env: Env, s: World, r: nat, w: nat)
    requires 0 < env.cfg.cap == |s.cells| && r < |s.readers|
    ensures StandsIn(s, LoadWord(env, s, r, w), r)
  {
    hide Goto, CellOf;
    forall pc ensures StandsIn(s, Goto(s, r, pc), r) { GotoStands(s, r, pc); }
  }

  /** The place a locked take reads from. */
  ghost predicate LockedPlace(env: Env, ring: Ring, a: Reader, mux: bool, idx: int) {
    if a.readIdx >= Oldest(ring, a.fromBeginning) then idx == a.readIdx
    else 0 <= idx < |ring.committed| && CatchUp(env, ring, a.fromBeginning, mux, idx)
  }

  /** What a locked take does: it gives the frame there, unless that is the end. */
  ghost predicate LockedDoes(env: Env, s: World, t: World, r: nat, mux: bool)
    requires r < |s.readers|
  {
    exists idx :: LockedPlace(env, s.ring, s.readers[r], mux, idx) &&
                  if idx >= |s.ring.committed| then StandsIn(s, t, r) else exists e :: GetsIn(s, t, r, e) && e.idx == idx
  }

  lemma LockedGives(env: Env, s: World, r: nat, mux: bool, idx: nat)
    requires Dims(env, s) && Inv(env, s) && Enabled(env, s, RLocked(r, mux)) && idx == LockedIdx(env, s.ring, s.readers[r], mux)
    requires s.ring.WriteIdx() - s.ring.count <= idx < s.ring.WriteIdx()
    ensures exists e :: GetsIn(s, LockedTake(env, s, r, mux), r, e) && e.idx == idx
  {
    LockedIsExact(env, s, idx);
    hide Inv, RingInv, LockedIdx, Deliver, GetsIn, Exact, Words;
    var c := s.cells[idx % env.cfg.cap];
    var m, t := s.(refs := AddRef(s.refs, c.buf.value, Local(r))), LockedTake(env, s, r, mux);
    assert t == Deliver(m, r, idx, c.buf.value, c.words);
    DeliverGets(m, r, idx, c.buf.value, c.words);
    GetsAlike(s, m, t, r, Delivery(idx, c.buf.value, c.words));
  }

  lemma LockedGets(env: Env, s: World, r: nat, mux: bool)
    requires Dims(env, s) && Inv(env, s) && Enabled(env, s, RLocked(r, mux))
    ensures LockedDoes(env, s, LockedTake(env, s, r, mux), r, mux)
  {
    hide RingInv, CellsOk, ReadersOk, RefsOk, LogOk, LockedIdx, Deliver, GetsIn, CatchUp, HandOk, PhaseOk, GuardOk;
    var idx := LockedIdx(env, s.ring, s.readers[r], mux);
    LockedIs(env, s.ring, s.readers[r], mux);
    LockedIdxBounds(env, s.ring, s.readers[r], mux);
    assert LockedPlace(env, s.ring, s.readers[r], mux, idx);
    if idx < |s.ring.committed| { LockedGives(env, s, r, mux, idx); }
  }

  lemma GetsAlike(s: World, m: World, t: World, r: nat, e: Delivery)
    requires GetsIn(m, t, r, e) && m.readers == s.readers
    ensures GetsIn(s, t, r, e)
  {
  }

  /** What a step does to reader `r`: only a seek moves it without giving it a frame, and only a locked take gives
      it another frame than the one it stands at. */
  ghost predicate MovesRight(env: Env, s: World, step: Step, t: World, r: nat)
    requires r < |s.readers| == |t.readers|
  {
    var a, b := s.readers[r], t.readers[r];
    match step
    case RSeek(q, to) => if q == r then b == a.(readIdx := to, delivered := []) else Stands(a, b)
    case RStep(q) => Stands(a, b) || (q == r && exists e :: Gets(a, b, e) && e.idx == a.readIdx)
    case RLocked(q, mux) => if q == r then LockedDoes(env, s, t, r, mux) else Stands(a, b)
    case _ => Stands(a, b)
  }

  lemma StepGets(env: Env, s: World, r: nat)
    requires Inv(env, s) && r < |s.readers|
    ensures var t := ReaderStep(env, s, r);
            StandsIn(s, t, r) || (s.readers[r].pc.Took? && exists e :: GetsIn(s, t, r, e) && e.idx == s.readers[r].readIdx)
  {
    assert ReaderOk(env, s, r);
    hide Inv, ReaderOk, StandsIn, GetsIn, ReaderStep, Deliver;
    var rd := s.readers[r];
    if rd.pc.Took? && rd.readIdx >= s.oldestSeq {
      StepDelivers(env, s, r);
      DeliverGets(s, r, rd.readIdx, rd.pc.b, rd.pc.words);
    } else {
      QuietStands(env, s, r);
    }
  }

  lemma StepDelivers(env: Env, s: World, r: nat)
    requires 0 < env.cfg.cap == |s.cells| && r < |s.readers| && s.readers[r].pc.Took? && s.readers[r].readIdx >= s.oldestSeq
    ensures ReaderStep(env, s, r) == Deliver(s, r, s.readers[r].readIdx, s.readers[r].pc.b, s.readers[r].pc.words)
  {
    hide Deliver;
  }

  lemma Bystander(s: World, t: World, q: nat, r: nat)
    requires Only(s, t, q) && r < |s.readers| && q != r
    ensures Stands(s.readers[r], t.readers[r])
  {
  }

  lemma OwnStep(env: Env, s: World, step: Step, r: nat)
    requires Dims(env, s) && Inv(env, s) && Enabled(env, s, step) && r < |s.readers| && step.RStep?
    ensures MovesRight(env, s, step, Do(env, s, step), r)
  {
    hide Inv, ReaderStep, Stands;
    var t := Do(env, s, step);
    assert t == ReaderStep(env, s, step.r);
    StepGets(env, s, step.r);
    if step.r != r { Bystander(s, t, step.r, r); }
  }

  lemma LockedStep(env: Env, s: World, step: Step, r: nat)
    requires Dims(env, s) && Inv(env, s) && Enabled(env, s, step) && r < |s.readers| && step.RLocked?
    ensures MovesRight(env, s, step, Do(env, s, step), r)
  {
    hide Inv, LockedTake, Stands, LockedPlace, Gets;
    var t := Do(env, s, step);
    assert t == LockedTake(env, s, step.r, step.mux);
    LockedGets(env, s, step.r, step.mux);
    if step.r != r { Bystander(s, t, step.r, r); }
  }

  lemma DropStands(s: World, t: World, q: nat, j: nat, r: nat)
    requires q < |s.readers| && r < |s.readers| && t.readers == s.readers[q := s.readers[q].(kept := s.readers[q].kept - {j})]
    ensures Stands(s.readers[r], t.readers[r])
  {
  }

  /** Every careful step moves a reader as it should. */
  lemma CursorMoves(env: Env, s: World, step: Step, r: nat)
    requires Dims(env, s) && Inv(env, s) && Enabled(env, s, step) && r < |s.readers|
    ensures MovesRight(env, s, step, Do(env, s, step), r)
  {
    hide Inv, WriterStep, ReaderStep, LoadWord, LockedTake;
    match step
    case RStep(q) => OwnStep(env, s, step, r);
    case RLocked(q, mux) => LockedStep(env, s, step, r);
    case RLoad(q, w) =>
      LoadStands(env, s, q, w);
      if q != r { Bystander(s, LoadWord(env, s, q, w), q, r); }
    case RDrop(q, j) => DropStands(s, Do(env, s, step), q, j, r);
    case _ =>
  }
}
