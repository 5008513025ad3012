/** The bytes behind the buffer pointers: when what a reader keeps stays what was committed. */
module SeqlockBytes {
  import opened GopRing
  import opened Wrappers
  import opened Seqlock
  import opened SeqlockSafety
  import opened SeqlockWriter
  import opened SeqlockReader
  import opened SeqlockRuns

  /** The buffer of publication `i` holds the bytes of its frame. */
  ghost predicate Right(s: World, i: int) {
    0 <= i < |s.log| && Content(s, s.log[i].buf) == s.log[i].slot.data
  }

  /** The publications that the slots show, but for the one whose buffer is lent out. */
  ghost predicate ShownRight(env: Env, s: World) {
    forall i :: 0 <= i < |s.log| && |s.log| - env.cfg.cap <= i && (s.hand.Lent? ==> i != |s.log| - env.cfg.cap) ==> Right(s, i)
  }

  /** A kept frame is the one committed at its index, byte for byte. */
  ghost predicate KeptRight(s: World, e: Delivery) {
    e.idx < s.ring.WriteIdx() && Exact(s.log, e.idx, e.b, e.words) && Right(s, e.idx)
  }

  ghost predicate AllKeptRight(s: World) {
    s.clean ==> forall r, j :: 0 <= r < |s.readers| && j in s.readers[r].kept ==> KeptRight(s, s.readers[r].kept[j])
  }

  ghost predicate NobodyKeeps(s: World, b: BufId) {
    forall r, j :: 0 <= r < |s.readers| && j in s.readers[r].kept ==> s.readers[r].kept[j].b != b
  }

  /** The slot that the next commit overwrites shows a frame that no reader is given any more. */
  predicate OutOfReach(env: Env, s: World) {
    s.ring.count < env.cfg.cap && s.oldestSeq + env.cfg.cap > s.ring.WriteIdx()
  }

  ghost predicate LentOk(env: Env, s: World)
    requires 0 < env.cfg.cap == |s.cells|
  {
    s.hand.Lent? ==>
      && OutOfReach(env, s) && NobodyKeeps(s, s.hand.b)
      && forall k :: 0 <= k < |s.cells| && k != Target(env, s) ==> s.cells[k].buf != Some(s.hand.b)
  }

  ghost predicate BytesOk(env: Env, s: World)
    requires 0 < env.cfg.cap == |s.cells|
  {
    && ShownRight(env, s) && AllKeptRight(s) && LentOk(env, s)
    && (s.writer.Announcing? && !s.hand.Nothing? ==> Content(s, s.hand.b) == s.writer.f.data)
  }

  /** No slot shows the buffer and no reader keeps it. */
  ghost predicate Unseen(s: World, b: BufId) {
    NobodyKeeps(s, b) && forall k :: 0 <= k < |s.cells| ==> s.cells[k].buf != Some(b)
  }

  /** A slot lends its buffer only when its frame is out of reach, and a buffer of the writer's own gets other
      bytes only while nobody sees it. */
  ghost predicate Fair(env: Env, s: World, step: Step) {
    && (step.WLend? ==> OutOfReach(env, s))
    && (step.WFill? && s.hand.Own? ==> Unseen(s, s.hand.b) || step.bytes == Content(s, s.hand.b))
  }

  // ---- indices within the last lap

  /** While no slot is being filled, the slot of an index within the last lap shows its publication. */
  lemma SlotOf(env: Env, s: World, i: nat)
    requires Inv(env, s) && !s.writer.Filling? && i < |s.log| <= i + env.cfg.cap
    ensures s.cells[i % env.cfg.cap].buf == Some(s.log[i].buf)
  {
    hide RingInv, RefsOk, ReadersOk, HandOk, PhaseOk, GuardOk, Words;
    assert CellOk(env, s, i % env.cfg.cap);
    var c := s.cells[i % env.cfg.cap];
    NextLap(i, c.hist[|c.hist| - 1], env.cfg.cap);
  }

  /** Less than a lap back is another slot than the one that is next. */
  lemma OtherSlot(env: Env, s: World, i: nat)
    requires Dims(env, s) && s.ring.WriteIdx() - env.cfg.cap < i < s.ring.WriteIdx()
    ensures i % env.cfg.cap != Target(env, s)
  {
    if i % env.cfg.cap == Target(env, s) { NextLap(i, s.ring.WriteIdx(), env.cfg.cap); }
  }

  /** So its buffer is not the one that is lent. */
  lemma NotLent(env: Env, s: World, i: nat)
    requires Inv(env, s) && LentOk(env, s) && s.hand.Lent? && s.ring.WriteIdx() - env.cfg.cap < i < s.ring.WriteIdx()
    ensures s.log[i].buf != s.hand.b
  {
    SlotOf(env, s, i);
    OtherSlot(env, s, i);
  }

  // ---- the writer

  /** A step that changes neither bytes, log nor what is kept. */
  ghost predicate StillBytes(s: World, t: World) {
    && t.data == s.data && t.log == s.log && s.ring.WriteIdx() <= t.ring.WriteIdx() && (t.clean ==> s.clean)
    && |t.readers| == |s.readers| && (forall r :: 0 <= r < |s.readers| ==> t.readers[r].kept == s.readers[r].kept)
  }

  lemma StillRight(env: Env, s: World, t: World)
    requires ShownRight(env, s) && AllKeptRight(s) && StillBytes(s, t) && (s.hand.Lent? ==> t.hand.Lent?)
    ensures ShownRight(env, t) && AllKeptRight(t)
  {
    forall i | Right(s, i) ensures Right(t, i) { }
    forall r, j | t.clean && 0 <= r < |t.readers| && j in t.readers[r].kept ensures KeptRight(t, t.readers[r].kept[j]) {
      assert KeptRight(s, s.readers[r].kept[j]);
    }
  }

  lemma LendBytes(env: Env, s: World)
    requires Inv(env, s) && BytesOk(env, s) && Enabled(env, s, WLend) && OutOfReach(env, s)
    ensures BytesOk(env, Do(env, s, WLend))
  {
    var t, b, k := Do(env, s, WLend), Spare(env, s).value, Target(env, s);
    StillRight(env, s, t);
    forall r, j | 0 <= r < |s.readers| && j in s.readers[r].kept ensures s.readers[r].kept[j].b != b {
      assert ReaderOk(env, s, r);
      assert Kept(r, j) in Owners(s.refs, s.readers[r].kept[j].b);
    }
    forall i | 0 <= i < |s.cells| && i != k ensures s.cells[i].buf != Some(b) {
      assert s.cells[i].buf.Some? ==> HasRef(s, s.cells[i].buf.value, InCell(i));
    }
  }

  /** The buffers of the publications that count are not the one that is filled. */
  lemma FillShown(env: Env, s: World, bytes: seq<int>)
    requires Inv(env, s) && BytesOk(env, s) && Enabled(env, s, WFill(bytes)) && Fair(env, s, WFill(bytes))
    ensures ShownRight(env, Do(env, s, WFill(bytes)))
  {
    var t := Do(env, s, WFill(bytes));
    forall i | 0 <= i < |t.log| && |t.log| - env.cfg.cap <= i && (t.hand.Lent? ==> i != |t.log| - env.cfg.cap)
      ensures Right(t, i)
    {
      assert Right(s, i);
      if s.hand.Lent? { NotLent(env, s, i); } else { SlotOf(env, s, i); }
    }
  }

  lemma FillBytes(env: Env, s: World, bytes: seq<int>)
    requires Inv(env, s) && BytesOk(env, s) && Enabled(env, s, WFill(bytes)) && Fair(env, s, WFill(bytes))
    ensures BytesOk(env, Do(env, s, WFill(bytes)))
  {
    FillShown(env, s, bytes);
    var t := Do(env, s, WFill(bytes));
    forall r, j | t.clean && 0 <= r < |t.readers| && j in t.readers[r].kept ensures KeptRight(t, t.readers[r].kept[j]) {
      assert KeptRight(s, s.readers[r].kept[j]);
    }
  }

  /** What is stored into `oldest_seq` before the overwrite is not behind the counted frames. */
  lemma EarlyIsCounted(env: Env, s: World, f: Frame, k: nat)
    requires Sized(env, s) && |s.ring.published| <= k < Early(env, s, f)
    ensures k < |Oldests(env, s, f)| && Oldests(env, s, f)[k] >= s.ring.WriteIdx() - s.ring.count
  {
    SeeKeeps(env.cfg, s.ring, f);
    hide RingInv, Store, Prepare;
    PrepareKeeps(env.cfg, env.pol, Seen(s, f), f);
    SettleAnnounces(env.cfg, env.pol, Seen(s, f), f);
    assert Oldests(env, s, f)[k] == Prepare(env.cfg, env.pol, Seen(s, f), f).published[k];
  }

  /** So it keeps a lent frame out of reach. */
  lemma AnnounceBytes(env: Env, s: World)
    requires Inv(env, s) && BytesOk(env, s) && s.writer.Announcing? && s.writer.k < Early(env, s, s.writer.f)
    ensures BytesOk(env, WriterStep(env, s))
  {
    var t, f, k := WriterStep(env, s), s.writer.f, s.writer.k;
    EarlyIsCounted(env, s, f, k);
    assert t == s.(oldestSeq := Oldests(env, s, f)[k], writer := Announcing(f, k + 1));
    hide RingInv, Store, Prepare, CellsOk, RefsOk, ReadersOk, WriterStep;
    StillRight(env, s, t);
  }

  lemma BeginFillBytes(env: Env, s: World)
    requires Inv(env, s) && BytesOk(env, s) && s.writer.Announcing? && s.writer.k >= Early(env, s, s.writer.f)
    ensures BytesOk(env, WriterStep(env, s))
  {
    var t := WriterStep(env, s);
    assert t == BeginFill(env, s, s.writer.f);
    forall i | 0 <= i < |t.log| && |t.log| - env.cfg.cap <= i ensures Right(t, i) {
      if i < |s.log| { assert Right(s, i); }
    }
    forall r, j | t.clean && 0 <= r < |t.readers| && j in t.readers[r].kept ensures KeptRight(t, t.readers[r].kept[j]) {
      assert KeptRight(s, s.readers[r].kept[j]);
    }
  }

  lemma UnlockBytes(env: Env, s: World)
    requires Dims(env, s) && Inv(env, s) && BytesOk(env, s)
    requires s.writer.Settling? && s.writer.k >= |Oldests(env, s, s.writer.f)|
    ensures BytesOk(env, WriterStep(env, s))
  {
    StoredRing(env, s, s.writer.f);
    hide Store, Prepare, RingInv, CellsOk, ReadersOk;
    StillRight(env, s, WriterStep(env, s));
  }

  /** From the beginning of the publication on. */
  lemma LaterBytes(env: Env, s: World)
    requires Dims(env, s) && HandOk(env, s) && BytesOk(env, s) && !s.writer.Idle? && !s.writer.Announcing?
    requires s.writer.Settling? ==> s.writer.k < |Oldests(env, s, s.writer.f)|
    ensures BytesOk(env, WriterStep(env, s))
  {
    hide Store, Prepare, RingInv, Words, Exchange;
    StillRight(env, s, WriterStep(env, s));
  }

  lemma WriterBytes(env: Env, s: World)
    requires Dims(env, s) && Inv(env, s) && BytesOk(env, s) && !s.writer.Idle?
    ensures BytesOk(env, WriterStep(env, s))
  {
    hide BytesOk, WriterStep, RingInv, Store, Prepare, CellsOk, ReadersOk, RefsOk;
    if s.writer.Announcing? {
      if s.writer.k < Early(env, s, s.writer.f) { AnnounceBytes(env, s); } else { BeginFillBytes(env, s); }
    } else if s.writer.Settling? && s.writer.k >= |Oldests(env, s, s.writer.f)| {
      UnlockBytes(env, s);
    } else {
      LaterBytes(env, s);
    }
  }

  // ---- the readers

  lemma DeliverBytes(env: Env, s: World, r: nat, idx: nat, b: BufId, words: seq<Word>)
    requires Dims(env, s) && BytesOk(env, s) && r < |s.readers|
    requires s.clean ==> KeptRight(s, Delivery(idx, b, words))
    requires s.hand.Lent? ==> b != s.hand.b
    ensures BytesOk(env, Deliver(s, r, idx, b, words))
  {
    var t := Deliver(s, r, idx, b, words);
    forall i | Right(s, i) ensures Right(t, i) { }
    forall q, j | t.clean && 0 <= q < |t.readers| && j in t.readers[q].kept ensures KeptRight(t, t.readers[q].kept[j]) {
      if q != r || j != s.readers[r].taken { assert KeptRight(s, s.readers[q].kept[j]); }
    }
  }

  /** What passes the last test of the lock-free path. */
  lemma RecheckBytes(env: Env, s: World, r: nat)
    requires Inv(env, s) && BytesOk(env, s) && r < |s.readers| && s.readers[r].pc.Took? && s.readers[r].readIdx >= s.oldestSeq
    ensures s.clean ==> KeptRight(s, Delivery(s.readers[r].readIdx, s.readers[r].pc.b, s.readers[r].pc.words))
    ensures s.hand.Lent? ==> s.readers[r].pc.b != s.hand.b
  {
    var i := s.readers[r].readIdx;
    assert ReaderOk(env, s, r);
    if s.clean {
      RecheckIsExact(env, s, r);
      assert Right(s, i);
    }
    if s.hand.Lent? {
      var j :| i <= j < |s.log| && j % env.cfg.cap == i % env.cfg.cap && s.readers[r].pc.b == s.log[j].buf;
      NotLent(env, s, j);
    }
  }

  lemma LockedBytes(env: Env, s: World, idx: nat)
    requires Inv(env, s) && BytesOk(env, s) && s.writer.Idle? && s.ring.WriteIdx() - s.ring.count <= idx < s.ring.WriteIdx()
    ensures var c := s.cells[idx % env.cfg.cap];
            c.buf.Some? && KeptRight(s, Delivery(idx, c.buf.value, c.words)) && (s.hand.Lent? ==> c.buf.value != s.hand.b)
  {
    LockedIsExact(env, s, idx);
    assert Right(s, idx);
    if s.hand.Lent? { NotLent(env, s, idx); }
  }

  /** A step of a reader that delivers nothing. */
  lemma Unaffected(env: Env, s: World, t: World)
    requires Dims(env, s) && BytesOk(env, s) && t == s.(readers := t.readers, refs := t.refs) && |t.readers| == |s.readers|
    requires SameKept(s.readers, t.readers)
    ensures BytesOk(env, t)
  {
    StillRight(env, s, t);
  }

  ghost predicate SameKept(a: seq<Reader>, b: seq<Reader>) {
    |a| == |b| && forall q :: 0 <= q < |a| ==> b[q].kept == a[q].kept
  }

  lemma PutKept(a: seq<Reader>, r: nat, rd: Reader)
    requires r < |a| && rd.kept == a[r].kept
    ensures SameKept(a, a[r := rd])
  {
  }

  lemma GotoKept(s: World, r: nat, pc: Pc)
    requires r < |s.readers|
    ensures SameKept(s.readers, Goto(s, r, pc).readers)
  {
    PutKept(s.readers, r, s.readers[r].(pc := pc));
  }

  lemma LookKept(env: Env, s: World, r: nat)
    requires 0 < env.cfg.cap == |s.cells| && r < |s.readers| && AllLoaded(s.readers[r].pc)
    ensures SameKept(s.readers, SecondLook(env, s, r).readers)
  {
    hide SameKept, Goto, Assembled, CellOf;
    forall pc ensures SameKept(s.readers, Goto(s, r, pc).readers) { GotoKept(s, r, pc); }
  }

  lemma LeaveKept(s: World, r: nat)
    requires r < |s.readers| && s.readers[r].pc.Leaving?
    ensures SameKept(s.readers, LeaveCs(s, r).readers)
  {
    hide SameKept;
    PutKept(s.readers, r, LeaveCs(s, r).readers[r]);
  }

  lemma RefKept(env: Env, s: World, r: nat)
    requires 0 < env.cfg.cap == |s.cells| && r < |s.readers|
    ensures s.readers[r].pc.Copied? ==> SameKept(s.readers, TryRef(s, r).readers)
    ensures s.readers[r].pc.Refd? ==> SameKept(s.readers, ThirdLook(env, s, r).readers)
    ensures s.readers[r].pc.Took? && s.readers[r].readIdx < s.oldestSeq ==> SameKept(s.readers, Recheck(s, r).readers)
  {
    hide SameKept, Goto, AddRef, DropRef, Live, CellOf, Deliver;
    forall pc ensures SameKept(s.readers, Goto(s, r, pc).readers) { GotoKept(s, r, pc); }
  }

  lemma QuietReader(env: Env, s: World, r: nat)
    requires 0 < env.cfg.cap == |s.cells| && r < |s.readers| && (s.readers[r].pc.Took? ==> s.readers[r].readIdx < s.oldestSeq)
    ensures SameKept(s.readers, ReaderStep(env, s, r).readers)
  {
    hide SameKept, Goto, SecondLook, TryRef, ThirdLook, LeaveCs, Recheck, CellOf, AllLoaded;
    forall pc ensures SameKept(s.readers, Goto(s, r, pc).readers) { GotoKept(s, r, pc); }
    var rd := s.readers[r];
    PutKept(s.readers, r, rd);
    PutKept(s.readers, r, rd.(pc := InCs, inCs := true));
    RefKept(env, s, r);
    if rd.pc.Copying? && AllLoaded(rd.pc) { LookKept(env, s, r); }
    if rd.pc.Leaving? { LeaveKept(s, r); }
    assert s.readers[r := rd] == s.readers;
  }

  lemma ReaderBytes(env: Env, s: World, r: nat)
    requires Inv(env, s) && BytesOk(env, s) && r < |s.readers|
    ensures BytesOk(env, ReaderStep(env, s, r))
  {
    hide BytesOk, RingInv, CellsOk, ReadersOk, KeptRight;
    var rd := s.readers[r];
    if rd.pc.Took? && rd.readIdx >= s.oldestSeq {
      RecheckBytes(env, s, r);
      DeliverBytes(env, s, r, rd.readIdx, rd.pc.b, rd.pc.words);
    } else {
      hide ReaderStep;
      QuietReader(env, s, r);
      Unaffected(env, s, ReaderStep(env, s, r));
    }
  }

  lemma LockedTakeBytes(env: Env, s: World, r: nat, mux: bool)
    requires Inv(env, s) && BytesOk(env, s) && r < |s.readers| && s.readers[r].pc.NeedLock? && s.writer.Idle?
    ensures BytesOk(env, LockedTake(env, s, r, mux))
  {
    var idx := LockedIdx(env, s.ring, s.readers[r], mux);
    LockedIdxBounds(env, s.ring, s.readers[r], mux);
    hide BytesOk, RingInv, CellsOk, ReadersOk, RefsOk, LogOk, LockedIdx, Deliver;
    if idx < s.ring.WriteIdx() {
      LockedGives(env, s, r, idx);
    } else {
      PutKept(s.readers, r, s.readers[r].(pc := Ready, readIdx := idx));
      Unaffected(env, s, LockedTake(env, s, r, mux));
    }
  }

  lemma LockedGives(env: Env, s: World, r: nat, idx: nat)
    requires Inv(env, s) && BytesOk(env, s) && r < |s.readers| && s.writer.Idle?
    requires s.ring.WriteIdx() - s.ring.count <= idx < s.ring.WriteIdx()
    ensures var c := s.cells[idx % env.cfg.cap];
            && c.buf.Some? && |c.words| == WORDS && c.words[LEN_WORD] != Num(0)
            && BytesOk(env, Deliver(s.(refs := AddRef(s.refs, c.buf.value, Local(r))), r, idx, c.buf.value, c.words))
  {
    LockedBytes(env, s, idx);
    LockedIsExact(env, s, idx);
    hide BytesOk, RingInv, CellsOk, ReadersOk, KeptRight, Exact;
    var c := s.cells[idx % env.cfg.cap];
    TakeRefBytes(env, s, r, c.buf.value);
    DeliverBytes(env, s.(refs := AddRef(s.refs, c.buf.value, Local(r))), r, idx, c.buf.value, c.words);
  }

  lemma TakeRefBytes(env: Env, s: World, r: nat, b: BufId)
    requires Dims(env, s) && BytesOk(env, s)
    ensures BytesOk(env, s.(refs := AddRef(s.refs, b, Local(r))))
    ensures forall e :: KeptRight(s, e) ==> KeptRight(s.(refs := AddRef(s.refs, b, Local(r))), e)
  {
    var t := s.(refs := AddRef(s.refs, b, Local(r)));
    StillRight(env, s, t);
    forall e | KeptRight(s, e) ensures KeptRight(t, e) { }
  }

  lemma DropBytes(env: Env, s: World, r: nat, j: nat)
    requires Dims(env, s) && BytesOk(env, s) && Enabled(env, s, RDrop(r, j))
    ensures BytesOk(env, Do(env, s, RDrop(r, j)))
  {
    var t := Do(env, s, RDrop(r, j));
    forall i | Right(s, i) ensures Right(t, i) { }
    forall q, i | t.clean && 0 <= q < |t.readers| && i in t.readers[q].kept ensures KeptRight(t, t.readers[q].kept[i]) {
      assert KeptRight(s, s.readers[q].kept[i]);
    }
  }

  // ---- all steps and runs

  /** A step of the writer between two publications. */
  lemma IdleBytes(env: Env, s: World, step: Step)
    requires Inv(env, s) && BytesOk(env, s) && Enabled(env, s, step) && !Spoils(s, step)
    requires step.WTake? || step.WBegin? || step.WReject? || step.WGiveUp? || step.WConfigure?
    ensures BytesOk(env, Do(env, s, step))
  {
    StillRight(env, s, Do(env, s, step));
  }

  lemma StepBytes(env: Env, s: World, step: Step)
    requires Dims(env, s) && Inv(env, s) && BytesOk(env, s) && Enabled(env, s, step) && !Spoils(s, step) && Fair(env, s, step)
    ensures BytesOk(env, Do(env, s, step))
  {
    hide Inv, BytesOk, ReaderStep, LoadWord, LockedTake, WriterStep, Fair;
    match step
    case WLend => LendFair(env, s);
    case WFill(bytes) => FillBytes(env, s, bytes);
    case WStep => WriterBytes(env, s);
    case RStep(r) => ReaderBytes(env, s, r);
    case RLoad(r, w) => LoadBytes(env, s, r, w);
    case RLocked(r, mux) => LockedTakeBytes(env, s, r, mux);
    case RDrop(r, j) => DropBytes(env, s, r, j);
    case RSeek(r, to) => Unaffected(env, s, Do(env, s, step));
    case _ => IdleBytes(env, s, step);
  }

  lemma LendFair(env: Env, s: World)
    requires Inv(env, s) && BytesOk(env, s) && Enabled(env, s, WLend) && Fair(env, s, WLend)
    ensures BytesOk(env, Do(env, s, WLend))
  {
    LendBytes(env, s);
  }

  lemma LoadBytes(env: Env, s: World, r: nat, w: nat)
    requires Dims(env, s) && BytesOk(env, s) && r < |s.readers|
    ensures BytesOk(env, LoadWord(env, s, r, w))
  {
    var t := LoadWord(env, s, r, w);
    PutKept(s.readers, r, t.readers[r]);
    assert t.readers == s.readers[r := t.readers[r]];
    hide BytesOk, LoadWord, SameKept;
    Unaffected(env, s, t);
  }

  ghost predicate AllFair(env: Env, s: World, steps: seq<Step>)
    requires IsRun(env, s, steps)
    decreases |steps|
  {
    steps == [] || (Fair(env, s, steps[0]) && AllFair(env, Do(env, s, steps[0]), steps[1..]))
  }

  lemma {:induction false} RunBytes(env: Env, s: World, steps: seq<Step>)
    requires Inv(env, s) && BytesOk(env, s) && IsRun(env, s, steps) && AllCareful(env, s, steps) && AllFair(env, s, steps)
    ensures Inv(env, End(env, s, steps)) && BytesOk(env, End(env, s, steps))
    decreases |steps|
  {
    hide BytesOk, Fair, Do;
    if steps != [] {
      StepKeeps(env, s, steps[0]);
      StepBytes(env, s, steps[0]);
      RunBytes(env, Do(env, s, steps[0]), steps[1..]);
    }
  }

  /** Over every careful and fair run whose commits never begin on a full ring without a GOP: what a reader
      keeps is the frame committed at its index, byte for byte, from its delivery on and as long as it is kept. */
  lemma KeptBytes(env: Env, target: nat, cacheMs: nat, begins: seq<bool>, steps: seq<Step>)
    requires env.cfg.Valid() && |begins| == env.readers && IsRun(env, Start(env, target, cacheMs, begins), steps)
    requires AllCareful(env, Start(env, target, cacheMs, begins), steps)
    requires AllFair(env, Start(env, target, cacheMs, begins), steps)
    ensures var s := End(env, Start(env, target, cacheMs, begins), steps);
            s.clean ==> forall r, j :: 0 <= r < |s.readers| && j in s.readers[r].kept ==>
              var e := s.readers[r].kept[j];
              && e.idx < |s.ring.committed| && Content(s, e.b) == s.ring.committed[e.idx].data
              && e.words == Words(Pub(s.ring.committed[e.idx], e.b))
  {
    var start := Start(env, target, cacheMs, begins);
    StartInv(env, target, cacheMs, begins);
    assert BytesOk(env, start);
    RunBytes(env, start, steps);
    if End(env, start, steps).clean { KeptAreCommitted(env, End(env, start, steps)); }
  }

  lemma KeptAreCommitted(env: Env, s: World)
    requires Inv(env, s) && BytesOk(env, s) && s.clean
    ensures forall r, j :: 0 <= r < |s.readers| && j in s.readers[r].kept ==>
              var e := s.readers[r].kept[j];
              && e.idx < |s.ring.committed| && Content(s, e.b) == s.ring.committed[e.idx].data
              && e.words == Words(Pub(s.ring.committed[e.idx], e.b))
  {
    forall r, j | 0 <= r < |s.readers| && j in s.readers[r].kept
      ensures var e := s.readers[r].kept[j];
              && e.idx < |s.ring.committed| && Content(s, e.b) == s.ring.committed[e.idx].data
              && e.words == Words(Pub(s.ring.committed[e.idx], e.b))
    {
      assert KeptRight(s, s.readers[r].kept[j]);
    }
  }
}
