/** Runs that show what happens where the conditions of the other modules do not hold. */
module SeqlockLimits {
  import opened GopRing
  import opened GopRegime
  import opened Wrappers
  import opened Seqlock
  import opened SeqlockSafety
  import opened SeqlockWriter
  import opened SeqlockReader
  import opened SeqlockRuns
  import opened SeqlockBytes
  import opened SeqlockCursor

  // ---- composing runs

  /** Some run in which no lent buffer is dropped leads from `s` to `t`. */
  ghost predicate CanReach(env: Env, s: World, t: World) {
    exists steps :: Path(env, s, steps, t)
  }

  ghost predicate Path(env: Env, s: World, steps: seq<Step>, t: World) {
    IsRun(env, s, steps) && AllCareful(env, s, steps) && End(env, s, steps) == t
  }

  ghost predicate Shaped(env: Env, s: World) {
    0 < env.cfg.cap == |s.cells| && |s.readers| == env.readers
  }

  lemma {:induction false} PathOn(env: Env, s: World, a: seq<Step>, t: World, b: seq<Step>, u: World)
    requires Path(env, s, a, t) && Path(env, t, b, u)
    ensures Path(env, s, a + b, u)
    decreases |a|
  {
    hide Do, Enabled;
    if a == [] {
      assert a + b == b;
    } else {
      assert (a + b)[0] == a[0] && (a + b)[1..] == a[1..] + b;
      PathOn(env, Do(env, s, a[0]), a[1..], t, b, u);
    }
  }

  lemma ReachOn(env: Env, s: World, t: World, u: World)
    requires CanReach(env, s, t) && CanReach(env, t, u)
    ensures CanReach(env, s, u)
  {
    var a :| Path(env, s, a, t);
    var b :| Path(env, t, b, u);
    PathOn(env, s, a, t, b, u);
  }

  lemma ReachSame(env: Env, s: World)
    requires Shaped(env, s)
    ensures CanReach(env, s, s)
  {
    assert Path(env, s, [], s);
  }

  lemma ReachStep(env: Env, s: World, step: Step)
    requires Shaped(env, s) && Enabled(env, s, step) && !Spoils(s, step)
    ensures Shaped(env, Do(env, s, step)) && CanReach(env, s, Do(env, s, step))
  {
    hide Enabled;
    var t, steps := Do(env, s, step), [step];
    assert steps[1..] == [];
    assert IsRun(env, t, []) && AllCareful(env, t, []) && End(env, t, []) == t;
    assert Path(env, s, steps, t);
  }

  /** One more step. */
  lemma ReachNext(env: Env, s: World, t: World, step: Step)
    requires CanReach(env, s, t) && Shaped(env, t) && Enabled(env, t, step) && !Spoils(t, step)
    ensures Shaped(env, Do(env, t, step)) && CanReach(env, s, Do(env, t, step))
  {
    ReachStep(env, t, step);
    ReachOn(env, s, t, Do(env, t, step));
  }

  // ---- a lock-free take from beginning to end, with nobody else moving

  /** The lock-free path of reader `r` leads to a slot that is not being filled and shows something. */
  ghost predicate CanLook(env: Env, s: World, r: nat) {
    && Shaped(env, s) && r < |s.readers|
    && var rd := s.readers[r];
    && rd.pc.Ready? && !rd.inCs && !rd.fromBeginning && s.oldestSeq <= rd.readIdx < s.writeSeq
    && var c := CellOf(env, s, r); c.seqno % 2 == 0 && c.buf.Some? && |c.words| == WORDS && c.words[LEN_WORD] != Num(0)
  }

  function AtPc(s: World, r: nat, pc: Pc, inCs: bool): World
    requires r < |s.readers|
  {
    WithReader(s, r, s.readers[r].(pc := pc, inCs := inCs))
  }

  /** The first `n` words. */
  function Some9(words: seq<Word>, n: nat): map<nat, Word>
    requires n <= |words|
  {
    map i: nat | i < n :: words[i]
  }

  lemma PutTwice(a: seq<Reader>, r: nat, x: Reader, y: Reader)
    requires r < |a|
    ensures a[r := x][r := y] == a[r := y]
  {
  }

  lemma AtPcTwice(s: World, r: nat, pc: Pc, inCs: bool, pc': Pc, inCs': bool)
    requires r < |s.readers|
    ensures AtPc(AtPc(s, r, pc, inCs), r, pc', inCs') == AtPc(s, r, pc', inCs')
    ensures Goto(AtPc(s, r, pc, inCs), r, pc') == AtPc(s, r, pc', inCs)
  {
    var rd := s.readers[r];
    PutTwice(s.readers, r, rd.(pc := pc, inCs := inCs), rd.(pc := pc', inCs := inCs'));
    PutTwice(s.readers, r, rd.(pc := pc, inCs := inCs), rd.(pc := pc', inCs := inCs));
  }

  /** From the cursor to the first look at the slot. */
  lemma LookBegins(env: Env, s: World, r: nat)
    requires CanLook(env, s, r)
    ensures CanReach(env, s, AtPc(s, r, Copying(CellOf(env, s, r).seqno, None, map[]), true))
  {
    var t1, t2, t3 := AtPc(s, r, SawNew, false), AtPc(s, r, Entering, false), AtPc(s, r, InCs, true);
    ReachStep(env, s, RStep(r));
    assert ReaderStep(env, s, r) == t1;
    AtPcTwice(s, r, SawNew, false, Entering, false);
    ReachNext(env, s, t1, RStep(r));
    assert ReaderStep(env, t1, r) == t2;
    AtPcTwice(s, r, Entering, false, InCs, true);
    ReachNext(env, s, t2, RStep(r));
    assert ReaderStep(env, t2, r) == t3;
    AtPcTwice(s, r, InCs, true, Copying(CellOf(env, s, r).seqno, None, map[]), true);
    ReachNext(env, s, t3, RStep(r));
  }

  lemma OneLoad(env: Env, s: World, r: nat, n: nat)
    requires CanLook(env, s, r) && 0 < n <= WORDS
    ensures var c := CellOf(env, s, r);
            var t := AtPc(s, r, Copying(c.seqno, None, Some9(c.words, n - 1)), true);
            Shaped(env, t) && Enabled(env, t, RLoad(r, n - 1))
            && Do(env, t, RLoad(r, n - 1)) == AtPc(s, r, Copying(c.seqno, None, Some9(c.words, n)), true)
  {
    var c := CellOf(env, s, r);
    assert Some9(c.words, n - 1)[n - 1 := c.words[n - 1]] == Some9(c.words, n);
    AtPcTwice(s, r, Copying(c.seqno, None, Some9(c.words, n - 1)), true, Copying(c.seqno, None, Some9(c.words, n)), true);
    hide Some9;
  }

  /** The words, one after the other. */
  lemma {:induction false} LookLoads(env: Env, s: World, r: nat, n: nat)
    requires CanLook(env, s, r) && n <= WORDS
    ensures var c := CellOf(env, s, r); CanReach(env, s, AtPc(s, r, Copying(c.seqno, None, Some9(c.words, n)), true))
    decreases n
  {
    var c := CellOf(env, s, r);
    if n == 0 {
      LookBegins(env, s, r);
      assert Some9(c.words, 0) == map[];
    } else {
      LookLoads(env, s, r, n - 1);
      OneLoad(env, s, r, n);
      hide Do, Enabled, AtPc, Some9, CanReach;
      ReachNext(env, s, AtPc(s, r, Copying(c.seqno, None, Some9(c.words, n - 1)), true), RLoad(r, n - 1));
    }
  }

  /** And the pointer. */
  lemma LastLoad(env: Env, s: World, r: nat)
    requires CanLook(env, s, r)
    ensures var c := CellOf(env, s, r); CanReach(env, s, AtPc(s, r, Copying(c.seqno, Some(c.buf), Some9(c.words, WORDS)), true))
  {
    var c := CellOf(env, s, r);
    LookLoads(env, s, r, WORDS);
    var pc := Copying(c.seqno, None, Some9(c.words, WORDS));
    var t, u := AtPc(s, r, pc, true), AtPc(s, r, pc.(buf := Some(c.buf)), true);
    AtPcTwice(s, r, pc, true, pc.(buf := Some(c.buf)), true);
    hide Some9, CanReach;
    assert LoadWord(env, t, r, WORDS) == u;
    ReachNext(env, s, t, RLoad(r, WORDS));
  }

  /** The second look finds the slot unchanged. */
  lemma LookEnds(env: Env, s: World, r: nat)
    requires CanLook(env, s, r)
    ensures var c := CellOf(env, s, r); CanReach(env, s, AtPc(s, r, Copied(c.seqno, c.buf.value, c.words), true))
  {
    var c := CellOf(env, s, r);
    LastLoad(env, s, r);
    var pc := Copying(c.seqno, Some(c.buf), Some9(c.words, WORDS));
    var u := AtPc(s, r, pc, true);
    assert AllLoaded(pc) && Assembled(pc) == c.words;
    AtPcTwice(s, r, pc, true, Copied(c.seqno, c.buf.value, c.words), true);
    hide Some9, CanReach, Assembled;
    assert ReaderStep(env, u, r) == AtPc(s, r, Copied(c.seqno, c.buf.value, c.words), true);
    ReachNext(env, s, u, RStep(r));
  }

  /** The state after a take that nobody disturbs. */
  ghost predicate GivenTo(s: World, t: World, r: nat, e: Delivery) {
    && r < |s.readers| == |t.readers| && t == s.(readers := t.readers, refs := t.refs)
    && t.readers[r].delivered == s.readers[r].delivered + [e]
    && t.readers[r].kept == s.readers[r].kept[s.readers[r].taken := e]
    && t.readers[r].readIdx == e.idx + 1 && t.readers[r].pc.Ready? && !t.readers[r].inCs
  }

  lemma RefTaken(env: Env, s: World, r: nat)
    requires CanLook(env, s, r) && Live(s, CellOf(env, s, r).buf.value)
    ensures var c := CellOf(env, s, r); var b := c.buf.value; var m := s.(refs := AddRef(s.refs, b, Local(r)));
            CanReach(env, s, AtPc(m, r, Leaving(Got(b, c.words)), true))
  {
    var c := CellOf(env, s, r);
    var b := c.buf.value;
    var m := s.(refs := AddRef(s.refs, b, Local(r)));
    LookEnds(env, s, r);
    var t, u := AtPc(s, r, Copied(c.seqno, b, c.words), true), AtPc(m, r, Refd(c.seqno, b, c.words), true);
    AtPcTwice(s, r, Copied(c.seqno, b, c.words), true, Refd(c.seqno, b, c.words), true);
    hide CanReach;
    assert TryRef(t, r) == u;
    ReachNext(env, s, t, RStep(r));
    AtPcTwice(m, r, Refd(c.seqno, b, c.words), true, Leaving(Got(b, c.words)), true);
    assert ThirdLook(env, u, r) == AtPc(m, r, Leaving(Got(b, c.words)), true);
    ReachNext(env, s, u, RStep(r));
  }

  /** Undisturbed, a lock-free take of what the slot shows succeeds. */
  lemma TakeSucceeds(env: Env, s: World, r: nat) returns (t: World)
    requires CanLook(env, s, r) && Live(s, CellOf(env, s, r).buf.value)
    ensures var c := CellOf(env, s, r);
            CanReach(env, s, t) && GivenTo(s, t, r, Delivery(s.readers[r].readIdx, c.buf.value, c.words))
  {
    var c := CellOf(env, s, r);
    var b, i := c.buf.value, s.readers[r].readIdx;
    var m := s.(refs := AddRef(s.refs, b, Local(r)));
    RefTaken(env, s, r);
    var u, v := AtPc(m, r, Leaving(Got(b, c.words)), true), AtPc(m, r, Took(b, c.words), false);
    AtPcTwice(m, r, Leaving(Got(b, c.words)), true, Took(b, c.words), false);
    hide CanReach, CanLook;
    assert LeaveCs(u, r) == v;
    ReachNext(env, s, u, RStep(r));
    t := Deliver(v, r, i, b, c.words);
    assert Recheck(v, r) == t;
    ReachNext(env, s, v, RStep(r));
  }

  // ---- a reader that is not at the end is always given something

  /** With the mutex free, the slot of any index that has been committed can be looked at. */
  lemma SlotCanBeSeen(env: Env, s: World, i: nat)
    requires Inv(env, s) && s.writer.Idle? && i < s.writeSeq
    ensures var c := s.cells[i % env.cfg.cap];
            c.seqno % 2 == 0 && c.buf.Some? && Live(s, c.buf.value) && |c.words| == WORDS && c.words[LEN_WORD] != Num(0)
  {
    hide RingInv, ReadersOk, PhaseOk, GuardOk;
    var k := i % env.cfg.cap;
    assert CellOk(env, s, k);
    EvenSlot(env, s, k);
    var j := s.cells[k].hist[|s.cells[k].hist| - 1];
    assert HasRef(s, s.log[j].buf, InCell(k));
    assert Words(s.log[j])[LEN_WORD] == Num(|s.log[j].slot.data|);
  }

  /** By its own steps, while nobody else moves, a reader that is not at the end is given a frame: without the
      mutex the one at its cursor, under the mutex that one or the one that a catch-up goes to. */
  lemma FrameArrives(env: Env, s: World, r: nat, mux: bool) returns (t: World, e: Delivery)
    requires Inv(env, s) && s.writer.Idle? && r < |s.readers| && s.readers[r].pc.Ready? && s.readers[r].readIdx < s.writeSeq
    ensures CanReach(env, s, t) && GivenTo(s, t, r, e)
    ensures var rd := s.readers[r];
            if !rd.fromBeginning && rd.readIdx >= s.oldestSeq then e.idx == rd.readIdx
            else LockedPlace(env, s.ring, rd, mux, e.idx)
  {
    assert ReaderOk(env, s, r);
    var rd := s.readers[r];
    if !rd.fromBeginning && rd.readIdx >= s.oldestSeq {
      SlotCanBeSeen(env, s, rd.readIdx);
      var c := CellOf(env, s, r);
      e := Delivery(rd.readIdx, c.buf.value, c.words);
      hide Inv, CanReach;
      t := TakeSucceeds(env, s, r);
    } else {
      t, e := LockedArrives(env, s, r, mux);
    }
  }

  lemma LockWanted(env: Env, s: World, r: nat) returns (v: World)
    requires Shaped(env, s) && Inv(env, s) && r < |s.readers| && s.readers[r].pc.Ready? && s.readers[r].readIdx < s.writeSeq
    requires !s.readers[r].inCs && (s.readers[r].fromBeginning || s.readers[r].readIdx < s.oldestSeq)
    ensures v == AtPc(s, r, NeedLock, false) && CanReach(env, s, v) && Shaped(env, v) && Inv(env, v)
  {
    hide Inv, CanReach;
    var u := AtPc(s, r, SawNew, false);
    v := AtPc(s, r, NeedLock, false);
    assert Do(env, s, RStep(r)) == u;
    ReachStep(env, s, RStep(r));
    StepKeeps(env, s, RStep(r));
    AtPcTwice(s, r, SawNew, false, NeedLock, false);
    assert Do(env, u, RStep(r)) == v;
    ReachNext(env, s, u, RStep(r));
    StepKeeps(env, u, RStep(r));
  }

  lemma LockedArrives(env: Env, s: World, r: nat, mux: bool) returns (t: World, e: Delivery)
    requires Inv(env, s) && s.writer.Idle? && r < |s.readers| && s.readers[r].pc.Ready? && s.readers[r].readIdx < s.writeSeq
    requires s.readers[r].fromBeginning || s.readers[r].readIdx < s.oldestSeq
    ensures CanReach(env, s, t) && GivenTo(s, t, r, e) && LockedPlace(env, s.ring, s.readers[r], mux, e.idx)
  {
    assert Shaped(env, s) && !s.readers[r].inCs && s.writeSeq == |s.ring.committed| by { assert ReaderOk(env, s, r); }
    hide Inv, CanReach, LockedTake, CatchUp, Oldest;
    var v := LockWanted(env, s, r);
    LockedGets(env, v, r, mux);
    t := LockedTake(env, v, r, mux);
    ReachNext(env, s, v, RLocked(r, mux));
    e :| GetsIn(v, t, r, e) && LockedPlace(env, s.ring, s.readers[r], mux, e.idx);
  }

  // ---- refilled buffers

  /** A slot of an index within the last lap can be looked at. */
  lemma SlotCanBeTaken(env: Env, s: World, i: nat)
    requires Inv(env, s) && s.writer.Idle? && i < s.writeSeq <= i + env.cfg.cap
    ensures var c := s.cells[i % env.cfg.cap];
            && c.seqno % 2 == 0 && c.buf == Some(s.log[i].buf) && c.words == Words(s.log[i]) && Live(s, s.log[i].buf)
            && |c.words| == WORDS && c.words[LEN_WORD] != Num(0)
  {
    SlotShows(env, s, i);
    hide RingInv, ReadersOk, PhaseOk, GuardOk, HistOk;
    var k := i % env.cfg.cap;
    assert CellOk(env, s, k);
    assert HasRef(s, s.log[i].buf, InCell(k));
    assert Words(s.log[i])[LEN_WORD] == Num(|s.log[i].slot.data|);
  }

  /** Other bytes in the buffer at hand, and the cursor of reader `r` at `i`. */
  function Refilled(s: World, r: nat, i: nat, bytes: seq<int>): World
    requires r < |s.readers| && !s.hand.Nothing?
  {
    WithReader(s.(data := s.data[s.hand.b := bytes]), r, s.readers[r].(readIdx := i, delivered := []))
  }

  lemma RefillReaches(env: Env, s: World, r: nat, i: nat, bytes: seq<int>)
    requires Inv(env, s) && s.writer.Idle? && !s.hand.Nothing? && r < |s.readers| && s.readers[r].pc.Ready? && i <= s.writeSeq
    ensures var m := Refilled(s, r, i, bytes);
            Inv(env, m) && Shaped(env, m) && CanReach(env, s, m) && Content(m, s.hand.b) == bytes
  {
    var f, m := Do(env, s, WFill(bytes)), Refilled(s, r, i, bytes);
    StepKeeps(env, s, WFill(bytes));
    ReachStep(env, s, WFill(bytes));
    assert m == Do(env, f, RSeek(r, i));
    StepKeeps(env, f, RSeek(r, i));
    ReachNext(env, s, f, RSeek(r, i));
  }

  /** A frame that lock-free readers may take, and whose buffer is at hand: refilled, it is given to the next
      reader with the old view and the new bytes. */
  lemma RefilledIsTaken(env: Env, s: World, r: nat, i: nat, bytes: seq<int>) returns (t: World)
    requires Inv(env, s) && s.writer.Idle? && !s.hand.Nothing? && s.oldestSeq <= i < s.writeSeq <= i + env.cfg.cap
    requires r < |s.readers| && s.readers[r].pc.Ready? && !s.readers[r].fromBeginning && s.log[i].buf == s.hand.b
    ensures CanReach(env, s, t) && t.ring == s.ring && Content(t, s.hand.b) == bytes
    ensures r < |t.readers| && s.readers[r].taken in t.readers[r].kept
            && t.readers[r].kept[s.readers[r].taken] == Delivery(i, s.hand.b, Words(s.log[i]))
  {
    var m := Refilled(s, r, i, bytes);
    RefillReaches(env, s, r, i, bytes);
    SlotCanBeTaken(env, m, i);
    assert ReaderOk(env, s, r);
    assert CanLook(env, m, r);
    t := TakeSucceeds(env, m, r);
    ReachOn(env, s, m, t);
  }

  /** The same for a frame that is still counted, and a reader of the whole buffer. */
  lemma RefilledIsLocked(env: Env, s: World, r: nat, i: nat, bytes: seq<int>) returns (t: World)
    requires Inv(env, s) && s.writer.Idle? && !s.hand.Nothing? && s.ring.WriteIdx() - s.ring.count <= i < s.writeSeq
    requires r < |s.readers| && s.readers[r].pc.Ready? && s.readers[r].fromBeginning && s.log[i].buf == s.hand.b
    ensures CanReach(env, s, t) && t.ring == s.ring && Content(t, s.hand.b) == bytes
    ensures r < |t.readers| && s.readers[r].taken in t.readers[r].kept
            && t.readers[r].kept[s.readers[r].taken] == Delivery(i, s.hand.b, Words(s.log[i]))
  {
    var m := Refilled(s, r, i, bytes);
    RefillReaches(env, s, r, i, bytes);
    assert ReaderOk(env, s, r);
    t := LockedSucceeds(env, m, r);
    ReachOn(env, s, m, t);
  }

  /** A locked take by a reader of the whole buffer. */
  lemma LockedSucceeds(env: Env, s: World, r: nat) returns (t: World)
    requires Inv(env, s) && s.writer.Idle? && r < |s.readers| && s.readers[r].pc.Ready? && s.readers[r].fromBeginning
    requires s.ring.WriteIdx() - s.ring.count <= s.readers[r].readIdx < s.writeSeq
    ensures var i := s.readers[r].readIdx;
            CanReach(env, s, t) && GivenTo(s, t, r, Delivery(i, s.log[i].buf, Words(s.log[i])))
  {
    hide CanReach, RingInv, CellsOk, RefsOk, LogOk, PhaseOk;
    var i := s.readers[r].readIdx;
    assert ReaderOk(env, s, r);
    var v := LockWanted(env, s, r);
    LockedIsExact(env, s, i);
    t := Deliver(v.(refs := AddRef(s.refs, s.log[i].buf, Local(r))), r, i, s.log[i].buf, Words(s.log[i]));
    assert LockedTake(env, v, r, false) == t;
    ReachNext(env, s, v, RLocked(r, false));
  }

  /** A slot that has been filled lends the frame that is one lap back. */
  lemma LentIndex(env: Env, s: World)
    requires Inv(env, s) && s.writer.Idle? && s.hand.Lent?
    ensures s.ring.WriteIdx() >= env.cfg.cap && s.log[s.ring.WriteIdx() - env.cfg.cap].buf == s.hand.b
  {
    hide RingInv, RefsOk, ReadersOk, PhaseOk, GuardOk, Words;
    var w, k := s.ring.WriteIdx(), Target(env, s);
    assert CellOk(env, s, k);
    var j := s.cells[k].hist[|s.cells[k].hist| - 1];
    NextLap(j, w, env.cfg.cap);
    LapKeepsSlot(w - env.cfg.cap, env.cfg.cap);
  }

  /** A kept frame of which other bytes are found than were committed at its index. */
  ghost predicate KeepsWrong(s: World, r: nat, j: nat) {
    && r < |s.readers| && j in s.readers[r].kept
    && var e := s.readers[r].kept[j]; e.idx < |s.ring.committed| && Content(s, e.b) != s.ring.committed[e.idx].data
  }

  /** If a slot lends its buffer although its frame is not out of reach of all readers, then a reader can come to
      keep that frame with other bytes: a lock-free one or one of the whole buffer, whichever may still take it. */
  lemma LendingMatters(env: Env, s: World, r: nat, q: nat) returns (t: World, x: nat, j: nat)
    requires Inv(env, s) && s.writer.Idle? && s.hand.Lent? && !OutOfReach(env, s) && r < |s.readers| && q < |s.readers|
    requires s.readers[r].pc.Ready? && !s.readers[r].fromBeginning && s.readers[q].pc.Ready? && s.readers[q].fromBeginning
    ensures CanReach(env, s, t) && KeepsWrong(t, x, j) && x in {r, q}
  {
    LentIndex(env, s);
    var i := s.ring.WriteIdx() - env.cfg.cap;
    var bytes := s.log[i].slot.data + [0];
    assert s.log[i].slot == s.ring.committed[i];
    assert |bytes| != |s.log[i].slot.data|;
    if s.oldestSeq <= i {
      x := r;
      t := RefilledIsTaken(env, s, r, i, bytes);
    } else {
      x := q;
      t := RefilledIsLocked(env, s, q, i, bytes);
    }
    j := s.readers[x].taken;
  }

  /** Other bytes in a buffer that a reader keeps: it keeps the wrong ones at once. */
  lemma RefilledIsKept(env: Env, s: World, r: nat, j: nat, bytes: seq<int>)
    requires Shaped(env, s) && Enabled(env, s, WFill(bytes)) && r < |s.readers| && j in s.readers[r].kept
    requires var e := s.readers[r].kept[j];
             e.b == s.hand.b && e.idx < |s.ring.committed| && bytes != s.ring.committed[e.idx].data
    ensures KeepsWrong(Do(env, s, WFill(bytes)), r, j)
  {
  }

  // ---- dropped buffers

  /** A frame is refused whose buffer was lent: if lock-free readers may still take what the slot shows, the next
      one applies `try_ref` to a buffer that is no longer live. */
  lemma DeadBufferIsMet(env: Env, s: World, f: Frame, r: nat) returns (t: World)
    requires Inv(env, s) && Enabled(env, s, WReject(f)) && s.hand.Lent? && r < |s.readers| && s.readers[r].pc.Ready?
    requires Owners(s.refs, s.hand.b) == {InCell(Target(env, s))}
    requires !s.readers[r].fromBeginning && s.readers[r].readIdx == s.writeSeq - env.cfg.cap >= s.oldestSeq
    ensures CanReach(env, Do(env, s, WReject(f)), t)
    ensures r < |t.readers| && t.readers[r].pc.Copied? && !Live(t, t.readers[r].pc.b)
  {
    DeadSlot(env, s, f, r);
    hide CanLook, CanReach, Inv, Do, Enabled, Live, Owners, AtPc;
    var d := Do(env, s, WReject(f));
    LookEnds(env, d, r);
    t := AtPc(d, r, Copied(CellOf(env, d, r).seqno, s.hand.b, CellOf(env, d, r).words), true);
    StillDead(d, r, CellOf(env, d, r).seqno, s.hand.b, CellOf(env, d, r).words);
  }

  lemma StillDead(d: World, r: nat, s1: nat, b: BufId, words: seq<Word>)
    requires r < |d.readers| && !Live(d, b)
    ensures var t := AtPc(d, r, Copied(s1, b, words), true);
            r < |t.readers| && t.readers[r].pc == Copied(s1, b, words) && !Live(t, b)
  {
  }

  /** The slot still shows the dead buffer. */
  lemma DeadSlot(env: Env, s: World, f: Frame, r: nat)
    requires Inv(env, s) && Enabled(env, s, WReject(f)) && s.hand.Lent? && r < |s.readers| && s.readers[r].pc.Ready?
    requires Owners(s.refs, s.hand.b) == {InCell(Target(env, s))}
    requires !s.readers[r].fromBeginning && s.readers[r].readIdx == s.writeSeq - env.cfg.cap >= s.oldestSeq
    ensures var d := Do(env, s, WReject(f));
            CanLook(env, d, r) && CellOf(env, d, r).buf == Some(s.hand.b) && !Live(d, s.hand.b)
  {
    LentIndex(env, s);
    var d, i := Do(env, s, WReject(f)), s.readers[r].readIdx;
    SlotCanBeTaken(env, s, i);
    assert ReaderOk(env, s, r);
    hide RingInv, CellsOk, LogOk, RefsOk, PhaseOk, GuardOk;
    assert CellOf(env, d, r) == s.cells[i % env.cfg.cap];
    assert Owners(d.refs, s.hand.b) == {};
  }

  // ---- a commit from beginning to end, with nobody else moving

  /** What the writer will have made of ring, log and references when it is done. */
  datatype Result = Result(ring: Ring, log: seq<Pub>, refs: map<BufId, set<Owner>>)

  function Released(refs: map<BufId, set<Owner>>, was: Option<BufId>): map<BufId, set<Owner>> {
    if was.Some? then DropRef(refs, was.value, Retired) else refs
  }

  /** The references when slot `k` has got buffer `b` and the old one is released. */
  function Replaced(refs: map<BufId, set<Owner>>, k: nat, was: Option<BufId>, b: BufId, n: nat): map<BufId, set<Owner>> {
    Released(Exchange(refs, k, was, b, n), if was == Some(b) then None else was)
  }

  function Outcome(env: Env, s: World): Result
    requires 0 < env.cfg.cap == |s.cells|
  {
    var k := Target(env, s);
    match s.writer
    case Idle => Result(s.ring, s.log, s.refs)
    case Announcing(f, _) =>
      if s.hand.Nothing? then Result(s.ring, s.log, s.refs)
      else Result(Store(env.cfg, env.pol, Seen(s, f), f), s.log + [Pub(Stored(f), s.hand.b)],
                  Replaced(s.refs, k, s.cells[k].buf, s.hand.b, |s.log| + 1))
    case Filling(f, prev, n) =>
      Result(Store(env.cfg, env.pol, Seen(s, f), f), s.log,
             if n == 0 && |s.log| > 0 then Replaced(s.refs, k, s.cells[k].buf, s.log[|s.log| - 1].buf, |s.log|)
             else Released(s.refs, prev))
    case Scanning(f, was, _) => Result(Store(env.cfg, env.pol, Seen(s, f), f), s.log, Released(s.refs, Some(was)))
    case Releasing(f, was) => Result(Store(env.cfg, env.pol, Seen(s, f), f), s.log, Released(s.refs, Some(was)))
    case Settling(f, _) => Result(Store(env.cfg, env.pol, Seen(s, f), f), s.log, s.refs)
  }

  function Phase(w: Writer): nat {
    match w
    case Idle => 0
    case Settling(_, _) => 1
    case Releasing(_, _) => 2
    case Scanning(_, _, _) => 3
    case Filling(_, _, _) => 4
    case Announcing(_, _) => 5
  }

  function ToGo(env: Env, s: World): nat {
    match s.writer
    case Announcing(f, k) => if k < Early(env, s, f) then Early(env, s, f) - k else 0
    case Filling(_, _, n) => if n <= WORDS then WORDS + 1 - n else 0
    case Scanning(_, _, i) => if i < env.readers then env.readers - i else 0
    case Settling(f, k) => if k < |Oldests(env, s, f)| then |Oldests(env, s, f)| - k else 0
    case _ => 0
  }

  ghost predicate NobodyLooks(s: World) {
    forall r :: 0 <= r < |s.readers| ==> !s.readers[r].inCs
  }

  ghost predicate Advances(env: Env, s: World, t: World)
    requires 0 < env.cfg.cap == |s.cells| == |t.cells|
  {
    && Outcome(env, t) == Outcome(env, s) && t.readers == s.readers && t.clean == s.clean && (t.writer.Idle? ==> t.hand.Nothing?)
    && (Phase(t.writer) < Phase(s.writer) || (Phase(t.writer) == Phase(s.writer) && ToGo(env, t) < ToGo(env, s)))
  }

  lemma AnnouncingAdvances(env: Env, s: World)
    requires Dims(env, s) && s.writer.Announcing? && !s.hand.Nothing?
    ensures Advances(env, s, WriterStep(env, s))
  {
    hide Store, Prepare, Exchange, RingInv;
    var f, k := s.writer.f, s.writer.k;
    if k < Early(env, s, f) {
      assert WriterStep(env, s) == StoreOldest(env, s, f, k).(writer := Announcing(f, k + 1));
    } else {
      assert WriterStep(env, s) == BeginFill(env, s, f);
    }
  }

  lemma PointerAdvances(env: Env, s: World, f: Frame, prev: Option<BufId>)
    requires Dims(env, s) && LogOk(s) && CellsOk(env, s) && s.writer == Filling(f, prev, 0)
    ensures Advances(env, s, StoreBuf(env, s, f, prev))
  {
    PrevIsShown(env, s, f, prev);
    hide Store, Prepare, Exchange, RingInv, CellOk, CellsOk;
  }

  lemma WordAdvances(env: Env, s: World, f: Frame, prev: Option<BufId>, n: nat)
    requires Dims(env, s) && s.writer == Filling(f, prev, n) && 1 <= n <= WORDS && |s.log| > 0
    requires |s.cells[Target(env, s)].words| == WORDS
    ensures Advances(env, s, StoreWord(env, s, f, prev, n))
  {
    hide Store, Prepare, Exchange, RingInv, Words;
  }

  lemma EndAdvances(env: Env, s: World, f: Frame, prev: Option<BufId>, n: nat)
    requires Dims(env, s) && s.writer == Filling(f, prev, n) && n > WORDS && |s.log| > 0
    ensures Advances(env, s, EndFill(env, s, f, prev))
  {
    hide Store, Prepare, Exchange, RingInv;
  }

  lemma FillingAdvances(env: Env, s: World)
    requires Dims(env, s) && LogOk(s) && CellsOk(env, s) && s.writer.Filling? && s.writer.n > 0
    ensures Advances(env, s, WriterStep(env, s))
  {
    assert CellOk(env, s, Target(env, s));
    var f, prev, n := s.writer.f, s.writer.prev, s.writer.n;
    hide Advances, StableCell, HistOk, CellOk, CellsOk, LogOk, RingInv;
    assert |s.log| > 0;
    if n <= WORDS { WordAdvances(env, s, f, prev, n); } else { EndAdvances(env, s, f, prev, n); }
  }

  lemma ScanAdvances(env: Env, s: World)
    requires Dims(env, s) && s.writer.Scanning? && NobodyLooks(s)
    ensures Advances(env, s, WriterStep(env, s))
  {
    hide Store, Prepare, RingInv;
  }

  lemma SettlingAdvances(env: Env, s: World)
    requires Dims(env, s) && (s.writer.Releasing? || s.writer.Settling?) && HandOk(env, s)
    ensures Advances(env, s, WriterStep(env, s))
  {
    hide Store, Prepare, RingInv;
  }

  /** With no reader in its section, the writer finishes its commit by its own steps. */
  lemma {:induction false} WriterFinishes(env: Env, s: World) returns (t: World)
    requires Inv(env, s) && Shaped(env, s) && NobodyLooks(s)
    ensures Inv(env, t) && CanReach(env, s, t) && t.writer.Idle? && Outcome(env, t) == Outcome(env, s)
    ensures t.readers == s.readers && t.clean == s.clean && (if s.writer.Idle? then t == s else t.hand.Nothing?)
    decreases Phase(s.writer), ToGo(env, s)
  {
    hide Inv, WriterStep, Outcome, ToGo, CanReach, Do, Phase, Enabled;
    if s.writer.Idle? {
      ReachSame(env, s);
      return s;
    }
    OneWriterStep(env, s);
    var u := WriterStep(env, s);
    t := WriterFinishes(env, u);
    ReachOn(env, s, u, t);
  }

  lemma IsWriterStep(env: Env, s: World)
    requires Shaped(env, s) && !s.writer.Idle?
    ensures Enabled(env, s, WStep) && Do(env, s, WStep) == WriterStep(env, s)
  {
    hide WriterStep;
  }

  lemma OneWriterStep(env: Env, s: World)
    requires Inv(env, s) && Shaped(env, s) && !s.writer.Idle? && NobodyLooks(s)
    ensures var u := WriterStep(env, s); Inv(env, u) && Shaped(env, u) && CanReach(env, s, u) && Advances(env, s, u)
  {
    WriterAdvances(env, s);
    IsWriterStep(env, s);
    hide Inv, WriterStep, Do, CanReach, Advances;
    StepKeeps(env, s, WStep);
    ReachStep(env, s, WStep);
  }

  lemma WriterAdvances(env: Env, s: World)
    requires Inv(env, s) && !s.writer.Idle? && NobodyLooks(s)
    ensures Advances(env, s, WriterStep(env, s))
  {
    hide Advances, RingInv, Store, Prepare, CellsOk, RefsOk, ReadersOk, LogOk;
    if s.writer.Announcing? {
      AnnouncingAdvances(env, s);
    } else if s.writer.Filling? && s.writer.n == 0 {
      PointerAdvances(env, s, s.writer.f, s.writer.prev);
      assert |s.log| > 0 by { PrevIsShown(env, s, s.writer.f, s.writer.prev); }
      assert WriterStep(env, s) == StoreBuf(env, s, s.writer.f, s.writer.prev);
    } else if s.writer.Filling? {
      FillingAdvances(env, s);
    } else if s.writer.Scanning? {
      ScanAdvances(env, s);
    } else {
      SettlingAdvances(env, s);
    }
  }

  /** The buffer taken and filled, and the commit begun. */
  lemma CommitBegins(env: Env, s: World, b: BufId, f: Frame) returns (t: World)
    requires Inv(env, s) && s.writer.Idle? && s.hand.Nothing? && Accepts(env.pol, Seen(s, f), f)
    ensures Inv(env, t) && CanReach(env, s, t)
    ensures t == s.(hand := Own(b), refs := s.refs[b := Owners(s.refs, b) + {Producer}], data := t.data,
                    writer := Announcing(f, |s.ring.published|), clean := s.clean && !Stuck(env.cfg, s.ring))
  {
    hide CanReach, RingInv, CellsOk, ReadersOk, RefsOk, LogOk, PhaseOk, GuardOk;
    var s1 := Do(env, s, WTake(b));
    StepKeeps(env, s, WTake(b));
    ReachStep(env, s, WTake(b));
    var s2 := Do(env, s1, WFill(f.data));
    StepKeeps(env, s1, WFill(f.data));
    ReachNext(env, s, s1, WFill(f.data));
    t := Do(env, s2, WBegin(f));
    StepKeeps(env, s2, WBegin(f));
    ReachNext(env, s, s2, WBegin(f));
  }

  lemma CommitRuns(env: Env, s: World, b: BufId, f: Frame) returns (t: World)
    requires Inv(env, s) && s.writer.Idle? && s.hand.Nothing? && NobodyLooks(s) && Accepts(env.pol, Seen(s, f), f)
    ensures Inv(env, t) && CanReach(env, s, t) && t.writer.Idle? && t.hand.Nothing? && t.readers == s.readers
    ensures t.ring == Store(env.cfg, env.pol, Seen(s, f), f) && t.log == s.log + [Pub(Stored(f), b)]
    ensures var k := Target(env, s);
            t.refs == Replaced(s.refs[b := Owners(s.refs, b) + {Producer}], k, s.cells[k].buf, b, |s.log| + 1)
    ensures t.clean == (s.clean && !Stuck(env.cfg, s.ring))
  {
    var s3 := CommitBegins(env, s, b, f);
    CommitOutcome(env, s, s3, b, f);
    hide CanReach, Outcome, Replaced, Store, RingInv, CellsOk, ReadersOk, RefsOk, LogOk, PhaseOk, GuardOk, HandOk;
    t := WriterFinishes(env, s3);
    ReachOn(env, s, s3, t);
    CommitDone(env, t);
  }

  lemma CommitOutcome(env: Env, s: World, s3: World, b: BufId, f: Frame)
    requires Shaped(env, s) && s.writer.Idle?
    requires s3 == s.(hand := Own(b), refs := s.refs[b := Owners(s.refs, b) + {Producer}], data := s3.data,
                      writer := Announcing(f, |s.ring.published|), clean := s3.clean)
    ensures var k := Target(env, s);
            Outcome(env, s3) == Result(Store(env.cfg, env.pol, Seen(s, f), f), s.log + [Pub(Stored(f), b)],
              Replaced(s.refs[b := Owners(s.refs, b) + {Producer}], k, s.cells[k].buf, b, |s.log| + 1))
  {
    hide Store, Replaced;
  }

  lemma CommitDone(env: Env, t: World)
    requires Shaped(env, t) && t.writer.Idle?
    ensures Outcome(env, t) == Result(t.ring, t.log, t.refs)
  {
  }

  // ---- a stream that is configured, again and again, and never begins a GOP

  /** A configuration frame that must not be dropped. */
  predicate ConfigFrame(f: Frame) {
    |f.data| > 0 && f.track == Video && f.config && !f.droppable
  }

  lemma ConfigStores(cfg: Config, s: Ring, f: Frame)
    requires cfg.Valid() && ConfigFrame(f) && |s.gops| == 0
    ensures SeeFrame(s, f) == s && Accepts(DefaultPolicy(), s, f)
    ensures var t := Store(cfg, DefaultPolicy(), s, f);
            && |t.gops| == 0 && t.published == s.published && t.committed == s.committed + [Stored(f)]
            && t.count == (if s.count < cfg.cap then s.count + 1 else s.count) && t.cacheStarted == s.cacheStarted
  {
    assert Prepare(cfg, DefaultPolicy(), s, f) == s;
    var u := StoreFrame(cfg, s, f);
    assert Settle(cfg, DefaultPolicy(), u, f) == NoteKey(DefaultPolicy(), u, f);
  }

  /** After `n` such frames in the buffers 0, 1, ... of an empty ring. */
  ghost predicate Configured(env: Env, s: World, f: Frame, n: nat) {
    && Inv(env, s) && s.writer.Idle? && s.hand.Nothing? && NobodyLooks(s) && s.clean && n <= env.cfg.cap
    && |s.ring.gops| == 0 && s.ring.OldestSeq() == 0 && s.ring.count == s.ring.WriteIdx() == n && !s.ring.cacheStarted
    && (forall i :: 0 <= i < n ==> s.ring.committed[i] == Stored(f))
    && forall c: nat :: Owners(s.refs, c) == if c < n then {InCell(c)} else {}
  }

  lemma FirstLap(i: nat, cap: nat)
    requires i < cap
    ensures i % cap == i
  {
  }

  /** A slot that has not been reached shows nothing. */
  lemma EmptySlot(env: Env, s: World)
    requires Inv(env, s) && s.writer.Idle? && s.ring.WriteIdx() < env.cfg.cap
    ensures Target(env, s) == s.ring.WriteIdx() && s.cells[Target(env, s)].buf == None
  {
    hide RingInv, RefsOk, ReadersOk, PhaseOk, GuardOk, Words;
    var w := s.ring.WriteIdx();
    FirstLap(w, env.cfg.cap);
    assert CellOk(env, s, w);
    if |s.cells[w].hist| > 0 { FirstLap(s.cells[w].hist[0], env.cfg.cap); }
  }

  lemma ConfigCommit(env: Env, s: World, f: Frame, n: nat) returns (t: World)
    requires env.pol == DefaultPolicy() && ConfigFrame(f) && n < env.cfg.cap && Configured(env, s, f, n)
    ensures Configured(env, t, f, n + 1) && CanReach(env, s, t) && t.readers == s.readers
  {
    ConfigStores(env.cfg, s.ring, f);
    EmptySlot(env, s);
    t := CommitRuns(env, s, n, f);
    hide Inv, CanReach, Store, Accepts;
    FreshOwner(s.refs, n, n, |s.log| + 1);
  }

  lemma FreshOwner(refs: map<BufId, set<Owner>>, k: nat, b: BufId, n: nat)
    requires Owners(refs, b) == {}
    ensures var t := Replaced(refs[b := Owners(refs, b) + {Producer}], k, None, b, n);
            forall c :: Owners(t, c) == if c == b then {InCell(k)} else Owners(refs, c)
  {
  }

  lemma {:induction false} ConfigCommits(env: Env, s: World, f: Frame, n: nat) returns (t: World)
    requires env.pol == DefaultPolicy() && ConfigFrame(f) && n <= env.cfg.cap && Configured(env, s, f, 0)
    ensures Configured(env, t, f, n) && CanReach(env, s, t) && t.readers == s.readers
    decreases n
  {
    if n == 0 {
      ReachSame(env, s);
      t := s;
    } else {
      var u := ConfigCommits(env, s, f, n - 1);
      t := ConfigCommit(env, u, f, n - 1);
      ReachOn(env, s, u, t);
    }
  }

  lemma StartsConfigured(env: Env, target: nat, cacheMs: nat, begins: seq<bool>, f: Frame)
    requires env.cfg.Valid() && |begins| == env.readers
    ensures Configured(env, Start(env, target, cacheMs, begins), f, 0)
  {
    StartInv(env, target, cacheMs, begins);
  }

  /** What can be reached from the start is reachable. */
  lemma FromStart(env: Env, target: nat, cacheMs: nat, begins: seq<bool>, t: World)
    requires env.cfg.Valid() && |begins| == env.readers && CanReach(env, Start(env, target, cacheMs, begins), t)
    ensures SeqlockRuns.Reachable(env, t)
  {
    var start := Start(env, target, cacheMs, begins);
    var steps :| Path(env, start, steps, t);
    assert Leads(env, target, cacheMs, begins, steps, t);
  }

  /** As many frames as the ring holds, all of them configurations. */
  lemma FullOfConfigs(env: Env, target: nat, cacheMs: nat, begins: seq<bool>, f: Frame) returns (s: World)
    requires env.cfg.Valid() && env.pol == DefaultPolicy() && |begins| == env.readers && ConfigFrame(f)
    ensures Configured(env, s, f, env.cfg.cap) && CanReach(env, Start(env, target, cacheMs, begins), s)
    ensures s.readers == Start(env, target, cacheMs, begins).readers
  {
    StartsConfigured(env, target, cacheMs, begins, f);
    s := ConfigCommits(env, Start(env, target, cacheMs, begins), f, env.cfg.cap);
  }

  /** One frame more, `g`, and a lock-free reader is given, at index 0, the frame committed at index `cap`. */
  lemma WrongFrameIsDelivered(env: Env, target: nat, cacheMs: nat, begins: seq<bool>, r: nat, f: Frame, g: Frame) returns (t: World)
    requires env.cfg.Valid() && env.pol == DefaultPolicy() && |begins| == env.readers && r < |begins| && !begins[r]
    requires ConfigFrame(f) && ConfigFrame(g)
    ensures SeqlockRuns.Reachable(env, t) && r < |t.readers| && |t.ring.committed| == env.cfg.cap + 1
    ensures t.ring.committed[0] == Stored(f) && t.ring.committed[env.cfg.cap] == Stored(g)
    ensures var b := env.cfg.cap; t.readers[r].delivered == [Delivery(0, b, Words(Pub(Stored(g), b)))]
  {
    var start, b := Start(env, target, cacheMs, begins), env.cfg.cap;
    var s := FullOfConfigs(env, target, cacheMs, begins, f);
    ConfigStores(env.cfg, s.ring, g);
    var u := CommitRuns(env, s, b, g);
    SlotZero(env, u, r);
    t := TakeSucceeds(env, u, r);
    ReachOn(env, start, s, u);
    ReachOn(env, start, u, t);
    FromStart(env, target, cacheMs, begins, t);
  }

  /** The slot of index 0 shows the frame of index `cap`. */
  lemma SlotZero(env: Env, u: World, r: nat)
    requires Inv(env, u) && u.writer.Idle? && u.ring.WriteIdx() == env.cfg.cap + 1 && u.ring.OldestSeq() == 0
    requires r < |u.readers| && u.readers[r].pc.Ready? && u.readers[r].readIdx == 0 && !u.readers[r].fromBeginning
    ensures CanLook(env, u, r)
    ensures var c := CellOf(env, u, r);
            c.buf == Some(u.log[env.cfg.cap].buf) && c.words == Words(u.log[env.cfg.cap]) && Live(u, c.buf.value)
  {
    assert env.cfg.cap % env.cfg.cap == 0 == 0 % env.cfg.cap;
    SlotCanBeTaken(env, u, env.cfg.cap);
    assert ReaderOk(env, u, r);
  }

  /** The next hand-out is then the buffer of a frame that all readers may still take. */
  lemma LentInReach(env: Env, target: nat, cacheMs: nat, begins: seq<bool>, f: Frame) returns (s: World)
    requires env.cfg.Valid() && env.pol == DefaultPolicy() && |begins| == env.readers && ConfigFrame(f)
    ensures SeqlockRuns.Reachable(env, s) && Inv(env, s) && s.clean && s.writer.Idle? && s.hand.Lent? && !OutOfReach(env, s)
    ensures Owners(s.refs, s.hand.b) == {InCell(Target(env, s))} && s.oldestSeq == 0 && s.writeSeq == env.cfg.cap
    ensures s.readers == Start(env, target, cacheMs, begins).readers && !s.ring.cacheStarted
  {
    var start := Start(env, target, cacheMs, begins);
    var a := FullOfConfigs(env, target, cacheMs, begins, f);
    LapKeepsSlot(0, env.cfg.cap);
    SlotCanBeTaken(env, a, 0);
    assert HasRef(a, a.log[0].buf, InCell(0));
    assert Spare(env, a) == Some(a.log[0].buf);
    s := Do(env, a, WLend);
    StepKeeps(env, a, WLend);
    ReachNext(env, start, a, WLend);
    FromStart(env, target, cacheMs, begins, s);
  }

  /** A frame comes that cannot be stored before the first key frame: its refusal kills a buffer that the next
      lock-free reader tries to get hold of. */
  lemma DeadBufferHappens(env: Env, target: nat, cacheMs: nat, begins: seq<bool>, r: nat, f: Frame, h: Frame)
    returns (s: World, t: World)
    requires env.cfg.Valid() && env.pol == DefaultPolicy() && |begins| == env.readers && r < |begins| && !begins[r]
    requires ConfigFrame(f) && PlainVideo(h)
    ensures SeqlockRuns.Reachable(env, s) && Shaped(env, s) && Enabled(env, s, WReject(h)) && Spoils(s, WReject(h))
    ensures CanReach(env, Do(env, s, WReject(h)), t)
    ensures r < |t.readers| && t.readers[r].pc.Copied? && !Live(t, t.readers[r].pc.b)
  {
    s := LentInReach(env, target, cacheMs, begins, f);
    assert ReaderOk(env, s, r);
    t := DeadBufferIsMet(env, s, h, r);
  }
}
