/** Every load, store and reference operation of a reader keeps the invariant of the shared ring. */
module SeqlockReader {
  import opened GopRing
  import opened GopQueue
  import opened Wrappers
  import opened Seqlock
  import opened SeqlockSafety

  predicate OwnedBy(o: Owner, r: nat) {
    (o.Local? || o.Kept?) && o.r == r
  }

  /** `t` is `s` after a move of reader `r` alone. */
  ghost predicate Moved(s: World, t: World, r: nat) {
    && r < |s.readers| == |t.readers|
    && t == s.(readers := t.readers, refs := t.refs)
    && (forall q :: 0 <= q < |s.readers| && q != r ==> t.readers[q] == s.readers[q])
    && t.refs.Keys == s.refs.Keys
    && (forall b, o :: HasRef(s, b, o) && !OwnedBy(o, r) ==> HasRef(t, b, o))
  }

  lemma MoveKeeps(env: Env, s: World, t: World, r: nat)
    requires Inv(env, s) && Moved(s, t, r) && ReaderOk(env, t, r)
    ensures Inv(env, t)
  {
    MoveCells(env, s, t, r);
    OthersStay(env, s, t, r);
    MoveRefs(env, s, t, r);
  }

  lemma MoveCells(env: Env, s: World, t: World, r: nat)
    requires Sized(env, s) && CellsOk(env, s) && PhaseOk(env, s) && Moved(s, t, r)
    ensures Sized(env, t) && CellsOk(env, t) && PhaseOk(env, t)
  {
    hide RingInv, Store, Prepare, StableCell, FillingCell, HistOk;
    forall k | 0 <= k < |t.cells| ensures CellOk(env, t, k) { assert CellOk(env, s, k); }
  }

  lemma MoveRefs(env: Env, s: World, t: World, r: nat)
    requires Dims(env, s) && RefsOk(env, s) && HandOk(env, s) && LogOk(s) && Moved(s, t, r)
    ensures RefsOk(env, t) && HandOk(env, t) && LogOk(t)
  {
  }

  lemma OthersStay(env: Env, s: World, t: World, r: nat)
    requires Dims(env, s) && ReadersOk(env, s) && Moved(s, t, r)
    ensures forall q :: 0 <= q < |t.readers| && q != r ==> ReaderOk(env, t, q)
  {
    hide DeliveredOk, KeptOk, FromOne, CopyOk, Protected;
    forall q | 0 <= q < |t.readers| && q != r ensures ReaderOk(env, t, q) {
      OtherStays(env, s, t, r, q);
    }
  }

  lemma OtherStays(env: Env, s: World, t: World, r: nat, q: nat)
    requires Dims(env, s) && Moved(s, t, r) && q < |s.readers| && q != r && ReaderOk(env, s, q)
    ensures ReaderOk(env, t, q)
  {
    var rd := s.readers[q];
    KeptStays(s, t, q, rd.kept, rd.taken);
    hide DeliveredOk, KeptOk, FromOne, CopyOk;
    assert BarePointer(rd.pc).Some? ==> Protected(env, t, q, rd.readIdx % env.cfg.cap, BarePointer(rd.pc).value);
  }

  /** A change of program counter, and nothing else, to one that carries no data. */
  lemma PlainGoto(env: Env, s: World, r: nat, pc: Pc)
    requires Inv(env, s) && r < |s.readers|
    requires pc.SawNew? || pc.Entering? || pc.NeedLock? || pc == Leaving(Busy) || pc.Ready?
    requires InSection(pc) == s.readers[r].inCs
    requires LockFree(pc) ==> s.readers[r].readIdx < s.ring.WriteIdx()
    ensures Inv(env, Goto(s, r, pc))
  {
    hide RingInv, Oldests, Early, DeliveredOk, KeptOk;
    assert ReaderOk(env, s, r);
    MoveKeeps(env, s, Goto(s, r, pc), r);
  }

  lemma EnterKeeps(env: Env, s: World, r: nat)
    requires Inv(env, s) && r < |s.readers| && s.readers[r].pc.Entering?
    ensures Inv(env, ReaderStep(env, s, r))
  {
    assert ReaderOk(env, s, r);
    MoveKeeps(env, s, ReaderStep(env, s, r), r);
  }

  /** The first look: an even sequence number belongs to a publication not older than the index. */
  lemma FirstLookOk(env: Env, s: World, r: nat)
    requires Dims(env, s) && LogOk(s) && CellsOk(env, s) && r < |s.readers| && s.readers[r].pc.InCs? && ReaderOk(env, s, r)
    ensures ReaderOk(env, ReaderStep(env, s, r), r)
  {
    hide RingInv, Oldests, Early, DeliveredOk, KeptOk;
    var k := s.readers[r].readIdx % env.cfg.cap;
    var c := s.cells[k];
    assert CellOk(env, s, k);
    if c.seqno % 2 == 0 {
      assert c.seqno == 2 * |c.hist| && |c.hist| > 0 && s.readers[r].readIdx <= c.hist[|c.hist| - 1];
      assert CopyOk(c, s.readers[r].readIdx, c.seqno, None, map[]);
    }
  }

  lemma FirstLookKeeps(env: Env, s: World, r: nat)
    requires Inv(env, s) && r < |s.readers| && s.readers[r].pc.InCs?
    ensures Inv(env, ReaderStep(env, s, r))
  {
    FirstLookOk(env, s, r);
    MoveKeeps(env, s, ReaderStep(env, s, r), r);
  }

  lemma LoadOk(env: Env, s: World, r: nat, w: nat)
    requires Dims(env, s) && r < |s.readers| && s.readers[r].pc.Copying? && ReaderOk(env, s, r)
    ensures ReaderOk(env, LoadWord(env, s, r, w), r)
  {
    hide RingInv, Oldests, Early, DeliveredOk, KeptOk;
  }

  lemma LoadMoves(env: Env, s: World, r: nat, w: nat)
    requires Dims(env, s) && r < |s.readers|
    ensures Moved(s, LoadWord(env, s, r, w), r)
  {
  }

  lemma LoadKeeps(env: Env, s: World, r: nat, w: nat)
    requires Inv(env, s) && r < |s.readers| && s.readers[r].pc.Copying?
    ensures Inv(env, LoadWord(env, s, r, w))
  {
    assert ReaderOk(env, s, r);
    LoadOk(env, s, r, w);
    LoadMoves(env, s, r, w);
    MoveKeeps(env, s, LoadWord(env, s, r, w), r);
  }

  /** A slot with an even number shows its last publication. */
  lemma EvenSlot(env: Env, s: World, k: nat)
    requires Dims(env, s) && LogOk(s) && CellsOk(env, s) && k < |s.cells| && s.cells[k].seqno % 2 == 0 && |s.cells[k].hist| > 0
    ensures var c := s.cells[k]; var j := c.hist[|c.hist| - 1];
            && c.seqno == 2 * |c.hist| && j < |s.log| && j % env.cfg.cap == k
            && c.buf == Some(s.log[j].buf) && c.words == Words(s.log[j]) && |s.log[j].slot.data| > 0
  {
    assert CellOk(env, s, k);
  }

  /** A complete copy of an unchanged slot `c` that shows publication `j`. */
  lemma CopyShows(cap: nat, log: seq<Pub>, c: Cell, i: nat, j: nat, pc: Pc)
    requires cap > 0 && AllLoaded(pc) && CopyOk(c, i, pc.s1, pc.buf, pc.got) && pc.s1 == c.seqno == 2 * |c.hist|
    requires |c.hist| > 0 && j == c.hist[|c.hist| - 1] && j < |log| && j % cap == i % cap
    requires c.buf == Some(log[j].buf) && c.words == Words(log[j]) && |log[j].slot.data| > 0
    ensures pc.buf.value.Some? && Assembled(pc)[LEN_WORD] != Num(0)
    ensures FromOne(cap, log, i, pc.buf.value.value, Assembled(pc))
  {
    assert Assembled(pc) == c.words;
    assert Words(log[j])[LEN_WORD] == Num(|log[j].slot.data|);
  }

  lemma CopyingOk(env: Env, s: World, r: nat)
    requires Inv(env, s) && r < |s.readers| && s.readers[r].pc.Copying?
    ensures Dims(env, s) && LogOk(s) && CellsOk(env, s)
    ensures var rd := s.readers[r];
            CopyOk(CellOf(env, s, r), rd.readIdx, rd.pc.s1, rd.pc.buf, rd.pc.got) && |CellOf(env, s, r).hist| > 0
  {
    hide RingInv, CellsOk, LogOk, RefsOk, DeliveredOk, KeptOk, Protected;
    assert ReaderOk(env, s, r);
  }

  /** A copy that saw the same even number twice is one whole publication. */
  lemma CopyIsWhole(env: Env, s: World, r: nat)
    requires Inv(env, s) && r < |s.readers| && AllLoaded(s.readers[r].pc)
    requires var pc := s.readers[r].pc; pc.s1 == CellOf(env, s, r).seqno && pc.s1 % 2 == 0
    ensures s.readers[r].pc.buf.value.Some? && Assembled(s.readers[r].pc)[LEN_WORD] != Num(0)
    ensures FromOne(env.cfg.cap, s.log, s.readers[r].readIdx, s.readers[r].pc.buf.value.value, Assembled(s.readers[r].pc))
  {
    var rd := s.readers[r];
    var k := rd.readIdx % env.cfg.cap;
    CopyingOk(env, s, r);
    hide FromOne, Assembled, AllLoaded, Inv, CellsOk, LogOk, CopyOk, Words;
    EvenSlot(env, s, k);
    CopyShows(env.cfg.cap, s.log, s.cells[k], rd.readIdx, s.cells[k].hist[|s.cells[k].hist| - 1], rd.pc);
  }

  lemma SecondLookKeeps(env: Env, s: World, r: nat)
    requires Inv(env, s) && r < |s.readers| && AllLoaded(s.readers[r].pc)
    ensures Inv(env, SecondLook(env, s, r))
  {
    hide RingInv, Oldests, Early, DeliveredOk, KeptOk;
    assert ReaderOk(env, s, r);
    var pc := s.readers[r].pc;
    if pc.s1 != CellOf(env, s, r).seqno || CellOf(env, s, r).seqno % 2 == 1 {
      PlainGoto(env, s, r, Leaving(Busy));
    } else {
      CopyIsWhole(env, s, r);
      MoveKeeps(env, s, SecondLook(env, s, r), r);
    }
  }

  /** `try_ref` is only ever applied to a live buffer. */
  lemma TryRefIsSafe(env: Env, s: World, r: nat)
    requires Inv(env, s) && r < |s.readers| && s.readers[r].pc.Copied?
    ensures Live(s, s.readers[r].pc.b)
  {
    hide RingInv, Oldests, Early, DeliveredOk, KeptOk;
    assert ReaderOk(env, s, r);
    var k := s.readers[r].readIdx % env.cfg.cap;
    var b := s.readers[r].pc.b;
    assert Protected(env, s, r, k, b);
    if s.cells[k].buf == Some(b) { assert HasRef(s, b, InCell(k)); } else { assert HasRef(s, b, Retired); }
  }

  lemma TryRefKeeps(env: Env, s: World, r: nat)
    requires Inv(env, s) && r < |s.readers| && s.readers[r].pc.Copied?
    ensures Inv(env, TryRef(s, r))
  {
    hide RingInv, Oldests, Early, DeliveredOk, KeptOk;
    TryRefIsSafe(env, s, r);
    assert ReaderOk(env, s, r);
    var t := TryRef(s, r);
    RefsMove(s, t, r, s.readers[r].pc.b, Local(r));
    KeptStays(s, t, r, s.readers[r].kept, s.readers[r].taken);
    MoveKeeps(env, s, t, r);
  }

  /** Adding or dropping a reference of one reader leaves all other references alone. */
  lemma RefsMove(s: World, t: World, r: nat, b: BufId, o: Owner)
    requires OwnedBy(o, r) && (t.refs == DropRef(s.refs, b, o) || t.refs == AddRef(s.refs, b, o))
    ensures t.refs.Keys == s.refs.Keys
    ensures forall c, p :: HasRef(s, c, p) && p != o ==> HasRef(t, c, p)
  {
  }

  lemma ThirdLookOk(env: Env, s: World, r: nat)
    requires Dims(env, s) && r < |s.readers| && s.readers[r].pc.Refd? && ReaderOk(env, s, r)
    ensures ReaderOk(env, ThirdLook(env, s, r), r) && Moved(s, ThirdLook(env, s, r), r)
  {
    hide RingInv, Oldests, Early, DeliveredOk, KeptOk;
    var t := ThirdLook(env, s, r);
    if t.readers[r].pc == Leaving(Busy) { RefsMove(s, t, r, s.readers[r].pc.b, Local(r)); }
    KeptStays(s, t, r, s.readers[r].kept, s.readers[r].taken);
  }

  lemma ThirdLookKeeps(env: Env, s: World, r: nat)
    requires Inv(env, s) && r < |s.readers| && s.readers[r].pc.Refd?
    ensures Inv(env, ThirdLook(env, s, r))
  {
    ThirdLookOk(env, s, r);
    MoveKeeps(env, s, ThirdLook(env, s, r), r);
  }

  lemma LeaveOk(env: Env, s: World, r: nat)
    requires Dims(env, s) && r < |s.readers| && s.readers[r].pc.Leaving? && ReaderOk(env, s, r)
    ensures ReaderOk(env, LeaveCs(s, r), r) && Moved(s, LeaveCs(s, r), r)
  {
    hide RingInv, Oldests, Early, DeliveredOk, KeptOk;
  }

  lemma LeaveKeeps(env: Env, s: World, r: nat)
    requires Inv(env, s) && r < |s.readers| && s.readers[r].pc.Leaving?
    ensures Inv(env, LeaveCs(s, r))
  {
    assert ReaderOk(env, s, r);
    LeaveOk(env, s, r);
    MoveKeeps(env, s, LeaveCs(s, r), r);
  }

  lemma NextLap(i: nat, j: nat, cap: nat)
    requires cap > 0 && i <= j && i % cap == j % cap
    ensures j == i || j >= i + cap
  {
    if j < i + cap { SameSlot(j, i, cap); }
  }

  /** In a clean run a take that passes the last test is the frame committed at that very index. */
  lemma RecheckIsExact(env: Env, s: World, r: nat)
    requires Inv(env, s) && r < |s.readers| && s.readers[r].pc.Took? && s.clean
    requires s.readers[r].readIdx >= s.oldestSeq
    ensures Exact(s.log, s.readers[r].readIdx, s.readers[r].pc.b, s.readers[r].pc.words)
  {
    hide RingInv, Oldests, Early, DeliveredOk, KeptOk;
    var rd := s.readers[r];
    assert ReaderOk(env, s, r);
    var j :| rd.readIdx <= j < |s.log| && j % env.cfg.cap == rd.readIdx % env.cfg.cap
             && rd.pc.b == s.log[j].buf && rd.pc.words == Words(s.log[j]);
    NextLap(rd.readIdx, j, env.cfg.cap);
  }

  lemma DeliverRefs(s: World, r: nat, idx: nat, b: BufId, words: seq<Word>)
    requires r < |s.readers| && b in s.refs
    ensures var t := Deliver(s, r, idx, b, words); var j := s.readers[r].taken;
            && t.refs.Keys == s.refs.Keys && HasRef(t, b, Kept(r, j))
            && forall c, p :: HasRef(s, c, p) && p != Local(r) ==> HasRef(t, c, p)
  {
    var m := s.(refs := DropRef(s.refs, b, Local(r)));
    RefsMove(s, m, r, b, Local(r));
    RefsMove(m, Deliver(s, r, idx, b, words), r, b, Kept(r, s.readers[r].taken));
  }

  lemma DeliveredAppends(cap: nat, log: seq<Pub>, w: nat, d: seq<Delivery>, readIdx: nat, clean: bool, e: Delivery)
    requires cap > 0 && DeliveredOk(cap, log, w, d, readIdx, clean) && readIdx <= e.idx < w
    requires FromOne(cap, log, e.idx, e.b, e.words) && (clean ==> Exact(log, e.idx, e.b, e.words))
    ensures DeliveredOk(cap, log, w, d + [e], e.idx + 1, clean)
  {
    hide FromOne, Exact;
  }

  lemma KeptAppends(s: World, t: World, r: nat, kept: map<nat, Delivery>, taken: nat, e: Delivery)
    requires KeptOk(s.refs, r, kept, taken) && HasRef(t, e.b, Kept(r, taken))
    requires forall c, p :: HasRef(s, c, p) && p != Local(r) ==> HasRef(t, c, p)
    ensures KeptOk(t.refs, r, kept[taken := e], taken + 1)
  {
    forall j | j in kept ensures HasRef(t, kept[j].b, Kept(r, j)) { assert HasRef(s, kept[j].b, Kept(r, j)); }
  }

  lemma DeliverOk(env: Env, s: World, r: nat, idx: nat, b: BufId, words: seq<Word>)
    requires Dims(env, s) && r < |s.readers| && ReaderOk(env, s, r)
    requires !s.readers[r].inCs && s.readers[r].readIdx <= idx < s.ring.WriteIdx() && b in s.refs
    requires FromOne(env.cfg.cap, s.log, idx, b, words) && (s.clean ==> Exact(s.log, idx, b, words))
    ensures ReaderOk(env, Deliver(s, r, idx, b, words), r) && Moved(s, Deliver(s, r, idx, b, words), r)
  {
    var t, rd, e := Deliver(s, r, idx, b, words), s.readers[r], Delivery(idx, b, words);
    DeliverRefs(s, r, idx, b, words);
    DeliveredAppends(env.cfg.cap, s.log, s.ring.WriteIdx(), rd.delivered, rd.readIdx, s.clean, e);
    KeptAppends(s, t, r, rd.kept, rd.taken, e);
    hide DeliveredOk, KeptOk, FromOne, Exact, RingInv;
  }

  lemma DeliverKeeps(env: Env, s: World, r: nat, idx: nat, b: BufId, words: seq<Word>)
    requires Inv(env, s) && r < |s.readers| && !s.readers[r].inCs && s.readers[r].readIdx <= idx < s.ring.WriteIdx()
    requires FromOne(env.cfg.cap, s.log, idx, b, words) && (s.clean ==> Exact(s.log, idx, b, words))
    requires b in s.refs
    ensures Inv(env, Deliver(s, r, idx, b, words))
  {
    assert ReaderOk(env, s, r);
    DeliverOk(env, s, r, idx, b, words);
    MoveKeeps(env, s, Deliver(s, r, idx, b, words), r);
  }

  lemma GiveUpOk(env: Env, s: World, r: nat)
    requires Dims(env, s) && r < |s.readers| && s.readers[r].pc.Took? && ReaderOk(env, s, r)
    ensures var t := Goto(s, r, NeedLock).(refs := DropRef(s.refs, s.readers[r].pc.b, Local(r)));
            ReaderOk(env, t, r) && Moved(s, t, r)
  {
    RefsMove(s, s.(refs := DropRef(s.refs, s.readers[r].pc.b, Local(r))), r, s.readers[r].pc.b, Local(r));
  }

  lemma RecheckKeeps(env: Env, s: World, r: nat)
    requires Inv(env, s) && r < |s.readers| && s.readers[r].pc.Took?
    ensures Inv(env, Recheck(s, r))
  {
    assert ReaderOk(env, s, r);
    var rd := s.readers[r];
    if rd.readIdx < s.oldestSeq {
      GiveUpOk(env, s, r);
      MoveKeeps(env, s, Recheck(s, r), r);
    } else {
      if s.clean { RecheckIsExact(env, s, r); }
      DeliverKeeps(env, s, r, rd.readIdx, rd.pc.b, rd.pc.words);
    }
  }

  lemma ReaderStepKeeps(env: Env, s: World, r: nat)
    requires Inv(env, s) && r < |s.readers|
    ensures Inv(env, ReaderStep(env, s, r))
  {
    assert ReaderOk(env, s, r);
    var rd := s.readers[r];
    match rd.pc
    case Ready => if rd.readIdx < s.writeSeq { PlainGoto(env, s, r, SawNew); }
    case SawNew => PlainGoto(env, s, r, if !rd.fromBeginning && rd.readIdx >= s.oldestSeq then Entering else NeedLock);
    case Entering => EnterKeeps(env, s, r);
    case InCs => FirstLookKeeps(env, s, r);
    case Copying(_, _, _) => if AllLoaded(rd.pc) { SecondLookKeeps(env, s, r); }
    case Copied(_, _, _) => TryRefKeeps(env, s, r);
    case Refd(_, _, _) => ThirdLookKeeps(env, s, r);
    case Leaving(_) => LeaveKeeps(env, s, r);
    case Took(_, _) => RecheckKeeps(env, s, r);
    case NeedLock =>
  }

  lemma {:induction false} FirstSyncBounds(env: Env, ring: Ring, i: nat, miss: nat)
    requires i <= ring.WriteIdx()
    ensures var x := FirstSync(env, ring, i, miss); x == miss || i <= x < ring.WriteIdx()
    decreases ring.WriteIdx() - i
  {
    if i < ring.WriteIdx() && !env.sync(ring.committed[i]) { FirstSyncBounds(env, ring, i + 1, miss); }
  }

  lemma LockedIdxBounds(env: Env, ring: Ring, rd: Reader, mux: bool)
    requires RingInv(env.cfg, ring)
    ensures var idx := LockedIdx(env, ring, rd, mux); idx >= rd.readIdx && idx >= ring.WriteIdx() - ring.count
  {
    var oldest := if rd.fromBeginning then ring.BeginningIdx() else ring.OldestIdx();
    var newest := if |ring.gops| > 0 then ring.gops[|ring.gops| - 1].start else oldest;
    var snap := if newest >= oldest then newest else oldest;
    FirstSyncBounds(env, ring, snap, snap);
  }

  /** Under the mutex, the slot of a kept index shows the frame committed at that index. */
  lemma LockedIsExact(env: Env, s: World, idx: nat)
    requires Inv(env, s) && s.writer.Idle? && s.ring.WriteIdx() - s.ring.count <= idx < s.ring.WriteIdx()
    ensures var c := s.cells[idx % env.cfg.cap];
            && c.buf.Some? && |c.words| == WORDS && c.words[LEN_WORD] != Num(0)
            && Exact(s.log, idx, c.buf.value, c.words) && c.buf.value in s.refs
  {
    var k := idx % env.cfg.cap;
    assert CellOk(env, s, k);
    var c := s.cells[k];
    var j := c.hist[|c.hist| - 1];
    NextLap(idx, j, env.cfg.cap);
    assert Words(s.log[j])[LEN_WORD] == Num(|s.log[j].slot.data|);
  }

  lemma TakeRefKeeps(env: Env, s: World, r: nat, b: BufId)
    requires Inv(env, s) && r < |s.readers|
    ensures Inv(env, s.(refs := AddRef(s.refs, b, Local(r))))
  {
    hide RingInv, Oldests, Early, DeliveredOk, KeptOk;
    var t := s.(refs := AddRef(s.refs, b, Local(r)));
    RefsMove(s, t, r, b, Local(r));
    assert ReaderOk(env, s, r);
    KeptStays(s, t, r, s.readers[r].kept, s.readers[r].taken);
    MoveKeeps(env, s, t, r);
  }

  lemma WaitKeeps(env: Env, s: World, r: nat, idx: nat)
    requires Inv(env, s) && r < |s.readers| && s.readers[r].pc.NeedLock? && idx >= s.readers[r].readIdx
    ensures Inv(env, WithReader(s, r, s.readers[r].(pc := Ready, readIdx := idx)))
  {
    assert ReaderOk(env, s, r);
    MoveKeeps(env, s, WithReader(s, r, s.readers[r].(pc := Ready, readIdx := idx)), r);
  }

  lemma LockedKeeps(env: Env, s: World, r: nat, mux: bool)
    requires Inv(env, s) && Enabled(env, s, RLocked(r, mux))
    ensures Inv(env, LockedTake(env, s, r, mux))
  {
    hide RingInv, Oldests, Early, DeliveredOk, KeptOk;
    assert ReaderOk(env, s, r);
    var rd := s.readers[r];
    var idx := LockedIdx(env, s.ring, rd, mux);
    LockedIdxBounds(env, s.ring, rd, mux);
    if idx >= s.ring.WriteIdx() {
      WaitKeeps(env, s, r, idx);
    } else {
      LockedIsExact(env, s, idx);
      var c := s.cells[idx % env.cfg.cap];
      var m := s.(refs := AddRef(s.refs, c.buf.value, Local(r)));
      TakeRefKeeps(env, s, r, c.buf.value);
      assert FromOne(env.cfg.cap, s.log, idx, c.buf.value, c.words);
      DeliverKeeps(env, m, r, idx, c.buf.value, c.words);
    }
  }

  lemma DropOk(env: Env, s: World, t: World, r: nat, j: nat)
    requires Dims(env, s) && r < |s.readers| && ReaderOk(env, s, r) && j in s.readers[r].kept
    requires t == WithReader(s, r, s.readers[r].(kept := s.readers[r].kept - {j}))
                  .(refs := DropRef(s.refs, s.readers[r].kept[j].b, Kept(r, j)))
    ensures ReaderOk(env, t, r) && Moved(s, t, r)
  {
    RefsMove(s, t, r, s.readers[r].kept[j].b, Kept(r, j));
  }

  /** A reader only ever drops a reference it holds. */
  lemma DropKeeps(env: Env, s: World, r: nat, j: nat)
    requires Inv(env, s) && Enabled(env, s, RDrop(r, j))
    ensures HasRef(s, s.readers[r].kept[j].b, Kept(r, j)) && Inv(env, Do(env, s, RDrop(r, j)))
  {
    assert ReaderOk(env, s, r);
    var t := Do(env, s, RDrop(r, j));
    DropOk(env, s, t, r, j);
    MoveKeeps(env, s, t, r);
  }

  lemma SeekKeeps(env: Env, s: World, r: nat, to: nat)
    requires Inv(env, s) && Enabled(env, s, RSeek(r, to))
    ensures Inv(env, Do(env, s, RSeek(r, to)))
  {
    assert ReaderOk(env, s, r);
    MoveKeeps(env, s, Do(env, s, RSeek(r, to)), r);
  }
}
