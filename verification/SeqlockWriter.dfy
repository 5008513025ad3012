/** Every store of the writer keeps the invariant of the shared ring. */
module SeqlockWriter {
  import opened GopRing
  import opened Wrappers
  import opened Seqlock
  import opened SeqlockSafety

  /** All references but those of the writer itself stay. */
  ghost predicate RefsStay(s: World, t: World) {
    && (forall b :: b in s.refs ==> b in t.refs)
    && (forall b, o :: HasRef(s, b, o) && o != Producer ==> HasRef(t, b, o))
  }

  /** What a step leaves alone that changes neither slots nor log, and retires nothing new. */
  ghost predicate Quiet(s: World, t: World) {
    && t.cells == s.cells && t.log == s.log && t.readers == s.readers && RefsStay(s, t)
    && t.ring.WriteIdx() == s.ring.WriteIdx() && t.ring.committed == s.ring.committed
    && (t.clean ==> s.clean)
    && !s.writer.Filling? && !t.writer.Filling? && Publishing(s.writer) == Publishing(t.writer)
    && (Publishing(t.writer) ==> t.writer.f == s.writer.f)
    && RetiredBuf(t.writer) == RetiredBuf(s.writer)
  }

  lemma QuietCells(env: Env, s: World, t: World)
    requires Dims(env, s) && Dims(env, t) && Quiet(s, t) && LogOk(s) && CellsOk(env, s) && RefsOk(env, s)
    ensures LogOk(t) && CellsOk(env, t) && RefsOk(env, t)
  {
    SameCells(env, s, t);
  }

  /** The slots of `s`, in a state with the same log in which no slot is being filled that was not before. */
  lemma SameCells(env: Env, s: World, t: World)
    requires Dims(env, s) && Dims(env, t) && t.cells == s.cells && t.log == s.log && CellsOk(env, s)
    requires !s.writer.Filling? && !t.writer.Filling?
    ensures CellsOk(env, t)
  {
    hide StableCell, FillingCell, HistOk;
    forall k | 0 <= k < |t.cells| ensures CellOk(env, t, k) { assert CellOk(env, s, k); }
  }

  /** The slots that are not being filled. */
  lemma OtherCells(env: Env, s: World, t: World)
    requires Dims(env, s) && Dims(env, t) && t.log == s.log && t.ring == s.ring && CellsOk(env, s) && s.writer.Filling?
    requires forall k :: 0 <= k < |s.cells| && k != Target(env, s) ==> t.cells[k] == s.cells[k]
    ensures forall k :: 0 <= k < |s.cells| && k != Target(env, s) ==> CellOk(env, t, k)
  {
    hide StableCell, FillingCell, HistOk;
    forall k | 0 <= k < |s.cells| && k != Target(env, s) ensures CellOk(env, t, k) { assert CellOk(env, s, k); }
  }

  lemma QuietStep(env: Env, s: World, t: World)
    requires Inv(env, s) && Quiet(s, t) && KeepsProtection(env, s, t)
    requires Sized(env, t) && PhaseOk(env, t) && GuardOk(env, t) && HandOk(env, t)
    ensures Inv(env, t)
  {
    hide RingInv, LogOk, CellsOk, PhaseOk, GuardOk, HandOk;
    QuietCells(env, s, t);
    ReadersStay(env, s, t);
  }

  /** Storing the next value of `oldest_seq` before the overwrite: the guard holds after it as well. */
  lemma NextEarlyOldest(env: Env, s: World)
    requires Sized(env, s) && LogOk(s) && PhaseOk(env, s) && GuardOk(env, s)
    requires s.writer.Announcing? && s.writer.k < Early(env, s, s.writer.f)
    ensures var t := WriterStep(env, s); Sized(env, t) && PhaseOk(env, t) && GuardOk(env, t)
  {
    hide RingInv;
    OldestsOk(env, s, s.writer.f);
  }

  lemma AnnounceKeeps(env: Env, s: World)
    requires Inv(env, s) && s.writer.Announcing? && s.writer.k < Early(env, s, s.writer.f)
    ensures Inv(env, WriterStep(env, s))
  {
    hide RingInv, LogOk, CellsOk, ReadersOk, Store, Prepare;
    NextEarlyOldest(env, s);
    var t := WriterStep(env, s);
    assert t == s.(oldestSeq := t.oldestSeq, writer := Announcing(s.writer.f, s.writer.k + 1));
    hide Sized, PhaseOk, GuardOk;
    QuietStep(env, s, t);
  }

  /** And after the overwrite. */
  lemma NextLateOldest(env: Env, s: World)
    requires Sized(env, s) && LogOk(s) && PhaseOk(env, s) && GuardOk(env, s)
    requires s.writer.Settling? && s.writer.k < |Oldests(env, s, s.writer.f)|
    ensures var t := WriterStep(env, s); Sized(env, t) && PhaseOk(env, t) && GuardOk(env, t)
  {
    hide RingInv;
    OldestsOk(env, s, s.writer.f);
  }

  lemma SettleStoreKeeps(env: Env, s: World)
    requires Inv(env, s) && s.writer.Settling? && s.writer.k < |Oldests(env, s, s.writer.f)|
    ensures Inv(env, WriterStep(env, s))
  {
    hide RingInv, LogOk, CellsOk, ReadersOk, Store, Prepare;
    NextLateOldest(env, s);
    var t := WriterStep(env, s);
    assert t == s.(oldestSeq := t.oldestSeq, writer := Settling(s.writer.f, s.writer.k + 1));
    hide Sized, PhaseOk, GuardOk;
    QuietStep(env, s, t);
  }

  /** The scan passes a reader only while that reader is outside its section. */
  lemma ScanProtects(env: Env, s: World)
    requires Dims(env, s) && s.writer.Scanning?
    ensures KeepsProtection(env, s, WriterStep(env, s))
  {
  }

  lemma ScanTo(env: Env, s: World, next: Writer)
    requires Inv(env, s) && s.writer.Scanning?
    requires next == Releasing(s.writer.f, s.writer.was) || (next.Scanning? && next.f == s.writer.f && next.was == s.writer.was)
    requires KeepsProtection(env, s, s.(writer := next))
    ensures Inv(env, s.(writer := next))
  {
    hide RingInv, LogOk, CellsOk, ReadersOk, Store, Prepare;
    var t := s.(writer := next);
    assert Oldests(env, t, s.writer.f) == Oldests(env, s, s.writer.f) && Early(env, t, s.writer.f) == Early(env, s, s.writer.f);
    assert PhaseOk(env, t);
    QuietStep(env, s, t);
  }

  lemma ScanKeeps(env: Env, s: World)
    requires Inv(env, s) && s.writer.Scanning?
    ensures Inv(env, WriterStep(env, s))
  {
    hide RingInv, LogOk, CellsOk, ReadersOk, Store, Prepare, RefsOk;
    ScanProtects(env, s);
    ScanTo(env, s, WriterStep(env, s).writer);
  }

  lemma BeginKeeps(env: Env, s: World, f: Frame)
    requires Inv(env, s) && Enabled(env, s, WBegin(f))
    ensures Inv(env, Do(env, s, WBegin(f)))
  {
    hide RingInv, LogOk, CellsOk, ReadersOk, Store, Prepare;
    OldestsOk(env, s, f);
    QuietStep(env, s, Do(env, s, WBegin(f)));
  }

  lemma TakeKeeps(env: Env, s: World, b: BufId)
    requires Inv(env, s) && Enabled(env, s, WTake(b))
    ensures Inv(env, Do(env, s, WTake(b)))
  {
    hide RingInv, LogOk, CellsOk, ReadersOk, Store, Prepare;
    QuietStep(env, s, Do(env, s, WTake(b)));
  }

  lemma LendKeeps(env: Env, s: World)
    requires Inv(env, s) && Enabled(env, s, WLend)
    ensures Inv(env, Do(env, s, WLend))
  {
    hide RingInv, LogOk, CellsOk, ReadersOk, Store, Prepare;
    assert HasRef(s, Spare(env, s).value, InCell(Target(env, s)));
    QuietStep(env, s, Do(env, s, WLend));
  }

  lemma FillKeeps(env: Env, s: World, bytes: seq<int>)
    requires Inv(env, s) && Enabled(env, s, WFill(bytes))
    ensures Inv(env, Do(env, s, WFill(bytes)))
  {
    hide RingInv, LogOk, CellsOk, ReadersOk, Store, Prepare;
    QuietStep(env, s, Do(env, s, WFill(bytes)));
  }

  /** The writer drops its own reference, not that of a slot. */
  lemma GiveUpKeeps(env: Env, s: World)
    requires Inv(env, s) && Enabled(env, s, WGiveUp) && !s.hand.Lent?
    ensures Inv(env, Do(env, s, WGiveUp))
  {
    hide RingInv, LogOk, CellsOk, ReadersOk, Store, Prepare;
    QuietStep(env, s, Do(env, s, WGiveUp));
  }

  lemma SeenKeeps(env: Env, s: World, f: Frame)
    requires Inv(env, s) && s.writer.Idle? && s.hand.Nothing?
    ensures Inv(env, s.(ring := Seen(s, f)))
  {
    hide RingInv, LogOk, CellsOk, ReadersOk, RefsOk;
    SeeKeeps(env.cfg, s.ring, f);
    QuietStep(env, s, s.(ring := Seen(s, f)));
  }

  lemma RejectKeeps(env: Env, s: World, f: Frame)
    requires Inv(env, s) && Enabled(env, s, WReject(f)) && !s.hand.Lent?
    ensures Inv(env, Do(env, s, WReject(f)))
  {
    GiveUpKeeps(env, s);
    SeenKeeps(env, Do(env, s, WGiveUp), f);
  }

  lemma ConfigureKeeps(env: Env, s: World, op: Op)
    requires Inv(env, s) && Enabled(env, s, WConfigure(op))
    ensures Inv(env, Do(env, s, WConfigure(op)))
  {
    hide RingInv, LogOk, CellsOk, ReadersOk, RefsOk, Store, Prepare;
    ApplyKeeps(env.cfg, env.pol, s.ring, op);
    QuietStep(env, s, Do(env, s, WConfigure(op)));
  }

  lemma HistPush(cap: nat, k: nat, hist: seq<nat>, n: nat)
    requires 0 < cap && HistOk(cap, k, hist, n) && n % cap == k
    ensures HistOk(cap, k, hist + [n], n + 1)
  {
  }

  lemma HistSkip(cap: nat, k: nat, hist: seq<nat>, n: nat)
    requires 0 < cap && HistOk(cap, k, hist, n) && n % cap != k
    ensures HistOk(cap, k, hist, n + 1)
  {
  }

  /** The other slots do not change, and the one that does is in order. */
  ghost predicate OneCell(env: Env, s: World, t: World, here: nat)
    requires 0 < env.cfg.cap == |s.cells| == |t.cells|
  {
    && here < |s.cells| && Noticed(s.cells[here], t.cells[here]) && CellOk(env, t, here)
    && forall k :: 0 <= k < |s.cells| && k != here ==> t.cells[k] == s.cells[k]
  }

  /** A slot at which a publication begins, and one at which none does. */
  lemma CellOpens(c: Cell, log: seq<Pub>, p: Pub)
    requires StableCell(c, log)
    ensures FillingCell(c.(seqno := c.seqno + 1, hist := c.hist + [|log|]), log + [p], if c.buf == Some(p.buf) then None else c.buf, 0)
    ensures Noticed(c, c.(seqno := c.seqno + 1, hist := c.hist + [|log|]))
    ensures StableCell(c, log + [p])
  {
  }

  lemma BeginFillCells(env: Env, s: World, f: Frame)
    requires Dims(env, s) && LogOk(s) && CellsOk(env, s) && s.writer.Announcing? && !s.hand.Nothing?
    ensures var t := BeginFill(env, s, f); OneCell(env, s, t, Target(env, s)) && CellsOk(env, t)
  {
    hide RingInv, StableCell, FillingCell, HistOk, Noticed;
    var t, here, p := BeginFill(env, s, f), Target(env, s), Pub(Stored(f), s.hand.b);
    assert CellOk(env, s, here);
    CellOpens(s.cells[here], s.log, p);
    HistPush(env.cfg.cap, here, s.cells[here].hist, |s.log|);
    assert CellOk(env, t, here);
    forall k | 0 <= k < |s.cells| && k != here ensures CellOk(env, t, k) {
      assert CellOk(env, s, k);
      CellOpens(s.cells[k], s.log, p);
      HistSkip(env.cfg.cap, k, s.cells[k].hist, |s.log|);
    }
  }

  lemma BeginFillLog(env: Env, s: World, f: Frame)
    requires Dims(env, s) && LogOk(s) && CellsOk(env, s) && RefsOk(env, s) && HandOk(env, s)
    requires s.writer.Announcing? && s.writer.f == f && |f.data| > 0
    ensures var t := BeginFill(env, s, f); LogOk(t) && RefsOk(env, t) && HandOk(env, t)
  {
    assert CellOk(env, s, Target(env, s));
  }

  lemma BeginFillKeeps(env: Env, s: World, f: Frame)
    requires Inv(env, s) && s.writer.Announcing? && s.writer.f == f && s.writer.k >= Early(env, s, f)
    ensures Inv(env, BeginFill(env, s, f))
  {
    hide RingInv, CellsOk, ReadersOk, RefsOk, Store, Prepare;
    var t := BeginFill(env, s, f);
    OldestsOk(env, s, f);
    BeginFillCells(env, s, f);
    ReadersStay(env, s, t);
    BeginFillLog(env, s, f);
  }

  /** What exchanging a slot's buffer does to the references. */
  lemma ExchangeKeeps(refs: map<BufId, set<Owner>>, k: nat, was: Option<BufId>, b: BufId, n: nat)
    requires b in refs && (was.Some? ==> was.value in refs && InCell(k) in refs[was.value])
    ensures var t := Exchange(refs, k, was, b, n);
            && t.Keys == refs.Keys && InCell(k) in t[b] && (was.Some? && was != Some(b) ==> Retired in t[was.value])
            && forall c, o :: c in refs && o in refs[c] && o != Producer && o != InCell(k) ==> o in t[c]
  {
  }

  lemma StoreBufRefs(env: Env, s: World, f: Frame, prev: Option<BufId>)
    requires Dims(env, s) && LogOk(s) && CellsOk(env, s) && RefsOk(env, s) && s.writer == Filling(f, prev, 0)
    ensures var t := StoreBuf(env, s, f, prev);
            RefsOk(env, t) && KeepsReaderRefs(s, t) && forall b :: b in s.refs ==> b in t.refs
  {
    hide RingInv, HistOk, StableCell, Words, Exchange, CellOk, CellsOk;
    var k, t := Target(env, s), StoreBuf(env, s, f, prev);
    PrevIsShown(env, s, f, prev);
    ExchangeKeeps(s.refs, k, s.cells[k].buf, s.log[|s.log| - 1].buf, |s.log|);
    forall j | 0 <= j < |s.cells| && t.cells[j].buf.Some? ensures HasRef(t, t.cells[j].buf.value, InCell(j)) {
      if j != k { assert HasRef(s, s.cells[j].buf.value, InCell(j)); }
    }
  }

  /** The buffer to be retired is that of the slot, unless the slot keeps it. */
  lemma PrevIsShown(env: Env, s: World, f: Frame, prev: Option<BufId>)
    requires Dims(env, s) && CellsOk(env, s) && s.writer == Filling(f, prev, 0)
    ensures var was := s.cells[Target(env, s)].buf;
            |s.log| > 0 && prev == if was == Some(s.log[|s.log| - 1].buf) then None else was
  {
    assert CellOk(env, s, Target(env, s));
  }

  lemma StoreBufProtects(env: Env, s: World, f: Frame, prev: Option<BufId>)
    requires Dims(env, s) && LogOk(s) && CellsOk(env, s) && s.writer == Filling(f, prev, 0)
    ensures KeepsProtection(env, s, StoreBuf(env, s, f, prev))
  {
    assert CellOk(env, s, Target(env, s));
  }

  lemma NewPointer(c: Cell, log: seq<Pub>, prev: Option<BufId>)
    requires FillingCell(c, log, prev, 0)
    ensures FillingCell(c.(buf := Some(log[|log| - 1].buf)), log, prev, 1)
  {
  }

  lemma StoreBufCells(env: Env, s: World, f: Frame, prev: Option<BufId>)
    requires Dims(env, s) && LogOk(s) && CellsOk(env, s) && s.writer == Filling(f, prev, 0)
    ensures var t := StoreBuf(env, s, f, prev); OneCell(env, s, t, Target(env, s)) && CellsOk(env, t)
  {
    assert CellOk(env, s, Target(env, s));
    NewPointer(s.cells[Target(env, s)], s.log, prev);
    OddCell(s.cells[Target(env, s)], s.log, prev, 0);
    hide RingInv, HistOk, FillingCell, StableCell, Exchange;
    var t := StoreBuf(env, s, f, prev);
    OtherCells(env, s, t);
    assert CellOk(env, t, Target(env, s));
  }

  lemma StoreBufRest(env: Env, s: World, f: Frame, prev: Option<BufId>)
    requires Sized(env, s) && LogOk(s) && PhaseOk(env, s) && GuardOk(env, s) && s.writer == Filling(f, prev, 0)
    requires forall b :: b in s.refs ==> b in StoreBuf(env, s, f, prev).refs
    ensures var t := StoreBuf(env, s, f, prev); Sized(env, t) && LogOk(t) && PhaseOk(env, t) && GuardOk(env, t)
  {
    hide RingInv, Words, Store, Prepare;
  }

  lemma StoreBufKeeps(env: Env, s: World, f: Frame, prev: Option<BufId>)
    requires Inv(env, s) && s.writer == Filling(f, prev, 0)
    ensures Inv(env, StoreBuf(env, s, f, prev))
  {
    hide RingInv, CellsOk, ReadersOk, PhaseOk, GuardOk;
    StoreBufRefs(env, s, f, prev);
    StoreBufProtects(env, s, f, prev);
    StoreBufCells(env, s, f, prev);
    StoreBufRest(env, s, f, prev);
    ReadersStay(env, s, StoreBuf(env, s, f, prev));
  }

  lemma NextWord(c: Cell, log: seq<Pub>, prev: Option<BufId>, n: nat)
    requires FillingCell(c, log, prev, n) && 1 <= n <= WORDS && |c.words| == WORDS
    ensures FillingCell(c.(words := c.words[n - 1 := Words(log[|log| - 1])[n - 1]]), log, prev, n + 1)
  {
  }

  lemma OddCell(c: Cell, log: seq<Pub>, prev: Option<BufId>, n: nat)
    requires FillingCell(c, log, prev, n)
    ensures c.seqno % 2 == 1
  {
  }

  lemma StoreWordCells(env: Env, s: World, f: Frame, prev: Option<BufId>, n: nat)
    requires Dims(env, s) && LogOk(s) && CellsOk(env, s) && s.writer == Filling(f, prev, n) && 1 <= n <= WORDS
    ensures var t := StoreWord(env, s, f, prev, n); OneCell(env, s, t, Target(env, s)) && CellsOk(env, t)
    ensures var t := StoreWord(env, s, f, prev, n); t.cells[Target(env, s)].buf == s.cells[Target(env, s)].buf
  {
    var t, here := StoreWord(env, s, f, prev, n), Target(env, s);
    assert CellOk(env, s, here);
    NextWord(s.cells[here], s.log, prev, n);
    OddCell(s.cells[here], s.log, prev, n);
    hide FillingCell, HistOk, Words, StableCell, RingInv;
    OtherCells(env, s, t);
    assert CellOk(env, t, here);
  }

  /** A store into the slot being published that leaves its buffer pointer alone. */
  lemma CellStep(env: Env, s: World, t: World)
    requires Inv(env, s) && s.writer.Filling? && s.writer.n >= 1
    requires Dims(env, t) && t == s.(cells := t.cells, writer := t.writer) && PhaseOk(env, t)
    requires OneCell(env, s, t, Target(env, s)) && CellsOk(env, t)
    requires t.cells[Target(env, s)].buf == s.cells[Target(env, s)].buf
    requires RetiredBuf(t.writer) == RetiredBuf(s.writer) && Publishing(t.writer) && t.writer.f == s.writer.f
    requires !t.writer.Releasing? && (t.writer.Scanning? ==> t.writer.i == 0)
    requires t.writer.Filling? ==> t.writer.n >= 1 && t.writer.prev == s.writer.prev
    ensures Inv(env, t)
  {
    hide RingInv, CellsOk, Store, Prepare, ReaderOk;
    ReadersStay(env, s, t);
    CellStepRefs(env, s, t);
  }

  lemma CellStepRefs(env: Env, s: World, t: World)
    requires Dims(env, s) && LogOk(s) && RefsOk(env, s) && s.writer.Filling? && s.writer.n >= 1
    requires t == s.(cells := t.cells, writer := t.writer) && |t.cells| == |s.cells|
    requires forall k :: 0 <= k < |s.cells| ==> t.cells[k].buf == s.cells[k].buf
    requires RetiredBuf(t.writer) == RetiredBuf(s.writer) && Publishing(t.writer) && t.writer.f == s.writer.f
    requires t.writer.Filling? ==> t.writer.n >= 1 && t.writer.prev == s.writer.prev
    ensures LogOk(t) && RefsOk(env, t)
  {
  }

  lemma StoreWordKeeps(env: Env, s: World, f: Frame, prev: Option<BufId>, n: nat)
    requires Inv(env, s) && s.writer == Filling(f, prev, n) && 1 <= n <= WORDS
    ensures Inv(env, StoreWord(env, s, f, prev, n))
  {
    hide RingInv, LogOk, RefsOk, ReadersOk, CellsOk, Words, Store, Prepare;
    StoreWordCells(env, s, f, prev, n);
    CellStep(env, s, StoreWord(env, s, f, prev, n));
  }

  /** All words are there. */
  lemma LastWord(c: Cell, log: seq<Pub>, prev: Option<BufId>, n: nat)
    requires FillingCell(c, log, prev, n) && n > WORDS && |c.words| == WORDS
    ensures c.seqno % 2 == 1 && StableCell(c.(seqno := c.seqno + 1), log)
  {
    assert c.words == Words(log[|log| - 1]);
  }

  lemma EndFillCells(env: Env, s: World, f: Frame, prev: Option<BufId>, n: nat)
    requires Dims(env, s) && LogOk(s) && CellsOk(env, s) && s.writer == Filling(f, prev, n) && n > WORDS
    ensures var t := EndFill(env, s, f, prev); OneCell(env, s, t, Target(env, s)) && CellsOk(env, t)
  {
    var t, here := EndFill(env, s, f, prev), Target(env, s);
    OtherCells(env, s, t);
    assert CellOk(env, s, here);
    LastWord(s.cells[here], s.log, prev, n);
    hide FillingCell, HistOk, StableCell;
    assert CellOk(env, t, here);
  }

  lemma EndFillPhase(env: Env, s: World, f: Frame, prev: Option<BufId>, n: nat)
    requires Sized(env, s) && PhaseOk(env, s) && s.writer == Filling(f, prev, n)
    ensures PhaseOk(env, EndFill(env, s, f, prev))
  {
    OldestsOk(env, s, f);
  }

  lemma EndFillKeeps(env: Env, s: World, f: Frame, prev: Option<BufId>, n: nat)
    requires Inv(env, s) && s.writer == Filling(f, prev, n) && n > WORDS
    ensures Inv(env, EndFill(env, s, f, prev))
  {
    hide RingInv, LogOk, RefsOk, ReadersOk, CellsOk, PhaseOk;
    EndFillPhase(env, s, f, prev, n);
    EndFillCells(env, s, f, prev, n);
    CellStep(env, s, EndFill(env, s, f, prev));
  }

  function ReleaseStep(env: Env, s: World, f: Frame, was: BufId): World {
    s.(refs := DropRef(s.refs, was, Retired), writer := Settling(f, Early(env, s, f)))
  }

  /** When the old reference is dropped, every pointer that a reader holds without a reference is protected by
      that of the slot it was read from. */
  lemma ReleaseReaders(env: Env, s: World, f: Frame, was: BufId)
    requires Inv(env, s) && s.writer == Releasing(f, was)
    ensures ReadersOk(env, ReleaseStep(env, s, f, was))
  {
    hide RingInv, Store, Prepare, LogOk, CellsOk, ReaderOk;
    ReadersStay(env, s, ReleaseStep(env, s, f, was));
  }

  lemma ReleaseKeeps(env: Env, s: World, f: Frame, was: BufId)
    requires Inv(env, s) && s.writer == Releasing(f, was)
    ensures Inv(env, ReleaseStep(env, s, f, was))
  {
    hide RingInv, Store, Prepare, CellOk;
    var t := ReleaseStep(env, s, f, was);
    OldestsOk(env, s, f);
    SameCells(env, s, t);
    ReleaseReaders(env, s, f, was);
    assert RefsOk(env, t);
  }

  lemma UnlockKeeps(env: Env, s: World, f: Frame, k: nat)
    requires Inv(env, s) && s.writer == Settling(f, k) && k >= |Oldests(env, s, f)|
    ensures Inv(env, Unlock(env, s, f))
  {
    hide RingInv, CellsOk, LogOk, Prepare;
    var t := Unlock(env, s, f);
    UnlockSizes(env, s, f, k);
    UnlockLog(env, s, t, f);
    SameCells(env, s, t);
    ReadersStay(env, s, t);
  }

  lemma UnlockLog(env: Env, s: World, t: World, f: Frame)
    requires LogOk(s) && Publishing(s.writer) && s.writer.f == f && t.writer.Idle?
    requires t.log == s.log && t.refs == s.refs && t.ring.committed == s.ring.committed + [Stored(f)]
    ensures LogOk(t)
  {
  }

  lemma StoredRing(env: Env, s: World, f: Frame)
    requires Sized(env, s)
    ensures var ring := Store(env.cfg, env.pol, Seen(s, f), f);
            RingInv(env.cfg, ring) && ring.committed == s.ring.committed + [Stored(f)]
  {
    StoringKeeps(env.cfg, env.pol, Seen(s, f), f);
  }

  lemma UnlockSizes(env: Env, s: World, f: Frame, k: nat)
    requires Sized(env, s) && LogOk(s) && PhaseOk(env, s) && s.writer == Settling(f, k) && k >= |Oldests(env, s, f)|
    ensures var t := Unlock(env, s, f);
            Sized(env, t) && PhaseOk(env, t) && t.ring.committed == s.ring.committed + [Stored(f)]
  {
    OldestsOk(env, s, f);
    StoredRing(env, s, f);
  }

  lemma WriterKeeps(env: Env, s: World)
    requires Inv(env, s) && !s.writer.Idle?
    ensures Inv(env, WriterStep(env, s))
  {
    match s.writer
    case Announcing(f, k) => if k < Early(env, s, f) { AnnounceKeeps(env, s); } else { BeginFillKeeps(env, s, f); }
    case Filling(f, prev, n) =>
      if n == 0 { StoreBufKeeps(env, s, f, prev); }
      else if n <= WORDS { StoreWordKeeps(env, s, f, prev, n); }
      else { EndFillKeeps(env, s, f, prev, n); }
    case Scanning(f, was, i) => ScanKeeps(env, s);
    case Releasing(f, was) => ReleaseKeeps(env, s, f, was);
    case Settling(f, k) => if k < |Oldests(env, s, f)| { SettleStoreKeeps(env, s); } else { UnlockKeeps(env, s, f, k); }
  }
}
