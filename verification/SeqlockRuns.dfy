/** What holds in every state the writer and the readers can reach, in whatever order they step. */
module SeqlockRuns {
  import opened GopRing
  import opened Wrappers
  import opened Seqlock
  import opened SeqlockSafety
  import opened SeqlockWriter
  import opened SeqlockReader

  function EmptyCell(): Cell {
    Cell(0, None, seq(WORDS, _ => Num(0)), [])
  }

  /** An empty ring; `begins[r]` says whether reader `r` was attached at the beginning of the buffer. */
  function Start(env: Env, target: nat, cacheMs: nat, begins: seq<bool>): World {
    World(GopRing.Fresh(env.cfg, target, cacheMs), Idle, Nothing, seq(env.cfg.cap, _ => EmptyCell()), map[], map[], 0, 0, [],
          seq(|begins|, r requires 0 <= r < |begins| => Reader(Ready, false, 0, begins[r], [], map[], 0)), true)
  }

  ghost predicate IsRun(env: Env, s: World, steps: seq<Step>)
    decreases |steps|
  {
    && 0 < env.cfg.cap == |s.cells| && |s.readers| == env.readers
    && (steps == [] || (Enabled(env, s, steps[0]) && IsRun(env, Do(env, s, steps[0]), steps[1..])))
  }

  ghost function End(env: Env, s: World, steps: seq<Step>): World
    requires IsRun(env, s, steps)
    decreases |steps|
  {
    if steps == [] then s else End(env, Do(env, s, steps[0]), steps[1..])
  }

  /** No frame is refused and no attempt given up whose buffer was lent by its slot. */
  ghost predicate AllCareful(env: Env, s: World, steps: seq<Step>)
    requires IsRun(env, s, steps)
    decreases |steps|
  {
    steps == [] || (!Spoils(s, steps[0]) && AllCareful(env, Do(env, s, steps[0]), steps[1..]))
  }

  ghost predicate Reachable(env: Env, s: World) {
    exists target: nat, cacheMs: nat, begins: seq<bool>, steps :: Leads(env, target, cacheMs, begins, steps, s)
  }

  ghost predicate Leads(env: Env, target: nat, cacheMs: nat, begins: seq<bool>, steps: seq<Step>, s: World) {
    var start := Start(env, target, cacheMs, begins);
    |begins| == env.readers && IsRun(env, start, steps) && AllCareful(env, start, steps) && s == End(env, start, steps)
  }

  lemma StartInv(env: Env, target: nat, cacheMs: nat, begins: seq<bool>)
    requires env.cfg.Valid() && |begins| == env.readers
    ensures Inv(env, Start(env, target, cacheMs, begins))
  {
  }

  lemma StepKeeps(env: Env, s: World, step: Step)
    requires Inv(env, s) && Enabled(env, s, step) && !Spoils(s, step)
    ensures Inv(env, Do(env, s, step))
  {
    hide Inv;
    match step
    case WTake(b) => TakeKeeps(env, s, b);
    case WLend => LendKeeps(env, s);
    case WFill(bytes) => FillKeeps(env, s, bytes);
    case WBegin(f) => BeginKeeps(env, s, f);
    case WReject(f) => RejectKeeps(env, s, f);
    case WGiveUp => GiveUpKeeps(env, s);
    case WConfigure(op) => ConfigureKeeps(env, s, op);
    case WStep => WriterKeeps(env, s);
    case RStep(r) => ReaderStepKeeps(env, s, r);
    case RLoad(r, w) => LoadKeeps(env, s, r, w);
    case RLocked(r, mux) => LockedKeeps(env, s, r, mux);
    case RDrop(r, j) => DropKeeps(env, s, r, j);
    case RSeek(r, to) => SeekKeeps(env, s, r, to);
  }

  lemma {:induction false} RunKeeps(env: Env, s: World, steps: seq<Step>)
    requires Inv(env, s) && IsRun(env, s, steps) && AllCareful(env, s, steps)
    ensures Inv(env, End(env, s, steps))
    decreases |steps|
  {
    if steps != [] {
      StepKeeps(env, s, steps[0]);
      RunKeeps(env, Do(env, s, steps[0]), steps[1..]);
    }
  }

  lemma ReachableInv(env: Env, s: World)
    requires env.cfg.Valid() && Reachable(env, s)
    ensures Inv(env, s)
  {
    var target: nat, cacheMs: nat, begins: seq<bool>, steps :| Leads(env, target, cacheMs, begins, steps, s);
    StartInv(env, target, cacheMs, begins);
    RunKeeps(env, Start(env, target, cacheMs, begins), steps);
  }

  // ---- references of the slots

  /** Every slot has a reference of its own to the buffer it shows. */
  ghost predicate SlotsOwn(s: World) {
    forall k :: 0 <= k < |s.cells| && s.cells[k].buf.Some? ==> HasRef(s, s.cells[k].buf.value, InCell(k))
  }

  ghost predicate OwnAllAlong(env: Env, s: World, steps: seq<Step>)
    requires IsRun(env, s, steps)
    decreases |steps|
  {
    SlotsOwn(s) && (steps == [] || OwnAllAlong(env, Do(env, s, steps[0]), steps[1..]))
  }

  /** Dropping the reference to a lent buffer leaves the slot with a pointer and no reference. */
  lemma SpoiledSlot(env: Env, s: World, step: Step)
    requires Inv(env, s) && Enabled(env, s, step) && Spoils(s, step)
    ensures !SlotsOwn(Do(env, s, step))
  {
    var k := Target(env, s);
    assert Do(env, s, step).cells[k].buf == Some(s.hand.b);
  }

  lemma {:induction false} OwnFrom(env: Env, s: World, steps: seq<Step>)
    requires Inv(env, s) && IsRun(env, s, steps)
    ensures OwnAllAlong(env, s, steps) <==> AllCareful(env, s, steps)
    decreases |steps|
  {
    assert RefsOk(env, s);
    if steps != [] {
      if Spoils(s, steps[0]) {
        SpoiledSlot(env, s, steps[0]);
      } else {
        StepKeeps(env, s, steps[0]);
        OwnFrom(env, Do(env, s, steps[0]), steps[1..]);
      }
    }
  }

  /** Over every run from an empty ring: all along it the slots own the buffers they show, if and only if no
      frame is refused and no attempt given up whose buffer was lent by its slot. */
  lemma SlotsOwnIff(env: Env, target: nat, cacheMs: nat, begins: seq<bool>, steps: seq<Step>)
    requires env.cfg.Valid() && |begins| == env.readers && IsRun(env, Start(env, target, cacheMs, begins), steps)
    ensures var s := Start(env, target, cacheMs, begins); OwnAllAlong(env, s, steps) <==> AllCareful(env, s, steps)
  {
    StartInv(env, target, cacheMs, begins);
    OwnFrom(env, Start(env, target, cacheMs, begins), steps);
  }

  /** The slot of reader `r` shows buffer `b` and has a reference to it. */
  ghost predicate ShownAgain(env: Env, s: World, r: nat, b: BufId)
    requires r < |s.readers|
  {
    && 0 < env.cfg.cap == |s.cells|
    && var k := s.readers[r].readIdx % env.cfg.cap; s.cells[k].buf == Some(b) && HasRef(s, b, InCell(k))
  }

  /** In every interleaving: `try_ref` is applied to live buffers only, the old reference is dropped
      only when no reader holds the old pointer without a reference of its own, unless its slot shows that
      buffer again, and whatever a reader has taken is one whole publication that it now holds a
      reference to. */
  lemma SeqlockIsSafe(env: Env, s: World)
    requires env.cfg.Valid() && Reachable(env, s)
    ensures forall r :: 0 <= r < |s.readers| && s.readers[r].pc.Copied? ==> Live(s, s.readers[r].pc.b)
    ensures forall r :: 0 <= r < |s.readers| && s.writer.Releasing? && BarePointer(s.readers[r].pc) == Some(s.writer.was) ==>
              ShownAgain(env, s, r, s.writer.was)
    ensures forall r :: 0 <= r < |s.readers| && Taken(s.readers[r].pc).Some? ==>
              var (b, words) := Taken(s.readers[r].pc).value;
              FromOne(env.cfg.cap, s.log, s.readers[r].readIdx, b, words) && HasRef(s, b, Local(r))
  {
    ReachableInv(env, s);
    forall r | 0 <= r < |s.readers|
      ensures s.readers[r].pc.Copied? ==> Live(s, s.readers[r].pc.b)
      ensures s.writer.Releasing? && BarePointer(s.readers[r].pc) == Some(s.writer.was) ==>
                ShownAgain(env, s, r, s.writer.was)
    {
      assert ReaderOk(env, s, r);
      if s.readers[r].pc.Copied? { TryRefIsSafe(env, s, r); }
      if s.writer.Releasing? && BarePointer(s.readers[r].pc) == Some(s.writer.was) { RetiredIsGone(env, s, r); }
    }
    forall r | 0 <= r < |s.readers| && Taken(s.readers[r].pc).Some?
      ensures var (b, words) := Taken(s.readers[r].pc).value;
              FromOne(env.cfg.cap, s.log, s.readers[r].readIdx, b, words) && HasRef(s, b, Local(r))
    {
      assert ReaderOk(env, s, r);
    }
  }

  /** When the old reference is dropped, only the reference of its own slot protects a bare pointer to the
      buffer; that slot still shows it, because the buffer has been committed again. */
  lemma RetiredIsGone(env: Env, s: World, r: nat)
    requires Inv(env, s) && r < |s.readers| && s.writer.Releasing?
    requires BarePointer(s.readers[r].pc) == Some(s.writer.was)
    ensures ShownAgain(env, s, r, s.writer.was)
  {
    assert ReaderOk(env, s, r);
  }

  /** Between two seeks a reader delivers strictly increasing indices, each once; and in a run whose
      commits never begin on a full ring without a GOP, the frame delivered at index `i` is the one
      committed at index `i`, whichever path it came by. */
  lemma DeliveriesAreExact(env: Env, s: World, r: nat)
    requires env.cfg.Valid() && Reachable(env, s) && r < |s.readers|
    ensures var d := s.readers[r].delivered;
            forall a, b :: 0 <= a < b < |d| ==> d[a].idx < d[b].idx
    ensures var d := s.readers[r].delivered;
            s.clean ==> forall a :: 0 <= a < |d| ==>
              && d[a].idx < |s.ring.committed|
              && d[a].words == Words(Pub(s.ring.committed[d[a].idx], d[a].b))
              && Exact(s.log, d[a].idx, d[a].b, d[a].words)
  {
    ReachableInv(env, s);
    assert ReaderOk(env, s, r);
    var d := s.readers[r].delivered;
    forall a | 0 <= a < |d| && s.clean
      ensures d[a].idx < |s.ring.committed| && d[a].words == Words(Pub(s.ring.committed[d[a].idx], d[a].b))
    {
      assert Exact(s.log, d[a].idx, d[a].b, d[a].words);
      assert s.log[d[a].idx].slot == s.ring.committed[d[a].idx];
    }
  }

  /** The last publication into the slot is that of index `i`, whole. */
  ghost predicate Shows(c: Cell, log: seq<Pub>, i: nat) {
    |c.hist| > 0 && c.hist[|c.hist| - 1] == i && c.buf.Some? && Exact(log, i, c.buf.value, c.words)
  }

  /** Every index that a lock-free reader accepts still finds its own publication in its slot. */
  ghost predicate WindowIntact(env: Env, s: World)
    requires 0 < env.cfg.cap == |s.cells|
  {
    forall i :: s.oldestSeq <= i < s.writeSeq ==> Shows(s.cells[i % env.cfg.cap], s.log, i)
  }

  lemma WindowIntactIff(env: Env, s: World)
    requires Inv(env, s) && s.writer.Idle?
    ensures WindowIntact(env, s) <==> s.oldestSeq + env.cfg.cap >= s.writeSeq
  {
    if s.oldestSeq + env.cfg.cap >= s.writeSeq {
      forall i | s.oldestSeq <= i < s.writeSeq
        ensures Shows(s.cells[i % env.cfg.cap], s.log, i)
      {
        SlotShows(env, s, i);
      }
    } else {
      var i := s.oldestSeq;
      var c := s.cells[i % env.cfg.cap];
      assert CellOk(env, s, i % env.cfg.cap);
      var later := i + env.cfg.cap;
      assert later % env.cfg.cap == i % env.cfg.cap by { LapKeepsSlot(i, env.cfg.cap); }
      assert c.hist[|c.hist| - 1] >= later;
    }
  }

  lemma LapKeepsSlot(i: int, cap: int)
    requires cap > 0 && i >= 0
    ensures (i + cap) % cap == i % cap
  {
    var d := (i + cap) / cap - i / cap - 1;
    assert cap * d == i % cap - (i + cap) % cap by {
      assert i + cap == cap * ((i + cap) / cap) + (i + cap) % cap && i == cap * (i / cap) + i % cap;
    }
    assert d == 0 by { assert d >= 1 ==> cap * d >= cap; assert d <= -1 ==> cap * d <= -cap; }
  }

  lemma SlotShows(env: Env, s: World, i: nat)
    requires Inv(env, s) && s.writer.Idle? && i < s.writeSeq <= i + env.cfg.cap
    ensures Shows(s.cells[i % env.cfg.cap], s.log, i)
  {
    assert CellOk(env, s, i % env.cfg.cap);
    var c := s.cells[i % env.cfg.cap];
    NextLap(i, c.hist[|c.hist| - 1], env.cfg.cap);
  }

  lemma StuckStaysBehind(cfg: Config, pol: Policy, s: Ring, f: Frame)
    requires RingInv(cfg, s) && Stuck(cfg, s)
    ensures Store(cfg, pol, s, f).OldestSeq() <= s.WriteIdx() - cfg.cap
  {
    PrepareKeeps(cfg, pol, s, f);
    var p := Prepare(cfg, pol, s, f);
    StoreKeeps(cfg, p, f);
    var u := NoteKey(pol, StoreFrame(cfg, p, f), f);
    NoteKeyOnly(pol, StoreFrame(cfg, p, f), f);
    assert Store(cfg, pol, s, f) == u;
  }

  /** The window of lock-free readers after a commit that overwrites a frame. */
  lemma WindowAfter(env: Env, s: World, f: Frame)
    requires Sized(env, s) && PhaseOk(env, s) && s.ring.WriteIdx() >= env.cfg.cap
    requires s.writer.Settling? && s.writer.f == f && s.writer.k >= |Oldests(env, s, f)|
    ensures var t := Unlock(env, s, f);
            t.oldestSeq + env.cfg.cap >= t.writeSeq <==> s.ring.count < env.cfg.cap || |s.ring.gops| > 0
  {
    OldestsOk(env, s, f);
    StoredRing(env, s, f);
    SeeKeeps(env.cfg, s.ring, f);
    if Stuck(env.cfg, s.ring) { StuckStaysBehind(env.cfg, env.pol, Seen(s, f), f); }
    hide Store, Prepare, RingInv;
  }

  /** The last step of a commit that overwrites a frame leaves the lock-free window intact exactly when
      the commit did not begin on a full ring without a GOP. */
  lemma OverwritingCommitIff(env: Env, s: World)
    requires Inv(env, s) && s.writer.Settling? && s.writer.k >= |Oldests(env, s, s.writer.f)|
    requires s.ring.WriteIdx() >= env.cfg.cap
    ensures WindowIntact(env, WriterStep(env, s)) <==> s.ring.count < env.cfg.cap || |s.ring.gops| > 0
  {
    var f := s.writer.f;
    assert WriterStep(env, s) == Unlock(env, s, f);
    UnlockKeeps(env, s, f, s.writer.k);
    WindowAfter(env, s, f);
    hide WindowIntact, RingInv, Store, Prepare, CellsOk, ReadersOk, LogOk, RefsOk;
    WindowIntactIff(env, Unlock(env, s, f));
  }
}
