/** The ring shared by one writer that holds the queue mutex and any number of readers that do not.

    Every step is one load or one store of a shared word, or one atomic reference count operation;
    memory is sequentially consistent.  What only the mutex holder touches (`ring`) changes when the
    mutex is released.  A reference count is the set of references that are outstanding.  The bytes of
    the buffers are in `data`; the writer fills a buffer before it takes the mutex. */
module Seqlock {
  import opened GopRing
  import opened Wrappers

  type BufId = nat

  /** One published view is nine words, copied one by one. */
  datatype Word = Num(n: nat) | Flag(b: bool)

  const WORDS := 9
  const LEN_WORD := 8

  datatype Pub = Pub(slot: Slot, buf: BufId)

  function Words(p: Pub): (w: seq<Word>)
    ensures |w| == WORDS
  {
    [Num(p.slot.codec), Flag(p.slot.track == Video), Flag(p.slot.keyframe), Flag(p.slot.config), Flag(p.slot.droppable),
     Num(p.slot.dts), Num(p.slot.pts), Num(p.buf), Num(|p.slot.data|)]
  }

  /** A ring slot.  `hist` lists the absolute indices published into it so far, oldest first. */
  datatype Cell = Cell(seqno: nat, buf: Option<BufId>, words: seq<Word>, hist: seq<nat>)

  /** `Leaked` is a reference that nobody will ever drop. */
  datatype Owner = Producer | InCell(k: nat) | Retired | Local(r: nat) | Kept(r: nat, j: nat) | Leaked(n: nat)

  /** The buffer that the writer is about to commit: with a reference of its own, or lent out by the slot that
      the commit will overwrite, on the reference of that slot. */
  datatype Hand = Nothing | Own(b: BufId) | Lent(b: BufId)

  datatype Writer =
    | Idle
    | Announcing(f: Frame, k: nat)
    | Filling(f: Frame, prev: Option<BufId>, n: nat)
    | Scanning(f: Frame, was: BufId, i: nat)
    | Releasing(f: Frame, was: BufId)
    | Settling(f: Frame, k: nat)

  datatype Outcome = Busy | Empty | Got(b: BufId, words: seq<Word>)

  datatype Pc =
    | Ready
    | SawNew
    | Entering
    | InCs
    | Copying(s1: nat, buf: Option<Option<BufId>>, got: map<nat, Word>)
    | Copied(s1: nat, b: BufId, words: seq<Word>)
    | Refd(s1: nat, b: BufId, words: seq<Word>)
    | Leaving(out: Outcome)
    | Took(b: BufId, words: seq<Word>)
    | NeedLock

  datatype Delivery = Delivery(idx: nat, b: BufId, words: seq<Word>)

  datatype Reader = Reader(pc: Pc, inCs: bool, readIdx: nat, fromBeginning: bool,
                           delivered: seq<Delivery>, kept: map<nat, Delivery>, taken: nat)

  datatype Env = Env(cfg: Config, pol: Policy, sync: Slot -> bool, readers: nat)

  /** `log` is the list of publications begun; `clean` says that no commit so far began on a full
      ring without a GOP. */
  datatype World = World(ring: Ring, writer: Writer, hand: Hand, cells: seq<Cell>, refs: map<BufId, set<Owner>>,
                         data: map<BufId, seq<int>>, writeSeq: nat, oldestSeq: nat, log: seq<Pub>,
                         readers: seq<Reader>, clean: bool)

  predicate Live(s: World, b: BufId) {
    b in s.refs && s.refs[b] != {}
  }

  function Content(s: World, b: BufId): seq<int> {
    if b in s.data then s.data[b] else []
  }

  function Owners(refs: map<BufId, set<Owner>>, b: BufId): set<Owner> {
    if b in refs then refs[b] else {}
  }

  function AddRef(refs: map<BufId, set<Owner>>, b: BufId, o: Owner): map<BufId, set<Owner>> {
    if b in refs then refs[b := refs[b] + {o}] else refs
  }

  function DropRef(refs: map<BufId, set<Owner>>, b: BufId, o: Owner): map<BufId, set<Owner>> {
    if b in refs then refs[b := refs[b] - {o}] else refs
  }

  // ---------------------------------------------------------------------------------------------
  // The writer
  // ---------------------------------------------------------------------------------------------

  function Seen(s: World, f: Frame): Ring {
    SeeFrame(s.ring, f)
  }

  /** Every value `oldest_seq` will have held by the end of the commit of `f`. */
  function Oldests(env: Env, s: World, f: Frame): seq<nat> {
    Store(env.cfg, env.pol, Seen(s, f), f).published
  }

  /** How many of them are stored before the overwrite begins. */
  function Early(env: Env, s: World, f: Frame): nat {
    |Prepare(env.cfg, env.pol, Seen(s, f), f).published|
  }

  function Target(env: Env, s: World): nat
    requires env.cfg.cap > 0
  {
    s.ring.WriteIdx() % env.cfg.cap
  }

  function WithCell(s: World, k: nat, c: Cell): World
    requires k < |s.cells|
  {
    s.(cells := s.cells[k := c])
  }

  function StoreOldest(env: Env, s: World, f: Frame, k: nat): World {
    if k < |Oldests(env, s, f)| then s.(oldestSeq := Oldests(env, s, f)[k]) else s
  }

  /** `seq++` to odd: the publication of `f` in the buffer at hand begins.  `prev` is the buffer to be retired:
      none if the slot keeps its buffer. */
  function BeginFill(env: Env, s: World, f: Frame): World
    requires 0 < env.cfg.cap == |s.cells| && !s.hand.Nothing?
  {
    var k, b := Target(env, s), s.hand.b;
    var c := s.cells[k];
    WithCell(s, k, c.(seqno := c.seqno + 1, hist := c.hist + [|s.log|]))
    .(log := s.log + [Pub(Stored(f), b)], writer := Filling(f, if c.buf == Some(b) then None else c.buf, 0), hand := Nothing)
  }

  /** The references when slot `k` gets buffer `b`: that of the slot moves from the old buffer to the new one.
      If it is the same buffer, a reference that the writer had is never dropped. */
  function Exchange(refs: map<BufId, set<Owner>>, k: nat, was: Option<BufId>, b: BufId, n: nat): map<BufId, set<Owner>> {
    if was == Some(b) then
      if Producer in Owners(refs, b) then AddRef(DropRef(refs, b, Producer), b, Leaked(n)) else refs
    else
      var freed := if was.Some? then AddRef(DropRef(refs, was.value, InCell(k)), was.value, Retired) else refs;
      AddRef(DropRef(freed, b, Producer), b, InCell(k))
  }

  /** The buffer pointer is stored. */
  function StoreBuf(env: Env, s: World, f: Frame, prev: Option<BufId>): World
    requires 0 < env.cfg.cap == |s.cells| && |s.log| > 0
  {
    var k := Target(env, s);
    var b := s.log[|s.log| - 1].buf;
    WithCell(s, k, s.cells[k].(buf := Some(b)))
    .(refs := Exchange(s.refs, k, s.cells[k].buf, b, |s.log|), writer := Filling(f, prev, 1))
  }

  function StoreWord(env: Env, s: World, f: Frame, prev: Option<BufId>, n: nat): World
    requires 0 < env.cfg.cap == |s.cells| && |s.log| > 0 && 1 <= n <= WORDS
  {
    var k := Target(env, s);
    var c := s.cells[k];
    if n - 1 < |c.words| then
      WithCell(s, k, c.(words := c.words[n - 1 := Words(s.log[|s.log| - 1])[n - 1]])).(writer := Filling(f, prev, n + 1))
    else s
  }

  /** `seq++` back to even. */
  function EndFill(env: Env, s: World, f: Frame, prev: Option<BufId>): World
    requires 0 < env.cfg.cap == |s.cells|
  {
    var k := Target(env, s);
    var c := s.cells[k];
    WithCell(s, k, c.(seqno := c.seqno + 1))
    .(writer := if prev.Some? then Scanning(f, prev.value, 0) else Settling(f, Early(env, s, f)))
  }

  /** The new `write_seq` is stored and the mutex released. */
  function Unlock(env: Env, s: World, f: Frame): World {
    var ring := Store(env.cfg, env.pol, Seen(s, f), f);
    s.(ring := ring, writeSeq := ring.WriteIdx(), writer := Idle)
  }

  function WriterStep(env: Env, s: World): (t: World)
    requires 0 < env.cfg.cap == |s.cells| && |s.readers| == env.readers
    ensures |t.cells| == |s.cells| && t.readers == s.readers
  {
    match s.writer
    case Idle => s
    case Announcing(f, k) =>
      if k < Early(env, s, f) then StoreOldest(env, s, f, k).(writer := Announcing(f, k + 1))
      else if s.hand.Nothing? then s
      else BeginFill(env, s, f)
    case Filling(f, prev, n) =>
      if |s.log| == 0 then s
      else if n == 0 then StoreBuf(env, s, f, prev)
      else if n <= WORDS then StoreWord(env, s, f, prev, n)
      else EndFill(env, s, f, prev)
    case Scanning(f, prev, i) =>
      if i >= env.readers then s.(writer := Releasing(f, prev))
      else if s.readers[i].inCs then s.(writer := Scanning(f, prev, 0))
      else s.(writer := Scanning(f, prev, i + 1))
    case Releasing(f, prev) =>
      s.(refs := DropRef(s.refs, prev, Retired), writer := Settling(f, Early(env, s, f)))
    case Settling(f, k) =>
      if k < |Oldests(env, s, f)| then StoreOldest(env, s, f, k).(writer := Settling(f, k + 1))
      else Unlock(env, s, f)
  }

  // ---------------------------------------------------------------------------------------------
  // A reader
  // ---------------------------------------------------------------------------------------------

  function WithReader(s: World, r: nat, rd: Reader): World
    requires r < |s.readers|
  {
    s.(readers := s.readers[r := rd])
  }

  function Goto(s: World, r: nat, pc: Pc): World
    requires r < |s.readers|
  {
    WithReader(s, r, s.readers[r].(pc := pc))
  }

  function CellOf(env: Env, s: World, r: nat): Cell
    requires 0 < env.cfg.cap == |s.cells| && r < |s.readers|
  {
    s.cells[s.readers[r].readIdx % env.cfg.cap]
  }

  /** One load of the copy: word `w` of the view, or the buffer pointer. */
  function LoadWord(env: Env, s: World, r: nat, w: nat): (t: World)
    requires 0 < env.cfg.cap == |s.cells| && r < |s.readers|
    ensures t == s.(readers := t.readers) && |t.readers| == |s.readers|
  {
    var pc := s.readers[r].pc;
    var c := CellOf(env, s, r);
    if !pc.Copying? then s
    else if w < WORDS && w < |c.words| then Goto(s, r, pc.(got := pc.got[w := c.words[w]]))
    else Goto(s, r, pc.(buf := Some(c.buf)))
  }

  predicate AllLoaded(pc: Pc) {
    pc.Copying? && pc.buf.Some? && forall w :: 0 <= w < WORDS ==> w in pc.got
  }

  function Assembled(pc: Pc): (words: seq<Word>)
    requires AllLoaded(pc)
    ensures |words| == WORDS && forall w :: 0 <= w < WORDS ==> words[w] == pc.got[w]
  {
    seq(WORDS, w requires 0 <= w < WORDS && AllLoaded(pc) => pc.got[w])
  }

  /** The second load of the slot's sequence number and the tests that follow it. */
  function SecondLook(env: Env, s: World, r: nat): World
    requires 0 < env.cfg.cap == |s.cells| && r < |s.readers| && AllLoaded(s.readers[r].pc)
  {
    var pc := s.readers[r].pc;
    var s2 := CellOf(env, s, r).seqno;
    if pc.s1 != s2 || s2 % 2 == 1 then Goto(s, r, Leaving(Busy))
    else if pc.buf.value.None? || Assembled(pc)[LEN_WORD] == Num(0) then Goto(s, r, Leaving(Empty))
    else Goto(s, r, Copied(pc.s1, pc.buf.value.value, Assembled(pc)))
  }

  function TryRef(s: World, r: nat): World
    requires r < |s.readers| && s.readers[r].pc.Copied?
  {
    var pc := s.readers[r].pc;
    if Live(s, pc.b) then Goto(s, r, Refd(pc.s1, pc.b, pc.words)).(refs := AddRef(s.refs, pc.b, Local(r)))
    else Goto(s, r, Leaving(Busy))
  }

  function ThirdLook(env: Env, s: World, r: nat): World
    requires 0 < env.cfg.cap == |s.cells| && r < |s.readers| && s.readers[r].pc.Refd?
  {
    var pc := s.readers[r].pc;
    if pc.s1 != CellOf(env, s, r).seqno then
      Goto(s, r, Leaving(Busy)).(refs := DropRef(s.refs, pc.b, Local(r)))
    else Goto(s, r, Leaving(Got(pc.b, pc.words)))
  }

  function LeaveCs(s: World, r: nat): World
    requires r < |s.readers| && s.readers[r].pc.Leaving?
  {
    var rd := s.readers[r].(inCs := false);
    match rd.pc.out
    case Busy => WithReader(s, r, rd.(pc := NeedLock))
    case Empty => WithReader(s, r, rd.(pc := Ready, readIdx := rd.readIdx + 1))
    case Got(b, words) => WithReader(s, r, rd.(pc := Took(b, words)))
  }

  function Deliver(s: World, r: nat, idx: nat, b: BufId, words: seq<Word>): World
    requires r < |s.readers|
  {
    var rd := s.readers[r];
    WithReader(s, r, rd.(pc := Ready, readIdx := idx + 1, delivered := rd.delivered + [Delivery(idx, b, words)],
                         kept := rd.kept[rd.taken := Delivery(idx, b, words)], taken := rd.taken + 1))
    .(refs := AddRef(DropRef(s.refs, b, Local(r)), b, Kept(r, rd.taken)))
  }

  /** The test of `oldest_seq` after a successful lock-free take. */
  function Recheck(s: World, r: nat): World
    requires r < |s.readers| && s.readers[r].pc.Took?
  {
    var rd := s.readers[r];
    if rd.readIdx < s.oldestSeq then Goto(s, r, NeedLock).(refs := DropRef(s.refs, rd.pc.b, Local(r)))
    else Deliver(s, r, rd.readIdx, rd.pc.b, rd.pc.words)
  }

  function ReaderStep(env: Env, s: World, r: nat): (t: World)
    requires 0 < env.cfg.cap == |s.cells| && r < |s.readers|
    ensures t == s.(readers := t.readers, refs := t.refs) && |t.readers| == |s.readers|
  {
    var rd := s.readers[r];
    match rd.pc
    case Ready => if rd.readIdx >= s.writeSeq then s else Goto(s, r, SawNew)
    case SawNew =>
      Goto(s, r, if !rd.fromBeginning && rd.readIdx >= s.oldestSeq then Entering else NeedLock)
    case Entering => WithReader(s, r, rd.(pc := InCs, inCs := true))
    case InCs =>
      var s1 := CellOf(env, s, r).seqno;
      Goto(s, r, if s1 % 2 == 1 then Leaving(Busy) else Copying(s1, None, map[]))
    case Copying(_, _, _) => if AllLoaded(rd.pc) then SecondLook(env, s, r) else s
    case Copied(_, _, _) => TryRef(s, r)
    case Refd(_, _, _) => ThirdLook(env, s, r)
    case Leaving(_) => LeaveCs(s, r)
    case Took(_, _) => Recheck(s, r)
    case NeedLock => s
  }

  /** The first synchronisation frame at or after `i`, or `miss`. */
  function FirstSync(env: Env, ring: Ring, i: nat, miss: nat): nat
    decreases ring.WriteIdx() - i
  {
    if i >= ring.WriteIdx() then miss
    else if env.sync(ring.committed[i]) then i
    else FirstSync(env, ring, i + 1, miss)
  }

  /** Where the locked path reads: at the oldest kept index if the reader fell behind, or, when it is
      filling the interleaver, at a synchronisation frame from the newest GOP on. */
  function LockedIdx(env: Env, ring: Ring, rd: Reader, mux: bool): int {
    var oldest := if rd.fromBeginning then ring.BeginningIdx() else ring.OldestIdx();
    if rd.readIdx >= oldest then rd.readIdx
    else if !mux then oldest
    else
      var newest := if |ring.gops| > 0 then ring.gops[|ring.gops| - 1].start else oldest;
      var snap := if newest >= oldest then newest else oldest;
      if snap < 0 then snap else FirstSync(env, ring, snap, snap)
  }

  /** The locked path, taken only while the mutex is free. */
  function LockedTake(env: Env, s: World, r: nat, mux: bool): (t: World)
    requires 0 < env.cfg.cap == |s.cells| && r < |s.readers|
    ensures t == s.(readers := t.readers, refs := t.refs) && |t.readers| == |s.readers|
  {
    var rd := s.readers[r];
    var idx := LockedIdx(env, s.ring, rd, mux);
    if idx < 0 then s
    else if idx >= s.ring.WriteIdx() then WithReader(s, r, rd.(pc := Ready, readIdx := idx))
    else
      var c := s.cells[idx % env.cfg.cap];
      if c.buf.None? || |c.words| != WORDS || c.words[LEN_WORD] == Num(0) then
        WithReader(s, r, rd.(pc := Ready, readIdx := idx + 1))
      else
        Deliver(s.(refs := AddRef(s.refs, c.buf.value, Local(r))), r, idx, c.buf.value, c.words)
  }

  // ---------------------------------------------------------------------------------------------
  // Steps and runs
  // ---------------------------------------------------------------------------------------------

  /** `WTake` hands the writer a buffer with a reference of its own; `WLend` the buffer of the slot that is next,
      if only that slot owns it.  `WFill` stores bytes into the buffer at hand, any number of times. */
  datatype Step =
    | WTake(b: BufId)
    | WLend
    | WFill(bytes: seq<int>)
    | WBegin(f: Frame)
    | WReject(f: Frame)
    | WGiveUp
    | WConfigure(op: Op)
    | WStep
    | RStep(r: nat)
    | RLoad(r: nat, w: nat)
    | RLocked(r: nat, mux: bool)
    | RDrop(r: nat, j: nat)
    | RSeek(r: nat, to: nat)

  /** The buffer of the slot that is next, if nobody else owns it. */
  function Spare(env: Env, s: World): Option<BufId>
    requires 0 < env.cfg.cap == |s.cells|
  {
    var k := Target(env, s);
    var buf := s.cells[k].buf;
    if buf.Some? && Owners(s.refs, buf.value) == {InCell(k)} then buf else None
  }

  predicate Enabled(env: Env, s: World, step: Step)
    requires 0 < env.cfg.cap == |s.cells|
  {
    match step
    case WTake(b) => s.writer.Idle? && s.hand.Nothing?
    case WLend => s.writer.Idle? && s.hand.Nothing? && Spare(env, s).Some?
    case WFill(bytes) => s.writer.Idle? && !s.hand.Nothing?
    case WBegin(f) =>
      s.writer.Idle? && !s.hand.Nothing? && Content(s, s.hand.b) == f.data && Accepts(env.pol, Seen(s, f), f)
    case WReject(f) =>
      s.writer.Idle? && !s.hand.Nothing? && |f.data| > 0 && !Accepts(env.pol, Seen(s, f), f)
    case WGiveUp => s.writer.Idle? && !s.hand.Nothing?
    case WConfigure(op) => s.writer.Idle? && (op.OpTarget? || op.OpCache? || op.OpVideoConfig?)
    case WStep => !s.writer.Idle?
    case RStep(r) => r < |s.readers|
    case RLoad(r, w) => r < |s.readers| && s.readers[r].pc.Copying?
    case RLocked(r, mux) => r < |s.readers| && s.readers[r].pc.NeedLock? && s.writer.Idle?
    case RDrop(r, j) => r < |s.readers| && j in s.readers[r].kept
    case RSeek(r, to) => r < |s.readers| && s.readers[r].pc.Ready? && s.writer.Idle? && to <= s.ring.WriteIdx()
  }

  /** The buffer at hand is unreferenced: with a lent buffer, that drops the reference of its slot. */
  function Unhand(env: Env, s: World): World
    requires 0 < env.cfg.cap == |s.cells|
  {
    match s.hand
    case Nothing => s
    case Own(b) => s.(refs := DropRef(s.refs, b, Producer), hand := Nothing)
    case Lent(b) => s.(refs := DropRef(s.refs, b, InCell(Target(env, s))), hand := Nothing)
  }

  function Do(env: Env, s: World, step: Step): (t: World)
    requires 0 < env.cfg.cap == |s.cells| && |s.readers| == env.readers && Enabled(env, s, step)
    ensures |t.cells| == |s.cells| && |t.readers| == |s.readers|
  {
    match step
    case WTake(b) => s.(hand := Own(b), refs := s.refs[b := Owners(s.refs, b) + {Producer}])
    case WLend => s.(hand := Lent(Spare(env, s).value))
    case WFill(bytes) => s.(data := s.data[s.hand.b := bytes])
    case WBegin(f) =>
      s.(writer := Announcing(f, |s.ring.published|), clean := s.clean && !Stuck(env.cfg, s.ring))
    case WReject(f) => Unhand(env, s).(ring := Seen(s, f))
    case WGiveUp => Unhand(env, s)
    case WConfigure(op) => s.(ring := Apply(env.cfg, env.pol, s.ring, op))
    case WStep => WriterStep(env, s)
    case RStep(r) => ReaderStep(env, s, r)
    case RLoad(r, w) => LoadWord(env, s, r, w)
    case RLocked(r, mux) => LockedTake(env, s, r, mux)
    case RDrop(r, j) =>
      var rd := s.readers[r];
      WithReader(s, r, rd.(kept := rd.kept - {j})).(refs := DropRef(s.refs, rd.kept[j].b, Kept(r, j)))
    case RSeek(r, to) => WithReader(s, r, s.readers[r].(readIdx := to, delivered := []))
  }

  /** A refused frame, or a writer that gives up, whose buffer was lent by its slot. */
  predicate Spoils(s: World, step: Step) {
    s.hand.Lent? && (step.WReject? || step.WGiveUp?)
  }
}
