/** Safety of the shared ring over every interleaving, and correctness of the index a frame is
    delivered at. */
module SeqlockSafety {
  import opened GopRing
  import opened Wrappers
  import opened Seqlock

  // ---------------------------------------------------------------------------------------------
  // The invariant
  // ---------------------------------------------------------------------------------------------

  /** The publication of a new frame has begun and the mutex is not yet released. */
  predicate Publishing(w: Writer) {
    w.Filling? || w.Scanning? || w.Releasing? || w.Settling?
  }

  /** The buffer that has left its slot and that the writer still has to release. */
  function RetiredBuf(w: Writer): Option<BufId> {
    match w
    case Filling(_, prev, n) => if n >= 1 then prev else None
    case Scanning(_, was, _) => Some(was)
    case Releasing(_, was) => Some(was)
    case _ => None
  }

  ghost predicate Dims(env: Env, s: World) {
    env.cfg.Valid() && |s.cells| == env.cfg.cap && |s.readers| == env.readers
  }

  ghost predicate Sized(env: Env, s: World) {
    && Dims(env, s)
    && RingInv(env.cfg, s.ring) && |s.ring.published| > 0
    && s.writeSeq == s.ring.WriteIdx()
    && (!s.writer.Idle? ==> Accepts(env.pol, Seen(s, s.writer.f), s.writer.f))
  }

  ghost predicate LogOk(s: World) {
    && |s.log| == s.ring.WriteIdx() + (if Publishing(s.writer) then 1 else 0)
    && (forall i :: 0 <= i < s.ring.WriteIdx() ==> s.log[i].slot == s.ring.committed[i])
    && (Publishing(s.writer) ==> s.log[s.ring.WriteIdx()].slot == Stored(s.writer.f))
    && (forall i :: 0 <= i < |s.log| ==> |s.log[i].slot.data| > 0)
    && (forall i :: 0 <= i < |s.log| ==> s.log[i].buf in s.refs)
  }

  /** `hist` is the increasing list of all indices below `n` that fall into slot `k`. */
  ghost predicate HistOk(cap: nat, k: nat, hist: seq<nat>, n: nat)
    requires cap > 0
  {
    && (forall a :: 0 <= a < |hist| ==> hist[a] < n && hist[a] % cap == k)
    && (forall a, b :: 0 <= a < b < |hist| ==> hist[a] < hist[b])
    && (forall i :: 0 <= i < n && i % cap == k ==> |hist| > 0 && i <= hist[|hist| - 1])
  }

  /** A slot nobody is writing shows its last publication, whole. */
  ghost predicate StableCell(c: Cell, log: seq<Pub>) {
    && c.seqno == 2 * |c.hist|
    && (|c.hist| == 0 ==> c.buf == None)
    && (|c.hist| > 0 ==>
          var j := c.hist[|c.hist| - 1];
          j < |log| && c.buf == Some(log[j].buf) && c.words == Words(log[j]))
  }

  /** A slot being filled shows the first stores of its next publication. */
  ghost predicate FillingCell(c: Cell, log: seq<Pub>, prev: Option<BufId>, n: nat) {
    && |c.hist| > 0 && c.seqno == 2 * |c.hist| - 1 && n <= WORDS + 1
    && |log| > 0 && c.hist[|c.hist| - 1] == |log| - 1
    && (n == 0 ==> prev == if c.buf == Some(log[|log| - 1].buf) then None else c.buf)
    && (prev.Some? ==> |c.hist| > 1 && c.hist[|c.hist| - 2] < |log| && prev == Some(log[c.hist[|c.hist| - 2]].buf))
    && (n >= 1 ==> c.buf == Some(log[|log| - 1].buf))
    && (forall w :: 0 <= w < n - 1 && w < |c.words| ==> c.words[w] == Words(log[|log| - 1])[w])
  }

  ghost predicate CellOk(env: Env, s: World, k: nat)
    requires 0 < env.cfg.cap == |s.cells| && k < |s.cells|
  {
    var c := s.cells[k];
    && |c.words| == WORDS && HistOk(env.cfg.cap, k, c.hist, |s.log|)
    && if s.writer.Filling? && k == Target(env, s) then FillingCell(c, s.log, s.writer.prev, s.writer.n)
       else StableCell(c, s.log)
  }

  ghost predicate CellsOk(env: Env, s: World)
    requires 0 < env.cfg.cap == |s.cells|
  {
    forall k :: 0 <= k < |s.cells| ==> CellOk(env, s, k)
  }

  ghost predicate HasRef(s: World, b: BufId, o: Owner) {
    b in s.refs && o in s.refs[b]
  }

  /** The writer can rely on buffer `b`: by a reference of its own, or by that of the slot that is next. */
  ghost predicate Brings(env: Env, s: World, b: BufId)
    requires 0 < env.cfg.cap == |s.cells|
  {
    b in s.refs && (HasRef(s, b, Producer) || s.cells[Target(env, s)].buf == Some(b))
  }

  /** The buffer at hand, until its publication begins. */
  ghost predicate HandOk(env: Env, s: World)
    requires 0 < env.cfg.cap == |s.cells|
  {
    && (s.writer.Announcing? ==> !s.hand.Nothing?)
    && (!s.hand.Nothing? ==> (s.writer.Idle? || s.writer.Announcing?) && s.hand.b in s.refs)
    && (s.hand.Own? ==> HasRef(s, s.hand.b, Producer))
    && (s.hand.Lent? ==> s.cells[Target(env, s)].buf == Some(s.hand.b))
  }

  /** Every reference that somebody relies on is outstanding. */
  ghost predicate RefsOk(env: Env, s: World)
    requires 0 < env.cfg.cap == |s.cells|
  {
    && (forall k :: 0 <= k < |s.cells| && s.cells[k].buf.Some? ==> HasRef(s, s.cells[k].buf.value, InCell(k)))
    && (RetiredBuf(s.writer).Some? ==> HasRef(s, RetiredBuf(s.writer).value, Retired))
    && (s.writer.Filling? && s.writer.n == 0 && |s.log| > 0 ==> Brings(env, s, s.log[|s.log| - 1].buf))
  }

  /** Which entry of the commit's `oldest_seq` values has been stored last. */
  ghost function LastOldest(env: Env, s: World): int {
    match s.writer
    case Idle => |s.ring.published| - 1
    case Announcing(_, k) => k - 1
    case Settling(_, k) => k - 1
    case _ => Early(env, s, s.writer.f) - 1
  }

  ghost predicate PhaseOk(env: Env, s: World) {
    && (s.writer.Idle? ==> s.oldestSeq == s.ring.OldestSeq())
    && (!s.writer.Idle? ==>
          0 <= LastOldest(env, s) < |Oldests(env, s, s.writer.f)| &&
          s.oldestSeq == Oldests(env, s, s.writer.f)[LastOldest(env, s)])
    && (s.writer.Announcing? ==> |s.ring.published| <= s.writer.k <= Early(env, s, s.writer.f))
    && (s.writer.Settling? ==> Early(env, s, s.writer.f) <= s.writer.k <= |Oldests(env, s, s.writer.f)|)
  }

  /** In a clean run, everything lock-free readers accept is still in the ring. */
  ghost predicate GuardOk(env: Env, s: World) {
    && (s.clean ==> s.oldestSeq + env.cfg.cap >= |s.log|)
    && (s.clean && !s.writer.Idle? ==> !Stuck(env.cfg, s.ring))
  }

  // ---- readers

  predicate LockFree(pc: Pc) {
    !pc.Ready? && !pc.NeedLock?
  }

  predicate InSection(pc: Pc) {
    pc.InCs? || pc.Copying? || pc.Copied? || pc.Refd? || pc.Leaving?
  }

  /** A buffer pointer the reader has read and holds no reference for. */
  function BarePointer(pc: Pc): Option<BufId> {
    match pc
    case Copying(_, buf, _) => if buf.Some? then buf.value else None
    case Copied(_, b, _) => Some(b)
    case _ => None
  }

  /** What the reader has taken, if anything, and not yet delivered. */
  function Taken(pc: Pc): Option<(BufId, seq<Word>)> {
    match pc
    case Refd(_, b, words) => Some((b, words))
    case Leaving(Got(b, words)) => Some((b, words))
    case Took(b, words) => Some((b, words))
    case _ => None
  }

  /** (b, words) is one whole publication into the slot of index `i`, and not one older than `i`. */
  ghost predicate FromOne(cap: nat, log: seq<Pub>, i: nat, b: BufId, words: seq<Word>)
    requires cap > 0
  {
    exists j :: i <= j < |log| && j % cap == i % cap && b == log[j].buf && words == Words(log[j])
  }

  /** (b, words) is exactly the publication of the frame committed at index `i`. */
  ghost predicate Exact(log: seq<Pub>, i: nat, b: BufId, words: seq<Word>) {
    i < |log| && b == log[i].buf && words == Words(log[i])
  }

  /** The pointer is still in the slot, or the writer is retiring it and has not yet scanned past
      this reader. */
  ghost predicate Protected(env: Env, s: World, r: nat, k: nat, p: BufId)
    requires 0 < env.cfg.cap == |s.cells| && k < |s.cells|
  {
    || s.cells[k].buf == Some(p)
    || (RetiredBuf(s.writer) == Some(p) && !s.writer.Releasing? && (s.writer.Scanning? ==> s.writer.i <= r))
  }

  /** What the reader has copied so far is the slot's content as long as the slot has not changed. */
  ghost predicate CopyOk(c: Cell, idx: nat, s1: nat, buf: Option<Option<BufId>>, got: map<nat, Word>) {
    && s1 % 2 == 0 && s1 <= c.seqno && 0 < s1 / 2 <= |c.hist| && idx <= c.hist[s1 / 2 - 1]
    && (c.seqno == s1 ==> (buf.Some? ==> buf.value == c.buf)
                          && forall w :: w in got && w < |c.words| ==> got[w] == c.words[w])
  }

  /** What a reader with cursor `readIdx` has delivered, out of `w` frames. */
  ghost predicate DeliveredOk(cap: nat, log: seq<Pub>, w: nat, d: seq<Delivery>, readIdx: nat, clean: bool)
    requires cap > 0
  {
    && (forall a, b :: 0 <= a < b < |d| ==> d[a].idx < d[b].idx)
    && (forall a :: 0 <= a < |d| ==> d[a].idx < readIdx && d[a].idx < w && FromOne(cap, log, d[a].idx, d[a].b, d[a].words))
    && (clean ==> forall a :: 0 <= a < |d| ==> Exact(log, d[a].idx, d[a].b, d[a].words))
  }

  /** What reader `r` keeps, it has references to. */
  ghost predicate KeptOk(refs: map<BufId, set<Owner>>, r: nat, kept: map<nat, Delivery>, taken: nat) {
    forall j :: j in kept ==> j < taken && kept[j].b in refs && Kept(r, j) in refs[kept[j].b]
  }

  ghost predicate ReaderOk(env: Env, s: World, r: nat)
    requires 0 < env.cfg.cap == |s.cells| && r < |s.readers|
  {
    var rd := s.readers[r];
    var k := rd.readIdx % env.cfg.cap;
    && rd.inCs == InSection(rd.pc)
    && (LockFree(rd.pc) ==> rd.readIdx < s.ring.WriteIdx())
    && (BarePointer(rd.pc).Some? ==> Protected(env, s, r, k, BarePointer(rd.pc).value))
    && (rd.pc.Copying? ==> CopyOk(s.cells[k], rd.readIdx, rd.pc.s1, rd.pc.buf, rd.pc.got))
    && (rd.pc.Copied? ==> FromOne(env.cfg.cap, s.log, rd.readIdx, rd.pc.b, rd.pc.words))
    && (Taken(rd.pc).Some? ==>
          && FromOne(env.cfg.cap, s.log, rd.readIdx, Taken(rd.pc).value.0, Taken(rd.pc).value.1)
          && HasRef(s, Taken(rd.pc).value.0, Local(r)))
    && rd.pc != Leaving(Empty)
    && KeptOk(s.refs, r, rd.kept, rd.taken)
    && DeliveredOk(env.cfg.cap, s.log, s.ring.WriteIdx(), rd.delivered, rd.readIdx, s.clean)
  }

  ghost predicate ReadersOk(env: Env, s: World)
    requires 0 < env.cfg.cap == |s.cells|
  {
    forall r :: 0 <= r < |s.readers| ==> ReaderOk(env, s, r)
  }

  ghost predicate Inv(env: Env, s: World) {
    && Sized(env, s) && LogOk(s) && CellsOk(env, s) && RefsOk(env, s) && HandOk(env, s) && PhaseOk(env, s)
    && GuardOk(env, s) && ReadersOk(env, s)
  }

  // ---------------------------------------------------------------------------------------------
  // What a step leaves alone
  // ---------------------------------------------------------------------------------------------

  ghost predicate LogGrows(a: seq<Pub>, b: seq<Pub>) {
    |a| <= |b| && forall i :: 0 <= i < |a| ==> b[i] == a[i]
  }

  ghost predicate HistGrows(a: seq<nat>, b: seq<nat>) {
    |a| <= |b| && forall i :: 0 <= i < |a| ==> b[i] == a[i]
  }

  ghost predicate KeepsReaderRefs(s: World, t: World) {
    forall b, o :: HasRef(s, b, o) && (o.Local? || o.Kept?) ==> HasRef(t, b, o)
  }

  lemma FromOneGrows(cap: nat, log: seq<Pub>, log': seq<Pub>, i: nat, b: BufId, words: seq<Word>)
    requires cap > 0 && LogGrows(log, log') && FromOne(cap, log, i, b, words)
    ensures FromOne(cap, log', i, b, words)
  {
    var j :| i <= j < |log| && j % cap == i % cap && b == log[j].buf && words == Words(log[j]);
    assert log'[j] == log[j];
  }

  lemma DeliveredGrows(cap: nat, log: seq<Pub>, log': seq<Pub>, w: nat, w': nat, d: seq<Delivery>, readIdx: nat, clean: bool, clean': bool)
    requires cap > 0 && LogGrows(log, log') && w <= w' && DeliveredOk(cap, log, w, d, readIdx, clean) && (clean' ==> clean)
    ensures DeliveredOk(cap, log', w', d, readIdx, clean')
  {
    forall a | 0 <= a < |d| ensures FromOne(cap, log', d[a].idx, d[a].b, d[a].words) {
      FromOneGrows(cap, log, log', d[a].idx, d[a].b, d[a].words);
    }
  }

  lemma KeptStays(s: World, t: World, r: nat, kept: map<nat, Delivery>, taken: nat)
    requires KeptOk(s.refs, r, kept, taken) && forall b, j :: HasRef(s, b, Kept(r, j)) ==> HasRef(t, b, Kept(r, j))
    ensures KeptOk(t.refs, r, kept, taken)
  {
    forall j | j in kept ensures HasRef(t, kept[j].b, Kept(r, j)) { assert HasRef(s, kept[j].b, Kept(r, j)); }
  }

  /** A slot change that a reader in the middle of a copy either does not see or will notice. */
  ghost predicate Noticed(c: Cell, c': Cell) {
    && HistGrows(c.hist, c'.hist) && c.seqno <= c'.seqno && |c'.words| == |c.words|
    && (c.seqno == c'.seqno ==> c.seqno % 2 == 1 || (c'.buf == c.buf && c'.words == c.words))
  }

  /** A reader that did not move keeps its part of the invariant. */
  lemma ReaderStays(env: Env, s: World, t: World, r: nat)
    requires 0 < env.cfg.cap == |s.cells| == |t.cells| && r < |s.readers| == |t.readers|
    requires ReaderOk(env, s, r) && t.readers[r] == s.readers[r]
    requires LogGrows(s.log, t.log) && s.ring.WriteIdx() <= t.ring.WriteIdx() && (t.clean ==> s.clean)
    requires KeepsReaderRefs(s, t)
    requires var k := s.readers[r].readIdx % env.cfg.cap; Noticed(s.cells[k], t.cells[k])
    requires var k := s.readers[r].readIdx % env.cfg.cap; var p := BarePointer(s.readers[r].pc);
             p.Some? ==> Protected(env, t, r, k, p.value)
    ensures ReaderOk(env, t, r)
  {
    var rd := s.readers[r];
    if rd.pc.Copied? { FromOneGrows(env.cfg.cap, s.log, t.log, rd.readIdx, rd.pc.b, rd.pc.words); }
    if Taken(rd.pc).Some? {
      FromOneGrows(env.cfg.cap, s.log, t.log, rd.readIdx, Taken(rd.pc).value.0, Taken(rd.pc).value.1);
    }
    DeliveredGrows(env.cfg.cap, s.log, t.log, s.ring.WriteIdx(), t.ring.WriteIdx(), rd.delivered, rd.readIdx, s.clean, t.clean);
    KeptStays(s, t, r, rd.kept, rd.taken);
    hide DeliveredOk, KeptOk, FromOne, LogGrows;
  }

  /** Whatever a reader inside its section may point to stays protected. */
  ghost predicate KeepsProtection(env: Env, s: World, t: World)
    requires 0 < env.cfg.cap == |s.cells| == |t.cells|
  {
    forall r: nat, k: nat, p: nat ::
      r < |s.readers| && k < |s.cells| && s.readers[r].inCs && Protected(env, s, r, k, p) ==> Protected(env, t, r, k, p)
  }

  /** A writer step that keeps every bare pointer protected keeps all readers. */
  lemma ReadersStay(env: Env, s: World, t: World)
    requires 0 < env.cfg.cap == |s.cells| == |t.cells| && t.readers == s.readers && ReadersOk(env, s)
    requires LogGrows(s.log, t.log) && s.ring.WriteIdx() <= t.ring.WriteIdx() && (t.clean ==> s.clean)
    requires KeepsReaderRefs(s, t)
    requires forall k :: 0 <= k < |s.cells| ==> Noticed(s.cells[k], t.cells[k])
    requires KeepsProtection(env, s, t)
    ensures ReadersOk(env, t)
  {
    forall r | 0 <= r < |s.readers| ensures ReaderOk(env, t, r) {
      assert ReaderOk(env, s, r);
      var k := s.readers[r].readIdx % env.cfg.cap;
      assert Noticed(s.cells[k], t.cells[k]);
      ReaderStays(env, s, t, r);
    }
  }

  lemma TwoAnnouncements(a: seq<nat>, p: seq<nat>, F: seq<nat>, w: int)
    requires |a| > 0 && Announced(a, p, w) && Announced(p, F, w + 1)
    ensures |a| <= |p| <= |F| && F[|a| - 1] == a[|a| - 1]
    ensures a[|a| - 1] >= w && p[|p| - 1] >= w + 1 ==>
              forall i :: |a| - 1 <= i < |F| ==> F[i] >= w + (if i >= |p| - 1 then 1 else 0)
  {
    assert F[|a| - 1] == p[|a| - 1] && F[|p| - 1] == p[|p| - 1];
    forall i | a[|a| - 1] >= w && p[|p| - 1] >= w + 1 && |a| - 1 <= i < |F|
      ensures F[i] >= w + (if i >= |p| - 1 then 1 else 0)
    {
      if i < |p| { assert F[i] == p[i]; }
    }
  }

  /** `newer` continues `older` and, if `g`, never falls below `w`, nor below `w + 1` from `mid` on. */
  ghost predicate Continues(older: seq<nat>, newer: seq<nat>, mid: nat, w: int, g: bool) {
    && 0 < |older| <= mid <= |newer| && newer[|older| - 1] == older[|older| - 1]
    && (g ==> forall i :: |older| - 1 <= i < |newer| ==> newer[i] >= w + (if i >= mid - 1 then 1 else 0))
  }

  lemma PrepareAnnounces(cfg: Config, pol: Policy, a: Ring, f: Frame)
    requires RingInv(cfg, a) && |a.published| > 0
    ensures var p := Prepare(cfg, pol, a, f).published; var w := a.WriteIdx() - cfg.cap;
            && Announced(a.published, p, w) && |p| > 0
            && (!Stuck(cfg, a) ==> a.published[|a.published| - 1] >= w && p[|p| - 1] >= w + 1)
  {
    PrepareKeeps(cfg, pol, a, f);
  }

  lemma SettleAnnounces(cfg: Config, pol: Policy, a: Ring, f: Frame)
    requires RingInv(cfg, a)
    ensures Announced(Prepare(cfg, pol, a, f).published, Store(cfg, pol, a, f).published, a.WriteIdx() - cfg.cap + 1)
  {
    PrepareKeeps(cfg, pol, a, f);
    var p := Prepare(cfg, pol, a, f);
    StoreKeeps(cfg, p, f);
    SettleKeeps(cfg, pol, StoreFrame(cfg, p, f), f);
  }

  lemma CommitAnnounces(cfg: Config, pol: Policy, a: Ring, f: Frame)
    requires RingInv(cfg, a) && |a.published| > 0
    ensures Continues(a.published, Store(cfg, pol, a, f).published, |Prepare(cfg, pol, a, f).published|,
                      a.WriteIdx() - cfg.cap, !Stuck(cfg, a))
  {
    PrepareAnnounces(cfg, pol, a, f);
    SettleAnnounces(cfg, pol, a, f);
    TwoAnnouncements(a.published, Prepare(cfg, pol, a, f).published, Store(cfg, pol, a, f).published,
                     a.WriteIdx() - cfg.cap);
  }

  /** The `oldest_seq` values of one commit continue the ones stored before, and on a ring that is not
      full without a GOP they announce every frame before it is overwritten. */
  lemma OldestsOk(env: Env, s: World, f: Frame)
    requires Sized(env, s)
    ensures Continues(s.ring.published, Oldests(env, s, f), Early(env, s, f), s.ring.WriteIdx() - env.cfg.cap,
                      !Stuck(env.cfg, s.ring))
  {
    CommitAnnounces(env.cfg, env.pol, Seen(s, f), f);
  }
}
