/** The live GOP queue: a slot array indexed by absolute frame number modulo the capacity, and a GOP
    index kept in two arrays.  Every method is one operation under the queue mutex and is proved to
    compute the operation of the same name on the ring value `State()`. */
module GopQueue {
  import opened GopCommit
  import opened GopRing
  import opened Wrappers

  /** Two absolute indices less than one lap apart never share a slot. */
  lemma SameSlot(i: int, j: int, cap: int)
    requires cap > 0 && 0 <= i && 0 <= j && i % cap == j % cap && -cap < i - j < cap
    ensures i == j
  {
    var d := i / cap - j / cap;
    assert i - j == cap * d by { assert i == cap * (i / cap) + i % cap && j == cap * (j / cap) + j % cap; }
    assert d == 0 by { assert d >= 1 ==> cap * d >= cap; assert d <= -1 ==> cap * d <= -cap; }
  }

  /** The slots hold exactly the last `|slots|` committed frames. */
  ghost predicate Holds(slots: seq<Option<Slot>>, committed: seq<Slot>) {
    && |slots| > 0
    && (forall i :: 0 <= i < |committed| && |committed| - |slots| <= i ==> slots[i % |slots|] == Some(committed[i]))
    && (forall k :: |committed| <= k < |slots| ==> slots[k] == None)
  }

  /** The frame in the slot of index `i`: the newest one whose index is `i` up to laps. */
  function Shown(w: nat, cap: nat, i: nat): (j: int)
    requires cap > 0 && i < w
    ensures i <= j < w && w - cap <= j && (w - cap <= i ==> j == i)
  {
    w - 1 - (w - 1 - i) % cap
  }

  lemma ShownSharesSlot(w: nat, cap: nat, i: nat)
    requires cap > 0 && i < w
    ensures Shown(w, cap, i) % cap == i % cap
  {
    var laps := (w - 1 - i) / cap;
    assert Shown(w, cap, i) == i + laps * cap;
    RemainderIs(i + laps * cap, cap, i / cap + laps, i % cap);
  }

  lemma RemainderIs(a: int, cap: int, q: int, r: int)
    requires 0 <= r < cap && a == q * cap + r
    ensures a % cap == r
  {
    var e := q - a / cap;
    assert e * cap == a % cap - r;
    assert e >= 1 ==> e * cap >= cap;
    assert e <= -1 ==> e * cap <= -cap;
  }

  /** What the slots of the indices from `start` up to `end` show. */
  function ShownRun(committed: seq<Slot>, cap: nat, start: nat, end: nat): (f: seq<Slot>)
    requires cap > 0 && start <= end <= |committed|
    ensures |f| == end - start
  {
    seq(end - start, k requires 0 <= k < end - start => committed[Shown(|committed|, cap, start + k)])
  }

  /** Within the last lap these are the frames committed at the indices. */
  lemma ShownRunExact(committed: seq<Slot>, cap: nat, start: nat, end: nat)
    requires cap > 0 && |committed| - cap <= start <= end <= |committed|
    ensures ShownRun(committed, cap, start, end) == committed[start..end]
  {
    var f := ShownRun(committed, cap, start, end);
    forall k | 0 <= k < |f| ensures f[k] == committed[start..end][k] {
      assert Shown(|committed|, cap, start + k) == start + k;
    }
  }

  lemma OtherSlot(slots: seq<Option<Slot>>, w: nat, x: Slot, i: nat)
    requires |slots| > 0 && i < w < i + |slots|
    ensures slots[w % |slots| := Some(x)][i % |slots|] == slots[i % |slots|]
  {
    if i % |slots| == w % |slots| { SameSlot(i, w, |slots|); }
  }

  lemma ShowsFrame(slots: seq<Option<Slot>>, committed: seq<Slot>, x: Slot, i: nat)
    requires Holds(slots, committed) && i <= |committed| < i + |slots|
    ensures slots[|committed| % |slots| := Some(x)][i % |slots|] == Some((committed + [x])[i])
  {
    if i < |committed| {
      OtherSlot(slots, |committed|, x, i);
      assert slots[i % |slots|] == Some(committed[i]);
    }
  }

  lemma HoldsOneMore(slots: seq<Option<Slot>>, committed: seq<Slot>, x: Slot)
    requires Holds(slots, committed)
    ensures Holds(slots[|committed| % |slots| := Some(x)], committed + [x])
  {
    var w, cap := |committed|, |slots|;
    forall i: nat | i <= w < i + cap ensures slots[w % cap := Some(x)][i % cap] == Some((committed + [x])[i]) {
      ShowsFrame(slots, committed, x, i);
    }
    if w < cap { assert w % cap == w; }
  }

  /** The GOP index as two parallel columns. */
  ghost function Zip(starts: seq<nat>, dts: seq<nat>): (g: seq<Gop>)
    requires |starts| == |dts|
    ensures |g| == |starts| && forall i :: 0 <= i < |g| ==> g[i] == Gop(starts[i], dts[i])
  {
    seq(|starts|, i requires 0 <= i < |starts| && |starts| == |dts| => Gop(starts[i], dts[i]))
  }

  class Queue {
    const cfg: Config
    const pol: Policy
    const slots: array<Option<Slot>>
    const gopStart: array<nat>
    const gopDts: array<nat>
    var writeIdx: nat
    var writeSeq: nat
    var oldestSeq: nat
    var count: nat
    var gopCount: nat
    var targetGops: nat
    var cacheMs: nat
    var cacheStarted: bool
    var hasVideo: bool
    var keyPos: bool
    ghost var committed: seq<Slot>
    ghost var published: seq<nat>

    ghost function State(): Ring
      reads this, gopStart, gopDts
      requires gopCount <= gopStart.Length && gopCount <= gopDts.Length
    {
      Ring(committed, count, Zip(gopStart[..gopCount], gopDts[..gopCount]), published,
           targetGops, cacheMs, cacheStarted, hasVideo, keyPos)
    }

    ghost predicate Shape()
      reads this
    {
      && cfg.Valid() && slots.Length == cfg.cap && gopStart.Length == cfg.maxGop == gopDts.Length
      && gopStart != gopDts && gopCount <= cfg.maxGop
    }

    /** True at every point of every locked operation. */
    ghost predicate Valid()
      reads this, slots, gopStart, gopDts
    {
      && Shape() && writeIdx == |committed|
      && |published| > 0 && oldestSeq == published[|published| - 1]
      && Holds(slots[..], committed) && MidInv(cfg, State())
    }

    /** True between locked operations. */
    ghost predicate Stable()
      reads this, slots, gopStart, gopDts
    {
      Valid() && RingInv(cfg, State()) && writeSeq == writeIdx
    }

    constructor (cfg: Config, pol: Policy, target: nat, cacheMs: nat)
      requires cfg.Valid()
      ensures Stable() && this.cfg == cfg && this.pol == pol && State() == Fresh(cfg, target, cacheMs)
      ensures fresh(slots) && fresh(gopStart) && fresh(gopDts)
    {
      this.cfg := cfg;
      this.pol := pol;
      slots := new Option<Slot>[cfg.cap](i => None);
      var starts, dts := new nat[cfg.maxGop], new nat[cfg.maxGop];
      gopStart, gopDts := starts, dts;
      writeIdx, writeSeq, oldestSeq, count, gopCount := 0, 0, 0, 0, 0;
      targetGops := ClampTarget(cfg, target);
      this.cacheMs := cacheMs;
      cacheStarted, hasVideo, keyPos := false, false, false;
      committed, published := [], [0];
    }

    function OldestIdx(): (i: int)
      reads this, gopStart, gopDts, slots
      requires Valid()
      ensures i == State().OldestIdx() && writeIdx - count <= i <= writeIdx
    {
      if gopCount > 0 then gopStart[0] else if count > 0 then writeIdx - count else writeIdx
    }

    function BeginningIdx(): (i: int)
      reads this, slots, gopStart, gopDts
      requires Stable()
      ensures i == writeIdx - count
    {
      if count > 0 && writeIdx >= count then writeIdx - count else 0
    }

    method PublishOldest()
      requires Shape() && writeIdx == |committed| && count <= writeIdx
      modifies this`oldestSeq, this`published
      ensures Shape() && State() == Publish(old(State()), old(State()).OldestIdx())
      ensures |published| > 0 && oldestSeq == published[|published| - 1]
    {
      oldestSeq := if gopCount > 0 then gopStart[0] else if count > 0 then writeIdx - count else writeIdx;
      published := published + [oldestSeq];
    }

    /** Closes up the GOP index over its first entry. */
    method DropFirstGop()
      requires Shape() && gopCount > 0
      modifies this`gopCount, gopStart, gopDts
      ensures Shape() && State() == old(State()).(gops := old(State()).gops[1..])
    {
      forall i | 0 <= i < gopCount - 1 { gopStart[i] := gopStart[i + 1]; }
      forall i | 0 <= i < gopCount - 1 { gopDts[i] := gopDts[i + 1]; }
      gopCount := gopCount - 1;
    }

    /** Adds a GOP starting at the write index behind the others. */
    method AppendGop(dts: nat)
      requires Valid() && gopCount < cfg.maxGop
      modifies this`gopCount, gopStart, gopDts
      ensures Shape() && State() == old(State()).(gops := old(State()).gops + [Gop(writeIdx, dts)])
      ensures MidInv(cfg, State()) ==> Valid()
    {
      gopStart[gopCount] := writeIdx;
      gopDts[gopCount] := dts;
      gopCount := gopCount + 1;
    }

    /** Takes the frames of the front GOP off the count; the count is never too small for that. */
    method UncountFrontGop()
      requires Valid() && gopCount > 0
      modifies this`count
      ensures Shape() && count == old(count) - DroppedByPop(old(State())) && count >= 0
      ensures State() == old(State()).(count := count)
    {
      PopKeeps(cfg, State());
      var dropBegin := gopStart[0];
      var dropEnd := if gopCount > 1 then gopStart[1] else writeIdx;
      if dropEnd > dropBegin {
        var dropped := dropEnd - dropBegin;
        if dropped <= count {
          count := count - dropped;
        } else {
          assert false;
        }
      }
    }

    /** What popping the front GOP comes to. */
    lemma PopIs(s: Ring)
      requires MidInv(cfg, s) && s.gops != []
      ensures var t := s.(count := s.count - DroppedByPop(s), gops := s.gops[1..]);
              && 0 <= DroppedByPop(s) <= s.count && PopFront(s) == Publish(t, t.OldestIdx())
              && MidInv(cfg, Publish(t, t.OldestIdx()))
    {
      PopKeeps(cfg, s);
    }

    method TakeFrontGop()
      requires Valid() && gopCount > 0
      modifies this`count, this`gopCount, gopStart, gopDts
      ensures Shape() && Holds(slots[..], committed) && 0 <= DroppedByPop(old(State())) <= old(count)
      ensures State() == old(State()).(count := old(count) - DroppedByPop(old(State())), gops := old(State()).gops[1..])
    {
      PopIs(State());
      UncountFrontGop();
      hide MidInv, Holds, Zip, DroppedByPop;
      DropFirstGop();
    }

    method PopFrontGop()
      requires Valid()
      modifies this`count, this`gopCount, this`oldestSeq, this`published, gopStart, gopDts
      ensures Valid() && State() == PopFront(old(State()))
    {
      if gopCount == 0 {
        return;
      }
      PopIs(State());
      assert count <= writeIdx;
      hide MidInv, Holds, Zip, PopFront, Publish, DroppedByPop;
      TakeFrontGop();
      PublishOldest();
    }

    method TrimGopsForTime(now: nat)
      requires Valid()
      modifies this`count, this`gopCount, this`oldestSeq, this`published, gopStart, gopDts
      ensures Valid() && State() == TrimForTime(old(State()), now) && gopCount <= old(gopCount)
      ensures TrimmedTo(old(State()).gops, State().gops, cacheMs, now)
    {
      hide TrimmedTo;
      TrimIsExact(cfg, State(), now);
      if cacheMs == 0 {
        return;
      }
      while gopCount > 1
        invariant Valid() && TrimForTime(State(), now) == TrimForTime(old(State()), now) && gopCount <= old(gopCount)
        decreases gopCount
      {
        var oldest := gopDts[0];
        if now < oldest {
          break;
        }
        if now - oldest <= cacheMs {
          break;
        }
        PopFrontGop();
      }
    }

    method MarkStarted()
      requires Valid()
      modifies this`cacheStarted
      ensures Valid() && State() == old(State()).(cacheStarted := true)
    {
      StartKeeps(cfg, State());
      hide MidInv, Holds, Zip;
      cacheStarted := true;
    }

    /** What opening the first GOP comes to. */
    lemma FirstGopIs(s: Ring, dts: nat)
      requires RingInv(cfg, s) && s.gops == []
      ensures var t := s.(cacheStarted := true, gops := [Gop(s.WriteIdx(), dts)]);
              GopRing.OnNewGop(cfg, s, dts) == Publish(t, t.OldestIdx()) && MidInv(cfg, Publish(t, t.OldestIdx()))
    {
      FirstGopKeeps(cfg, s, dts);
    }

    method StartGop(dts: nat)
      requires Valid() && gopCount == 0
      modifies this`gopCount, this`cacheStarted, gopStart, gopDts
      ensures Shape() && Holds(slots[..], committed)
      ensures State() == old(State()).(cacheStarted := true, gops := [Gop(writeIdx, dts)])
    {
      ghost var here := [Gop(writeIdx, dts)];
      assert State().gops == [] && [] + here == here;
      hide MidInv, Holds, Zip;
      MarkStarted();
      AppendGop(dts);
    }

    method OpenFirstGop(dts: nat)
      requires Valid() && RingInv(cfg, State()) && gopCount == 0
      modifies this`gopCount, this`oldestSeq, this`published, this`cacheStarted, gopStart, gopDts
      ensures Valid() && State() == GopRing.OnNewGop(cfg, old(State()), dts)
    {
      FirstGopIs(State(), dts);
      assert count <= writeIdx;
      hide RingInv, MidInv, Holds, Zip, GopRing.OnNewGop, Publish;
      StartGop(dts);
      PublishOldest();
    }

    method MakeIndexRoom()
      requires Valid()
      modifies this`count, this`gopCount, this`oldestSeq, this`published, gopStart, gopDts
      ensures Valid() && State() == PopWhileIndexFull(cfg, old(State())) && gopCount < cfg.maxGop
    {
      while gopCount >= cfg.maxGop || (gopCount >= targetGops && count >= cfg.cap)
        invariant Valid()
        invariant PopWhileIndexFull(cfg, State()) == PopWhileIndexFull(cfg, old(State()))
        decreases gopCount
      {
        PopFrontGop();
      }
    }

    method OpenNextGop(dts: nat)
      requires Valid() && RingInv(cfg, State()) && gopCount > 0
      modifies this`count, this`gopCount, this`oldestSeq, this`published, gopStart, gopDts
      ensures Valid() && State() == GopRing.OnNewGop(cfg, old(State()), dts)
    {
      NextGopKeeps(cfg, State(), dts);
      var cur := gopStart[gopCount - 1];
      if writeIdx > cur {
        MakeIndexRoom();
        TrimGopsForTime(dts);
        AppendGop(dts);
      }
    }

    method OnNewGop(dts: nat)
      requires Valid() && RingInv(cfg, State())
      modifies this`count, this`gopCount, this`oldestSeq, this`published, this`cacheStarted, gopStart, gopDts
      ensures Valid() && State() == GopRing.OnNewGop(cfg, old(State()), dts)
    {
      if !cacheStarted || gopCount == 0 {
        OpenFirstGop(dts);
      } else {
        OpenNextGop(dts);
      }
    }

    method NoteVideo(f: Frame)
      requires Valid()
      modifies this`hasVideo
      ensures Valid() && State() == SeeFrame(old(State()), f)
    {
      if f.track == Video && !f.config {
        hasVideo := true;
      }
    }

    /** Remembers whether the last frame that counts was a key or parameter frame. */
    method NoteKeyPos(f: Frame)
      requires Valid()
      modifies this`keyPos
      ensures Valid() && State() == NoteKey(pol, old(State()), f)
    {
      if !f.droppable {
        if f.track == Video {
          keyPos := pol.marker(f);
        } else if !hasVideo {
          keyPos := true;
        }
      }
    }

    /** The part of a commit that precedes the overwrite. */
    method PrepareCommit(f: Frame)
      requires Valid() && RingInv(cfg, State())
      modifies this`count, this`gopCount, this`oldestSeq, this`published, this`cacheStarted, gopStart, gopDts
      ensures Valid() && State() == Prepare(cfg, pol, old(State()), f) && (count < cfg.cap || gopCount == 0)
    {
      if pol.newGop(f, keyPos, hasVideo) {
        OnNewGop(DtsMs(f));
      }
      ghost var grown := State();
      while count >= cfg.cap && gopCount > 0
        invariant Valid()
        invariant PopWhileFull(cfg, State()) == PopWhileFull(cfg, grown)
        decreases gopCount
      {
        PopFrontGop();
      }
    }

    method StoreSlot(f: Frame)
      requires Valid() && (count < cfg.cap || gopCount == 0)
      modifies this`writeIdx, this`count, this`committed, slots
      ensures Valid() && State() == StoreFrame(cfg, old(State()), f)
      ensures writeIdx == old(writeIdx) + 1 && ViewOf(committed[old(writeIdx)], f)
    {
      hide ViewOf;
      StoredIsView(f);
      StoreKeeps(cfg, State(), f);
      HoldsOneMore(slots[..], committed, Stored(f));
      slots[writeIdx % cfg.cap] := Some(Stored(f));
      writeIdx := writeIdx + 1;
      if count < cfg.cap {
        count := count + 1;
      }
      committed := committed + [Stored(f)];
    }

    method PublishWrite()
      requires Valid()
      modifies this`writeSeq
      ensures Valid() && State() == old(State()) && writeSeq == writeIdx
    {
      writeSeq := writeIdx;
    }

    /** The part of a commit that follows the overwrite. */
    method SettleCommit(f: Frame)
      requires Valid()
      modifies this`keyPos, this`count, this`gopCount, this`oldestSeq, this`published, gopStart, gopDts
      ensures Valid() && State() == Settle(cfg, pol, old(State()), f)
    {
      NoteKeyPos(f);
      if count >= cfg.cap && gopCount > 1 {
        PopFrontGop();
      }
      TrimGopsForTime(DtsMs(f));
    }

    /** The commit of a frame the ring accepts. */
    method StoreAccepted(f: Frame)
      requires Stable()
      modifies this, slots, gopStart, gopDts
      ensures Stable() && State() == Store(cfg, pol, old(State()), f)
    {
      StoringKeeps(cfg, pol, State(), f);
      PrepareCommit(f);
      StoreSlot(f);
      SettleCommit(f);
      PublishWrite();
    }

    /** One commit: the whole new ring, the frame at its own absolute index, and `write_seq` caught up. */
    method CommitFrame(f: Frame) returns (ok: bool)
      requires Stable()
      modifies this, slots, gopStart, gopDts
      ensures Stable() && State() == Commit(cfg, pol, old(State()), f)
      ensures ok == (|f.data| > 0)
      ensures GrownBy(old(committed), committed, f, Admits(pol, old(State()), f))
    {
      hide GrownBy, Admits, Store, Holds;
      CommitShows(cfg, pol, State(), f);
      if |f.data| == 0 {
        return false;
      }
      NoteVideo(f);
      if !pol.storable(f, cacheStarted, hasVideo) {
        return true;
      }
      StoreAccepted(f);
      return true;
    }

    method FreeSlots()
      modifies slots
      ensures forall i :: 0 <= i < slots.Length ==> slots[i] == None
    {
      var i := 0;
      while i < slots.Length
        invariant i <= slots.Length && forall k :: 0 <= k < i ==> slots[k] == None
      {
        slots[i] := None;
        i := i + 1;
      }
    }

    method ForgetFrames()
      requires Shape()
      modifies this`writeIdx, this`writeSeq, this`oldestSeq, this`count, this`committed, this`published
      ensures Shape() && State() == old(State()).(committed := [], count := 0, published := [0])
      ensures writeSeq == writeIdx == oldestSeq == 0
    {
      writeIdx, writeSeq, oldestSeq, count := 0, 0, 0, 0;
      committed, published := [], [0];
    }

    method ForgetGops()
      requires Shape()
      modifies this`gopCount, this`cacheStarted, this`keyPos, this`hasVideo
      ensures Shape() && State() == old(State()).(gops := [], cacheStarted := false, hasVideo := false, keyPos := false)
    {
      gopCount, cacheStarted, keyPos, hasVideo := 0, false, false, false;
    }

    method ResetIndices()
      requires Shape()
      modifies this
      ensures Shape() && State() == Clear(old(State())) && writeSeq == writeIdx == oldestSeq == 0
    {
      hide Zip;
      ForgetFrames();
      ForgetGops();
    }

    method ClearAll()
      requires Stable()
      modifies this, slots
      ensures Stable() && State() == Clear(old(State()))
    {
      FreeSlots();
      ResetIndices();
    }

    /** The frame kept for an absolute index is the frame that was committed there. */
    method SlotAt(idx: nat) returns (slot: Option<Slot>)
      requires Valid() && idx < writeIdx
      ensures slot == Some(committed[Shown(writeIdx, cfg.cap, idx)])
    {
      ShownSharesSlot(writeIdx, cfg.cap, idx);
      slot := slots[idx % cfg.cap];
    }
  }
}
