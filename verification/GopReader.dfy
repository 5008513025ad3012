/** A reader of the live GOP queue: its cursor, its staging area and the policies that move the cursor.
    The methods here run one at a time; `Seqlock` is about what happens when they do not. */
module GopReader {
  import opened GopRing
  import opened GopQueue
  import opened Wrappers
  import opened Interleave

  const MUX_CAP: nat := 24
  const MUX_MAX_SKEW: nat := 200

  function EffectiveSkew(skew: nat): nat {
    if skew == 0 then MUX_MAX_SKEW else skew
  }

  /** `i` is the last index in [lo, hi) whose frame satisfies `p`. */
  ghost predicate IsLast(p: Slot -> bool, frames: seq<Slot>, lo: int, hi: int, i: int)
    requires 0 <= lo && hi <= |frames|
  {
    lo <= i < hi && p(frames[i]) && forall j :: i < j < hi ==> !p(frames[j])
  }

  /** `i` is the first index in [lo, hi) whose frame satisfies `p`. */
  ghost predicate IsFirst(p: Slot -> bool, frames: seq<Slot>, lo: int, hi: int, i: int)
    requires 0 <= lo && hi <= |frames|
  {
    lo <= i < hi && p(frames[i]) && forall j :: lo <= j < i ==> !p(frames[j])
  }

  ghost predicate NoneIn(p: Slot -> bool, frames: seq<Slot>, lo: int, hi: int)
    requires 0 <= lo && hi <= |frames|
  {
    forall j :: lo <= j < hi ==> !p(frames[j])
  }

  /** A GOP starts at `i`, and none starts later. */
  ghost predicate IsNewest(gops: seq<Gop>, i: int) {
    (exists k :: 0 <= k < |gops| && gops[k].start == i) && forall k :: 0 <= k < |gops| ==> gops[k].start <= i
  }

  lemma FirstIsUnique(p: Slot -> bool, frames: seq<Slot>, lo: int, hi: int, i: int, j: int)
    requires 0 <= lo && hi <= |frames| && IsFirst(p, frames, lo, hi, i) && IsFirst(p, frames, lo, hi, j)
    ensures i == j
  {
  }

  /** The first index of the part of [start, end) that lies within the lag limit. */
  function Near(start: int, end: int, lag: int): int {
    if end - lag > start then end - lag else start
  }

  /** What a live seek promises about the cursor `idx`, where `fallsBack` says whether a GOP without an
      IDR may be entered at another synchronisation frame: the last IDR if it is within the lag limit, else
      the last synchronisation frame within the limit, else the live edge. */
  ghost predicate StartsLive(isIdr: Slot -> bool, isSync: Slot -> bool, f: seq<Slot>, start: int, end: int, lag: int,
                             fallsBack: bool, idx: int)
    requires 0 <= start < end <= |f| && lag >= 1
  {
    var near := Near(start, end, lag);
    && (forall i :: IsLast(isIdr, f, start, end, i) && end - i <= lag ==> idx == i)
    && (NoneIn(isIdr, f, near, end) && (fallsBack || !NoneIn(isIdr, f, start, end)) ==>
          && (forall i :: IsLast(isSync, f, near, end, i) ==> idx == i)
          && (NoneIn(isSync, f, near, end) ==> idx == end - 1))
    && (NoneIn(isIdr, f, start, end) && !fallsBack ==> idx == end - 1)
  }

  lemma IdrInWindow(isIdr: Slot -> bool, isSync: Slot -> bool, f: seq<Slot>, start: int, end: int, lag: int, pick: int)
    requires 0 <= start < end <= |f| && lag >= 1 && IsLast(isIdr, f, start, end, pick) && end - pick <= lag
    ensures StartsLive(isIdr, isSync, f, start, end, lag, true, pick)
    ensures StartsLive(isIdr, isSync, f, start, end, lag, false, pick)
  {
  }

  lemma IdrTooOld(isIdr: Slot -> bool, f: seq<Slot>, start: int, end: int, lag: int, pick: int)
    requires 0 <= start < end <= |f| && lag >= 1 && IsLast(isIdr, f, start, end, pick) && end - pick > lag
    ensures NoneIn(isIdr, f, Near(start, end, lag), end) && !NoneIn(isIdr, f, start, end)
  {
  }

  /** No IDR within the limit: the last synchronisation frame there, or the live edge. */
  lemma FallsBack(isIdr: Slot -> bool, isSync: Slot -> bool, f: seq<Slot>, start: int, end: int, lag: int, b: bool, idx: int)
    requires 0 <= start < end <= |f| && lag >= 1 && NoneIn(isIdr, f, Near(start, end, lag), end)
    requires b || !NoneIn(isIdr, f, start, end)
    requires var near := Near(start, end, lag);
             IsLast(isSync, f, near, end, idx) || (NoneIn(isSync, f, near, end) && idx == end - 1)
    ensures StartsLive(isIdr, isSync, f, start, end, lag, b, idx)
  {
  }

  lemma NoIdrAtEdge(isIdr: Slot -> bool, isSync: Slot -> bool, f: seq<Slot>, start: int, end: int, lag: int)
    requires 0 <= start < end <= |f| && lag >= 1 && NoneIn(isIdr, f, start, end)
    ensures StartsLive(isIdr, isSync, f, start, end, lag, false, end - 1)
  {
  }

  lemma {:induction false} LastExists(p: Slot -> bool, f: seq<Slot>, lo: int, hi: int) returns (i: int)
    requires 0 <= lo && hi <= |f| && !NoneIn(p, f, lo, hi)
    ensures IsLast(p, f, lo, hi, i)
    decreases hi
  {
    if p(f[hi - 1]) {
      i := hi - 1;
    } else {
      assert !NoneIn(p, f, lo, hi - 1);
      i := LastExists(p, f, lo, hi - 1);
    }
  }

  /** A live seek always ends up at least one frame and at most the lag limit behind the live edge. */
  lemma StartsWithinLag(isIdr: Slot -> bool, isSync: Slot -> bool, f: seq<Slot>, start: int, end: int, lag: int,
                        fallsBack: bool, idx: int)
    requires 0 <= start < end <= |f| && lag >= 1 && StartsLive(isIdr, isSync, f, start, end, lag, fallsBack, idx)
    ensures start <= idx < end && end - idx <= lag
  {
    var near := Near(start, end, lag);
    if !NoneIn(isIdr, f, near, end) {
      var i := LastExists(isIdr, f, near, end);
      assert IsLast(isIdr, f, start, end, i);
    } else if fallsBack || !NoneIn(isIdr, f, start, end) {
      if !NoneIn(isSync, f, near, end) { var i := LastExists(isSync, f, near, end); }
    }
  }

  class Reader {
    const ring: Queue
    const isSync: Slot -> bool
    const isIdr: Slot -> bool
    const mux: array<Slot>
    var muxCnt: nat
    var readIdx: nat
    const fromBeginning: bool

    /** Attached live: the first frame read is the oldest one of a live GOP. */
    constructor Attach(ring: Queue, isSync: Slot -> bool, isIdr: Slot -> bool)
      requires ring.Stable()
      ensures Valid() && this.ring == ring && Staged() == [] && fresh(mux) && !fromBeginning
      ensures readIdx == ring.State().OldestIdx()
    {
      this.ring, this.isSync, this.isIdr := ring, isSync, isIdr;
      readIdx, fromBeginning := ring.OldestIdx(), false;
      mux := new Slot[MUX_CAP];
      muxCnt := 0;
    }

    /** Attached at the beginning: the first frame read is the oldest one still counted. */
    constructor AttachBeginning(ring: Queue, isSync: Slot -> bool, isIdr: Slot -> bool)
      requires ring.Stable()
      ensures Valid() && this.ring == ring && Staged() == [] && fresh(mux) && fromBeginning
      ensures readIdx == ring.writeIdx - ring.count
    {
      this.ring, this.isSync, this.isIdr := ring, isSync, isIdr;
      readIdx, fromBeginning := ring.BeginningIdx(), true;
      mux := new Slot[MUX_CAP];
      muxCnt := 0;
    }

    ghost predicate Area()
      reads this
    {
      mux.Length == MUX_CAP && muxCnt <= MUX_CAP
    }

    ghost predicate Valid()
      reads this, ring, ring.slots, ring.gopStart, ring.gopDts
    {
      Area() && ring.Stable()
    }

    /** The staging area, oldest entry first. */
    ghost function Staged(): seq<Slot>
      reads this, mux
      requires muxCnt <= mux.Length
    {
      mux[..muxCnt]
    }

    // ---- interleaving

    method Earliest() returns (idxV: int, idxA: int)
      requires Area()
      ensures idxV == EarliestOf(Staged(), Video) && idxA == EarliestOf(Staged(), Audio)
    {
      idxV, idxA := -1, -1;
      var minV, minA := U32_MAX, U32_MAX;
      assert mux[..0] == [] && EarliestOf([], Video) == EarliestOf([], Audio) == -1;
      hide EarliestOf;
      for i := 0 to muxCnt
        invariant idxV == EarliestOf(mux[..i], Video) && minV == if idxV < 0 then U32_MAX else mux[idxV].dts
        invariant idxA == EarliestOf(mux[..i], Audio) && minA == if idxA < 0 then U32_MAX else mux[idxA].dts
      {
        assert mux[..i + 1] == mux[..i] + [mux[i]];
        EarliestStep(mux[..i], mux[i], Audio);
        EarliestStep(mux[..i], mux[i], Video);
        if mux[i].track == Audio {
          if mux[i].dts < minA { minA := mux[i].dts; idxA := i; }
        } else {
          if mux[i].dts < minV { minV := mux[i].dts; idxV := i; }
        }
      }
    }

    method PickBest(skew: nat) returns (best: int)
      requires Area()
      ensures best == Pick(Staged(), skew)
    {
      var idxV, idxA := Earliest();
      if idxV >= 0 && idxA >= 0 {
        var minV, minA := mux[idxV].dts, mux[idxA].dts;
        if Wrap(minA + skew) < minV { return idxA; }
        if Wrap(minV + skew) < minA { return idxV; }
        return if minA <= minV then idxA else idxV;
      }
      if idxA >= 0 { return idxA; }
      if idxV >= 0 { return idxV; }
      return -1;
    }

    /** Shows what the next read of the same batch will return. */
    method PeekStaged(skew: nat) returns (n: int, out: Option<Slot>)
      requires Area() && muxCnt > 0
      modifies this`muxCnt
      ensures Area()
      ensures var i := Pick(old(Staged()), skew);
              if i >= 0 then n == 1 && out == Some(old(Staged())[i]) && Staged() == old(Staged())
              else n == 0 && out == None && Staged() == []
    {
      var best := PickBest(skew);
      if best < 0 {
        muxCnt := 0;
        return 0, None;
      }
      return 1, Some(mux[best]);
    }

    /** Closes up the staging area over entry `best`. */
    method CloseUp(best: nat)
      requires Area() && best < muxCnt
      modifies this`muxCnt, mux
      ensures Area() && muxCnt == old(muxCnt) - 1 && Staged() == Without(old(Staged()), best)
    {
      ghost var before := Staged();
      var i := best + 1;
      while i < muxCnt
        invariant best + 1 <= i <= muxCnt == old(muxCnt)
        invariant forall k :: 0 <= k < best ==> mux[k] == before[k]
        invariant forall k :: best <= k < i - 1 ==> mux[k] == before[k + 1]
        invariant forall k :: i <= k < muxCnt ==> mux[k] == before[k]
      {
        mux[i - 1] := mux[i];
        i := i + 1;
      }
      muxCnt := muxCnt - 1;
      assert Staged() == Without(before, best);
    }

    /** Takes the best staged frame out. */
    method ReadStaged(skew: nat) returns (n: int, out: Option<Slot>)
      requires Area() && muxCnt > 0
      modifies this`muxCnt, mux
      ensures Area()
      ensures var i := Pick(old(Staged()), skew);
              if i >= 0 then n == 1 && out == Some(old(Staged())[i]) && Staged() == Without(old(Staged()), i)
              else n == 0 && out == None && Staged() == []
    {
      var best := PickBest(skew);
      if best < 0 {
        muxCnt := 0;
        return 0, None;
      }
      out := Some(mux[best]);
      CloseUp(best);
      return 1, out;
    }

    /** Reads until the batch is used up: exactly the stable sort of the batch. */
    method DrainStaged(skew: nat) returns (emitted: seq<Slot>)
      requires Area()
      modifies this`muxCnt, mux
      ensures Area() && Staged() == [] && emitted == Drain(old(Staged()), skew)
    {
      emitted := [];
      ghost var batch := Staged();
      while muxCnt > 0
        invariant Area() && emitted + Drain(Staged(), skew) == Drain(batch, skew)
        decreases muxCnt
      {
        ghost var rest, sofar := Staged(), emitted;
        DrainUnfolds(rest, skew, sofar);
        var n, out := ReadStaged(skew);
        if n == 0 { break; }
        emitted := emitted + [out.value];
      }
    }

    // ---- the cursor

    /** Whether the frame kept at index `i` satisfies `p`. */
    method Test(p: Slot -> bool, i: nat) returns (b: bool)
      requires Valid() && ring.writeIdx - ring.cfg.cap <= i < ring.writeIdx
      ensures b == p(ring.committed[i])
    {
      var slot := ring.SlotAt(i);
      b := p(slot.value);
    }

    /** The last index in [lo, hi) that satisfies `p`, or -1. */
    method FindLast(p: Slot -> bool, lo: nat, hi: nat) returns (i: int)
      requires Valid() && ring.writeIdx - ring.cfg.cap <= lo && hi <= ring.writeIdx
      ensures i == -1 || lo <= i < hi
      ensures if i == -1 then NoneIn(p, ring.committed, lo, hi) else IsLast(p, ring.committed, lo, hi, i)
    {
      hide MidInv, RingInv, Holds, Shown;
      i := -1;
      if lo >= hi { return; }
      ghost var f := ring.committed;
      var k := lo;
      while k < hi
        invariant lo <= k <= hi && (i == -1 || lo <= i < k)
        invariant if i == -1 then NoneIn(p, f, lo, k) else IsLast(p, f, lo, k, i)
      {
        var b := Test(p, k);
        if b { i := k; }
        k := k + 1;
      }
    }

    method FindFirst(p: Slot -> bool, lo: nat, hi: nat) returns (i: int)
      requires Valid() && ring.writeIdx - ring.cfg.cap <= lo && hi <= ring.writeIdx
      ensures i == -1 || lo <= i < hi
      ensures if i == -1 then NoneIn(p, ring.committed, lo, hi) else IsFirst(p, ring.committed, lo, hi, i)
    {
      hide MidInv, RingInv, Holds, Shown;
      i := -1;
      if lo >= hi { return; }
      ghost var f := ring.committed;
      assert hi <= |f|;
      var k := lo;
      while k < hi
        invariant lo <= k <= hi && i == -1 && NoneIn(p, f, lo, k)
      {
        var b := Test(p, k);
        if b {
          assert IsFirst(p, f, lo, hi, k);
          i := k;
          return;
        }
        k := k + 1;
      }
    }

    /** Where the newest GOP starts, or the lag window if there is none. */
    function SeekStart(): (i: int)
      reads ring, ring.slots, ring.gopStart, ring.gopDts
      requires ring.Stable() && ring.writeIdx > 0
      ensures 0 <= i < ring.writeIdx && ring.writeIdx - ring.cfg.cap <= i
      ensures ring.gopCount > 0 ==> IsNewest(ring.State().gops, i)
      ensures ring.gopCount == 0 ==> i == 0 || i + ring.cfg.maxLag == ring.writeIdx
      ensures ring.gopCount == 0 ==> ring.writeIdx - i <= ring.cfg.maxLag
    {
      var end := ring.writeIdx;
      assert ring.gopCount > 0 ==> ring.State().gops[0].start <= ring.State().gops[ring.gopCount - 1].start;
      if ring.gopCount > 0 then ring.gopStart[ring.gopCount - 1]
      else if end > ring.cfg.maxLag then end - ring.cfg.maxLag
      else 0
    }

    ghost predicate LiveStart(fallsBack: bool, idx: int)
      reads ring, ring.slots, ring.gopStart, ring.gopDts
      requires ring.Stable() && ring.writeIdx > 0
    {
      StartsLive(isIdr, isSync, ring.committed, SeekStart(), ring.writeIdx, ring.cfg.maxLag, fallsBack, idx)
    }

    /** The last synchronisation frame within the limit, or the live edge. */
    method TakeSyncOrEdge(start: nat, end: nat, near: nat)
      requires Valid() && ring.writeIdx > 0 && end == ring.writeIdx && start == SeekStart()
      requires near == Near(start, end, ring.cfg.maxLag) && NoneIn(isIdr, ring.committed, near, end)
      modifies this`readIdx
      ensures Valid() && LiveStart(true, readIdx)
      ensures !NoneIn(isIdr, ring.committed, start, end) ==> LiveStart(false, readIdx)
    {
      var sync := FindLast(isSync, near, end);
      readIdx := if sync != -1 then sync else end - 1;
      FallsBack(isIdr, isSync, ring.committed, start, end, ring.cfg.maxLag, true, readIdx);
      if !NoneIn(isIdr, ring.committed, start, end) {
        FallsBack(isIdr, isSync, ring.committed, start, end, ring.cfg.maxLag, false, readIdx);
      }
    }

    /** Both rescans of the code are here; neither of them ever changes the answer. */
    method ApplyPick(end: nat, start: nat, pick: nat)
      requires Valid() && ring.writeIdx > 0 && end == ring.writeIdx && start == SeekStart()
      requires IsLast(isIdr, ring.committed, start, end, pick)
      modifies this`readIdx
      ensures Valid() && LiveStart(true, readIdx) && LiveStart(false, readIdx)
    {
      readIdx := pick;
      if end <= pick || end - pick <= ring.cfg.maxLag {
        IdrInWindow(isIdr, isSync, ring.committed, start, end, ring.cfg.maxLag, pick);
        return;
      }
      IdrTooOld(isIdr, ring.committed, start, end, ring.cfg.maxLag, pick);
      var near := end - ring.cfg.maxLag;
      if near < start {
        near := start;
      }
      var idr := FindLast(isIdr, near, end);
      if idr != -1 {
        assert false;
      }
      TakeSyncOrEdge(start, end, near);
    }

    /** The last IDR of the newest GOP if it is within the lag limit, else the last synchronisation
        frame within the limit, else the live edge. */
    method SeekLiveIdr()
      requires Valid()
      modifies this`readIdx, this`muxCnt
      ensures Valid() && Staged() == []
      ensures ring.writeIdx == 0 ==> readIdx == 0
      ensures ring.writeIdx > 0 ==> LiveStart(true, readIdx)
    {
      muxCnt := 0;
      var end := ring.writeIdx;
      if end == 0 {
        readIdx := 0;
        return;
      }
      var start := SeekStart();
      var idr := FindLast(isIdr, start, end);
      if idr != -1 {
        ApplyPick(end, start, idr);
      } else {
        SeekSync(start, end);
      }
    }

    /** The part of the seek for a GOP without an IDR.  The third scan, below the lag window, never finds a
        frame that may be used. */
    method SeekSync(start: nat, end: nat)
      requires Valid() && ring.writeIdx > 0 && end == ring.writeIdx && start == SeekStart()
      requires NoneIn(isIdr, ring.committed, start, end)
      modifies this`readIdx
      ensures Valid() && LiveStart(true, readIdx)
    {
      var near := start;
      if end > near && end - near > ring.cfg.maxLag {
        near := end - ring.cfg.maxLag;
      }
      var sync := FindLast(isSync, near, end);
      if sync != -1 {
        readIdx := sync;
      } else {
        TakeOldSyncOrEdge(start, end, near);
      }
      FallsBack(isIdr, isSync, ring.committed, start, end, ring.cfg.maxLag, true, readIdx);
    }

    method TakeOldSyncOrEdge(start: nat, end: nat, near: nat)
      requires Valid() && 0 < end == ring.writeIdx && start == SeekStart() && near == Near(start, end, ring.cfg.maxLag)
      modifies this`readIdx
      ensures readIdx == end - 1
    {
      var sync := FindLast(isSync, start, near);
      if sync != -1 && end - sync <= ring.cfg.maxLag {
        assert false;
      }
      readIdx := end - 1;
    }

    method SeekRtspIdr()
      requires Valid()
      modifies this`readIdx, this`muxCnt
      ensures Valid() && Staged() == []
      ensures ring.writeIdx == 0 ==> readIdx == 0
      ensures ring.writeIdx > 0 ==> LiveStart(false, readIdx)
    {
      muxCnt := 0;
      var end := ring.writeIdx;
      if end == 0 {
        readIdx := 0;
        return;
      }
      var start := SeekStart();
      var idr := FindLast(isIdr, start, end);
      if idr != -1 {
        ApplyPick(end, start, idr);
      } else {
        readIdx := end - 1;
        NoIdrAtEdge(isIdr, isSync, ring.committed, start, end, ring.cfg.maxLag);
      }
    }

    /** The last synchronisation frame of the newest GOP, however old, or its start if it has none. */
    ghost predicate IsLiveKey(idx: int)
      reads ring, ring.slots, ring.gopStart, ring.gopDts
      requires ring.Stable() && ring.writeIdx > 0
    {
      if NoneIn(isSync, ring.committed, SeekStart(), ring.writeIdx) then idx == SeekStart()
      else IsLast(isSync, ring.committed, SeekStart(), ring.writeIdx, idx)
    }

    method SeekLiveKey()
      requires Valid()
      modifies this`readIdx, this`muxCnt
      ensures Valid() && Staged() == []
      ensures ring.writeIdx == 0 ==> readIdx == 0
      ensures ring.writeIdx > 0 ==> readIdx < ring.writeIdx && IsLiveKey(readIdx)
    {
      muxCnt := 0;
      var end := ring.writeIdx;
      if end == 0 {
        readIdx := 0;
        return;
      }
      var start := SeekStart();
      var sync := FindLast(isSync, start, end);
      readIdx := if sync != -1 then sync else start;
    }

    ghost function Edge(): int
      reads ring
    {
      ring.writeIdx - ring.cfg.maxLag
    }

    /** Only ever forward, except that a cursor at or past the live edge steps back to the last frame;
        afterwards the reader is at most the lag limit behind. */
    method SeekLive()
      requires Valid()
      modifies this`readIdx, this`muxCnt
      ensures Valid() && Staged() == []
      ensures ring.writeIdx > 0 ==> 1 <= ring.writeIdx - readIdx <= ring.cfg.maxLag
      ensures old(readIdx) < ring.writeIdx ==>
                readIdx == if ring.writeIdx - old(readIdx) > ring.cfg.maxLag then ring.writeIdx - ring.cfg.maxLag else old(readIdx)
      ensures old(readIdx) >= ring.writeIdx > 0 ==> readIdx == ring.writeIdx - 1
      ensures ring.writeIdx == 0 ==> readIdx == old(readIdx)
    {
      muxCnt := 0;
      if ring.writeIdx > readIdx {
        var lag := ring.writeIdx - readIdx;
        if lag > ring.cfg.maxLag {
          var target := ring.writeIdx - ring.cfg.maxLag;
          if target > readIdx {
            readIdx := target;
          }
        }
      }
      if ring.writeIdx > 0 && readIdx >= ring.writeIdx {
        readIdx := ring.writeIdx - 1;
      }
    }

    /** Where a cursor at `key` ends up: there, if that is within the lag limit, else at the first
        synchronisation frame within the limit, else still there. */
    ghost predicate Clamped(key: int, idx: int)
      reads ring
      requires 0 <= ring.writeIdx - ring.cfg.maxLag || ring.writeIdx - key <= ring.cfg.maxLag
      requires ring.writeIdx <= |ring.committed|
    {
      if ring.writeIdx - key <= ring.cfg.maxLag then idx == key
      else
        && (forall i :: IsFirst(isSync, ring.committed, Edge(), ring.writeIdx, i) ==> idx == i)
        && (NoneIn(isSync, ring.committed, Edge(), ring.writeIdx) ==> idx == key)
    }

    method ClampLag(end: nat)
      requires Valid() && end == ring.writeIdx > 0 && readIdx < end
      modifies this`readIdx
      ensures Valid() && readIdx < end && Clamped(old(readIdx), readIdx)
    {
      var lag := ring.writeIdx - readIdx;
      if lag > ring.cfg.maxLag {
        var target := ring.writeIdx - ring.cfg.maxLag;
        var j := FindFirst(isSync, target, end);
        if j != -1 {
          readIdx := j;
          forall i | IsFirst(isSync, ring.committed, Edge(), ring.writeIdx, i) ensures i == j {
            FirstIsUnique(isSync, ring.committed, Edge(), ring.writeIdx, i, j);
          }
        }
      }
    }

    /** The key frame of the newest GOP: its first synchronisation frame, or its start if it has none. */
    ghost predicate IsGopKey(key: int)
      reads ring, ring.slots, ring.gopStart, ring.gopDts
      requires ring.Stable() && ring.writeIdx > 0
    {
      || IsFirst(isSync, ring.committed, SeekStart(), ring.writeIdx, key)
      || (NoneIn(isSync, ring.committed, SeekStart(), ring.writeIdx) && key == SeekStart())
    }

    method FindGopKey() returns (key: nat)
      requires Valid() && ring.writeIdx > 0
      ensures IsGopKey(key) && key < ring.writeIdx
    {
      var gop, end := SeekStart(), ring.writeIdx;
      key := gop;
      var first := FindFirst(isSync, gop, end);
      if first != -1 {
        return first;
      }
      var back := FindLast(isSync, gop, end);
      if back != -1 {
        assert false;
      }
    }

    /** With a live GOP: its key frame, clamped to the lag limit.  The backward rescan finds nothing. */
    method SeekGopKey() returns (ghost key: int)
      requires Valid()
      modifies this`readIdx, this`muxCnt
      ensures Valid() && Staged() == []
      ensures ring.writeIdx == 0 ==> readIdx == 0
      ensures ring.gopCount == 0 && ring.writeIdx > 0 ==> 1 <= ring.writeIdx - readIdx <= ring.cfg.maxLag
      ensures ring.gopCount > 0 && ring.writeIdx > 0 ==> IsGopKey(key) && key >= 0 && Clamped(key, readIdx)
    {
      muxCnt := 0;
      key := 0;
      if ring.writeIdx == 0 {
        readIdx := 0;
        return;
      }
      if ring.gopCount == 0 {
        SeekLive();
        return;
      }
      var k := FindGopKey();
      key := k;
      readIdx := k;
      ClampLag(ring.writeIdx);
    }

    // ---- staging

    /** The oldest frame for this reader. */
    function OldestFor(): int
      reads ring, ring.slots, ring.gopStart, ring.gopDts
      requires ring.Stable()
    {
      if fromBeginning then ring.BeginningIdx() else ring.OldestIdx()
    }

    /** A cursor that fell behind starts again from the newest GOP, or from the oldest frame. */
    function SnapFrom(): (i: int)
      reads ring, ring.slots, ring.gopStart, ring.gopDts
      requires ring.Stable() && ring.writeIdx > 0
      ensures OldestFor() <= i <= ring.writeIdx && (ring.gopCount > 0 ==> SeekStart() <= i)
      ensures i == OldestFor() || (ring.gopCount > 0 && i == SeekStart())
    {
      if ring.gopCount > 0 && SeekStart() >= OldestFor() then SeekStart() else OldestFor()
    }

    /** Moves a cursor that fell behind to the first synchronisation frame from there on, if there is one. */
    method Snap()
      requires Valid() && ring.writeIdx > 0
      modifies this`readIdx
      ensures Valid() && old(readIdx) <= readIdx && ring.writeIdx - ring.cfg.cap <= readIdx
      ensures old(readIdx) >= OldestFor() ==> readIdx == old(readIdx)
      ensures old(readIdx) < OldestFor() ==> SnapsTo(SnapFrom(), readIdx)
    {
      var oldest := if fromBeginning then ring.BeginningIdx() else ring.OldestIdx();
      if readIdx < oldest {
        var snap := oldest;
        if ring.gopCount > 0 {
          var gop := SeekStart();
          if gop >= oldest {
            snap := gop;
          }
        }
        assert snap == SnapFrom();
        TakeSyncFrom(snap);
      }
    }

    /** The first synchronisation frame from `from` on, or `from`. */
    ghost predicate SnapsTo(from: int, idx: int)
      reads ring, ring.slots, ring.gopStart, ring.gopDts
      requires ring.Stable() && 0 <= from
    {
      || IsFirst(isSync, ring.committed, from, ring.writeIdx, idx)
      || (NoneIn(isSync, ring.committed, from, ring.writeIdx) && idx == from)
    }

    method TakeSyncFrom(from: nat)
      requires Valid() && ring.writeIdx - ring.cfg.cap <= from
      modifies this`readIdx
      ensures Valid() && readIdx >= from && SnapsTo(from, readIdx)
    {
      readIdx := from;
      var i := FindFirst(isSync, from, ring.writeIdx);
      if i != -1 {
        readIdx := i;
      }
    }

    ghost function Frames(start: int, end: int): (f: seq<Slot>)
      reads ring, ring.slots, ring.gopStart, ring.gopDts
      requires ring.Stable() && 0 <= start <= end <= ring.writeIdx
      ensures |f| == end - start
      ensures ring.writeIdx - ring.cfg.cap <= start ==> f == ring.committed[start..end]
    {
      if ring.writeIdx - ring.cfg.cap <= start then
        ShownRunExact(ring.committed, ring.cfg.cap, start, end);
        ShownRun(ring.committed, ring.cfg.cap, start, end)
      else ShownRun(ring.committed, ring.cfg.cap, start, end)
    }

    /** The frame at `i` has not been given up by the ring as far as this reader can tell. */
    ghost predicate NotBehind(i: int)
      reads ring
    {
      if fromBeginning then i >= ring.writeIdx - ring.count else i >= ring.oldestSeq
    }

    /** Where a cursor at `from` goes on: there, unless the frame has been given up; then it snaps. */
    ghost predicate GoesOn(from: int, start: int)
      reads ring, ring.slots, ring.gopStart, ring.gopDts
      requires ring.Stable()
    {
      if NotBehind(from) then start == from
      else ring.writeIdx > 0 && start >= from && SnapsTo(SnapFrom(), start)
    }

    /** Stages the next frame; 0 if there is none. */
    method FillOne() returns (n: int)
      requires Valid() && muxCnt < MUX_CAP
      modifies this`readIdx, this`muxCnt, mux
      ensures Valid() && readIdx >= old(readIdx)
      ensures n == 0 ==> Staged() == old(Staged()) && readIdx >= ring.writeIdx
      ensures n != 0 ==> n == 1 && old(readIdx) < readIdx <= ring.writeIdx && NotBehind(readIdx)
                         && Staged() == old(Staged()) + Frames(readIdx - 1, readIdx)
      ensures NotBehind(old(readIdx)) ==> readIdx == old(readIdx) + n
      ensures n == 1 ==> GoesOn(old(readIdx), readIdx - 1)
    {
      hide RingInv, MidInv, Holds, Shown, ShownRun, GoesOn;
      if readIdx >= ring.writeSeq {
        return 0;
      }
      CatchUp();
      if readIdx >= ring.writeIdx {
        return 0;
      }
      StageSlot();
      return 1;
    }

    method CatchUp()
      requires Valid() && readIdx < ring.writeSeq
      modifies this`readIdx
      ensures Valid() && readIdx >= old(readIdx) && NotBehind(readIdx)
      ensures GoesOn(old(readIdx), readIdx)
    {
      if fromBeginning || readIdx < ring.oldestSeq { Snap(); }
    }

    method StageSlot()
      requires Valid() && muxCnt < MUX_CAP && readIdx < ring.writeIdx
      modifies this`readIdx, this`muxCnt, mux
      ensures Valid() && readIdx == old(readIdx) + 1 && Staged() == old(Staged()) + Frames(readIdx - 1, readIdx)
    {
      var slot := ring.SlotAt(readIdx);
      readIdx := readIdx + 1;
      mux[muxCnt] := slot.value;
      muxCnt := muxCnt + 1;
    }

    /** The staging area holds what the slots from `start` up to the cursor show. */
    ghost predicate Batch(start: int)
      reads this, ring, mux, ring.slots, ring.gopStart, ring.gopDts
      requires Valid()
    {
      && 0 <= start && start + muxCnt == readIdx && readIdx <= ring.writeIdx && NotBehind(readIdx)
      && Staged() == Frames(start, readIdx)
    }

    method FillFirst() returns (n: int, ghost start: int)
      requires Valid() && muxCnt == 0
      modifies this`readIdx, this`muxCnt, mux
      ensures Valid() && start >= old(readIdx) && (NotBehind(old(readIdx)) ==> start == old(readIdx))
      ensures n == 1 ==> GoesOn(old(readIdx), start)
      ensures 0 <= n <= 1 && muxCnt == n && (n == 1 ==> Batch(start)) && (n == 0 ==> readIdx >= ring.writeIdx)
    {
      hide RingInv, MidInv, Holds, Shown, ShownRun, GoesOn;
      n := FillOne();
      start := readIdx - n;
      if n == 1 { assert Staged() == Frames(start, readIdx); }
    }

    method FillNext(ghost start: int) returns (n: int)
      requires Valid() && muxCnt < MUX_CAP && Batch(start)
      modifies this`readIdx, this`muxCnt, mux
      ensures Valid() && Batch(start) && muxCnt == old(muxCnt) + n
      ensures 0 <= n <= 1 && (n == 0 ==> readIdx >= ring.writeIdx)
    {
      hide RingInv, MidInv, Holds, Shown, GoesOn;
      ghost var before := Frames(start, readIdx);
      n := FillOne();
      if n == 1 { assert Frames(start, readIdx) == before + Frames(readIdx - 1, readIdx); }
    }

    /** With no writer in between, a batch is a run of consecutive slots that ends at the live edge or fills
        the staging area; within the last lap these show the frames committed at their indices. */
    method Fill() returns (ghost start: int)
      requires Valid() && muxCnt == 0
      modifies this`readIdx, this`muxCnt, mux
      ensures Valid() && start >= old(readIdx) && (NotBehind(old(readIdx)) ==> start == old(readIdx))
      ensures muxCnt > 0 ==> Batch(start) && GoesOn(old(readIdx), start)
      ensures muxCnt == 24 || readIdx >= ring.writeIdx
    {
      hide RingInv, MidInv, Holds, Shown, ShownRun, GoesOn;
      var n: int;
      n, start := FillFirst();
      while n == 1 && muxCnt < MUX_CAP
        invariant Valid() && (muxCnt > 0 ==> Batch(start) && GoesOn(old(readIdx), start)) && (n == 1 ==> muxCnt > 0)
        invariant 0 <= n <= 1 && (n == 0 ==> readIdx >= ring.writeIdx)
        decreases MUX_CAP - muxCnt, n
      {
        n := FillNext(start);
      }
    }

    /** `batch` is the run of frames from `start` on that a reader at `from` finds next. */
    ghost predicate NextRun(from: int, batch: seq<Slot>, start: int)
      reads this`readIdx, ring, ring.slots, ring.gopStart, ring.gopDts
      requires ring.Stable()
    {
      && start >= from && (NotBehind(from) ==> start == from)
      && (batch == [] ==> readIdx >= ring.writeIdx)
      && (batch != [] ==> GoesOn(from, start))
      && (batch != [] ==> 0 <= start <= readIdx <= ring.writeIdx && NotBehind(readIdx) && batch == Frames(start, readIdx)
                          && (|batch| == 24 || readIdx == ring.writeIdx))
    }

    /** `batch` is what a read finds: what is staged, or else the next run of frames. */
    twostate predicate Found(batch: seq<Slot>, start: int)
      reads this`readIdx, ring, ring.slots, ring.gopStart, ring.gopDts
      requires old(Valid()) && ring.Stable()
    {
      if old(muxCnt) > 0 then batch == old(Staged()) && readIdx == old(readIdx)
      else NextRun(old(readIdx), batch, start)
    }

    /** Fills an empty staging area. */
    method Stock() returns (n: nat, ghost start: int)
      requires Valid()
      modifies this`readIdx, this`muxCnt, mux
      ensures Valid() && n == muxCnt && Found(Staged(), start)
    {
      start := readIdx;
      if muxCnt == 0 { start := Fill(); }
      n := muxCnt;
    }

    /** Shows the frame that the next ReadMuxed with the same skew takes out. */
    method PeekMuxed(skew: nat) returns (n: int, out: Option<Slot>, ghost batch: seq<Slot>, ghost start: int)
      requires Valid()
      modifies this`readIdx, this`muxCnt, mux
      ensures Valid() && Found(batch, start)
      ensures var i := Pick(batch, if skew == 0 then 200 else skew);
              if i >= 0 then n == 1 && out == Some(batch[i]) && Staged() == batch
              else n == 0 && out == None && Staged() == []
    {
      hide RingInv, MidInv, Holds, Shown, ShownRun, GoesOn, Pick;
      var k: nat;
      k, start := Stock();
      batch := Staged();
      if k == 0 { return 0, None, batch, start; }
      n, out := PeekStaged(EffectiveSkew(skew));
    }

    /** Takes the frame out that is due: of the staged ones, or of the next run of frames. */
    method ReadMuxed(skew: nat) returns (n: int, out: Option<Slot>, ghost batch: seq<Slot>, ghost start: int)
      requires Valid()
      modifies this`readIdx, this`muxCnt, mux
      ensures Valid() && Found(batch, start)
      ensures var i := Pick(batch, if skew == 0 then 200 else skew);
              if i >= 0 then n == 1 && out == Some(batch[i]) && Staged() == Without(batch, i)
              else n == 0 && out == None && Staged() == []
    {
      hide RingInv, MidInv, Holds, Shown, ShownRun, GoesOn, Pick;
      var k: nat;
      k, start := Stock();
      batch := Staged();
      if k == 0 { return 0, None, batch, start; }
      n, out := ReadStaged(EffectiveSkew(skew));
    }
  }
}
