/** The inbound timeline as the program keeps it: two stamps, one of which points to the other, updated
    in place.  Each method is tied to its counterpart on values. */
module MediaTimeline {
  import opened MediaClock

  class TrackStamp {
    var maxDelta: nat
    var lastStamp: int
    var lastDelta: int
    var relative: int
    var lastIn: int
    var needSync: nat
    var master: TrackStamp?

    ghost function Value(): Stamp
      reads this
    {
      Stamp(maxDelta, lastStamp, lastDelta, relative, lastIn, needSync)
    }

    constructor ()
      ensures Value() == Stamp(MAX_DELTA, 0, 0, 0, 0, 0) && master == null
    {
      maxDelta, lastStamp, lastDelta, relative, lastIn, needSync := MAX_DELTA, 0, 0, 0, 0, 0;
      master := null;
    }

    method SyncTo(m: TrackStamp, count: int)
      modifies this
      ensures master == m && Value() == old(Value()).(needSync := old(needSync) + if count > 0 then count else 1)
    {
      master := m;
      needSync := needSync + if count > 0 then count else 1;
    }

    method TakeDelta(stamp: int) returns (d: int)
      modifies this`lastStamp, this`lastDelta, this`needSync
      ensures d == Delta(old(Value()), stamp) && Value() == AfterDelta(old(Value()), stamp)
    {
      if lastStamp == 0 {
        if stamp != 0 { lastStamp := stamp; }
        return 0;
      }
      d := stamp - lastStamp;
      lastStamp := stamp;
      if d >= 0 {
        if d > maxDelta {
          needSync := needSync + 1;
          return if lastDelta > 0 then lastDelta else 1;
        }
        lastDelta := if d > 0 then d else 1;
        return;
      }
      if -d > maxDelta {
        needSync := needSync + 1;
        return if lastDelta > 0 then lastDelta else 1;
      }
    }

    method SyncToMaster()
      requires master != this
      modifies this, master
      ensures master == old(master) && (master != null ==> master.master == old(master.master))
      ensures master == null ==> Value() == old(Value())
      ensures master != null ==> (Value(), master.Value()) == Synced(old(Value()), old(master.Value()))
    {
      var m := master;
      if m == null || m.lastIn == 0 { return; }
      if needSync == 0 && m.needSync == 0 { return; }
      var inDiff := lastIn - m.lastIn;
      if Abs(inDiff) >= SYNC_INPUT && needSync <= 3 { return; }
      var diff := relative - m.relative;
      if diff > SYNC_DRIFT || -diff > SYNC_DRIFT { diff := 0; }
      var target := m.relative + diff;
      if target > relative {
        relative := target;
        lastStamp := lastIn;
      } else if target < m.relative {
        m.relative := target;
        m.lastStamp := m.lastIn;
      }
      if needSync > 0 { needSync := needSync - 1; }
      if m.needSync > 0 { m.needSync := m.needSync - 1; }
    }

    method Revise(raw: nat)
      requires master != this
      modifies this, master
      ensures master == old(master) && (master != null ==> master.master == old(master.master))
      ensures master == null ==> Value() == TakeIn(old(Value()), raw)
      ensures master != null ==> (Value(), master.Value()) == Synced(TakeIn(old(Value()), raw), old(master.Value()))
    {
      if maxDelta == 0 { maxDelta := MAX_DELTA; }
      if lastIn != raw {
        var d := TakeDelta(raw);
        relative := relative + d;
        lastIn := raw;
      }
      assert Value() == TakeIn(old(Value()), raw);
      SyncToMaster();
    }
  }

  class InboundTimeline {
    const vst: TrackStamp
    const ast: TrackStamp
    var linked: bool
    var clampOff: bool

    ghost predicate Valid()
      reads this, vst, ast
    {
      vst != ast && vst.master == null && ast.master == (if linked then vst else null)
    }

    ghost function Value(): Timeline
      reads this, vst, ast
    {
      Timeline(vst.Value(), ast.Value(), linked, clampOff)
    }

    constructor ()
      ensures Valid() && Value() == NewTimeline() && fresh(vst) && fresh(ast)
    {
      vst := new TrackStamp();
      ast := new TrackStamp();
      linked, clampOff := false, false;
    }

    method LinkStamps()
      requires Valid()
      modifies this`linked, ast
      ensures Valid() && Value() == Linked(old(Value())) && linked
    {
      if linked { return; }
      ast.SyncTo(vst, 1);
      linked := true;
    }

    method ClampAv()
      requires Valid()
      modifies vst, ast
      ensures Valid() && Value() == Clamped(old(Value()))
    {
      if clampOff || !linked || ast.lastIn == 0 || vst.lastIn == 0 { return; }
      var diff := vst.relative - ast.relative;
      if diff > SYNC_DRIFT {
        vst.relative := ast.relative;
        vst.lastStamp := vst.lastIn;
      } else if -diff > SYNC_DRIFT {
        ast.relative := vst.relative;
        ast.lastStamp := ast.lastIn;
      }
    }

    /** The relative time is returned as a 32-bit number. */
    method TakeVideo(raw: nat) returns (out: nat)
      requires Valid()
      modifies this`linked, vst, ast
      ensures Valid() && Value() == Apply(old(Value()), Video(raw))
      ensures out < 0x1_0000_0000 && (out - vst.relative) % 0x1_0000_0000 == 0
    {
      LinkStamps();
      vst.Revise(raw);
      ClampAv();
      out := vst.relative % 0x1_0000_0000;
    }

    method TakeAudio(raw: nat) returns (out: nat)
      requires Valid()
      modifies this`linked, vst, ast
      ensures Valid() && Value() == Apply(old(Value()), Audio(raw))
      ensures out < 0x1_0000_0000 && (out - ast.relative) % 0x1_0000_0000 == 0
    {
      LinkStamps();
      ast.Revise(raw);
      ClampAv();
      out := ast.relative % 0x1_0000_0000;
    }
  }
}
