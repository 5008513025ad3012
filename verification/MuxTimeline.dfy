/** Output timestamps for muxers: one track, and two tracks with a shared origin. */
module MuxTimeline {
  import opened Bytes
  import opened Wrappers

  const TOP: nat := U32 - 1

  // ---- one track

  function Relative(origin: nat, pts: nat): nat {
    if pts >= origin then pts - origin else 0
  }

  function NextOut(last: nat, rel: nat): nat {
    if rel <= last then (last + 1) % U32 else rel
  }

  /** The outputs for the inputs `s`. */
  function Outs(s: seq<nat>): (out: seq<nat>)
    ensures |out| == |s|
    decreases |s|
  {
    if |s| == 0 then []
    else if |s| == 1 then [0]
    else
      var some := Outs(s[..|s| - 1]);
      some + [NextOut(some[|s| - 2], Relative(s[0], s[|s| - 1]))]
  }

  function RelativeAt(s: seq<nat>, i: nat): nat
    requires i < |s|
  {
    if s[i] >= s[0] then s[i] - s[0] else 0
  }

  predicate Increasing(t: seq<nat>) {
    forall i, j :: 0 <= i < j < |t| ==> t[i] < t[j]
  }

  /** No output is before its input. */
  predicate NeverEarly(s: seq<nat>, t: seq<nat>) {
    |t| == |s| && forall i :: 0 <= i < |s| ==> t[i] >= RelativeAt(s, i)
  }

  /** The greatest of the inputs, each moved on by its distance from the end. */
  function Peak(s: seq<nat>): nat
    requires |s| > 0
    decreases |s|
  {
    var k := |s| - 1;
    if k == 0 then 0
    else
      var p := Peak(s[..k]) + 1;
      if RelativeAt(s, k) > p then RelativeAt(s, k) else p
  }

  lemma {:induction false} PeakIsGreatest(s: seq<nat>)
    requires |s| > 0
    ensures forall j :: 0 <= j < |s| ==> Peak(s) >= RelativeAt(s, j) + (|s| - 1 - j)
    ensures exists j :: 0 <= j < |s| && Peak(s) == RelativeAt(s, j) + (|s| - 1 - j)
    decreases |s|
  {
    var k := |s| - 1;
    if k == 0 {
      assert Peak(s) == RelativeAt(s, 0) + (|s| - 1 - 0);
    } else {
      var some := s[..k];
      PeakIsGreatest(some);
      assert forall j :: 0 <= j < k ==> RelativeAt(s, j) == RelativeAt(some, j);
      var j :| 0 <= j < k && Peak(some) == RelativeAt(some, j) + (k - 1 - j);
      if RelativeAt(s, k) > Peak(some) + 1 {
        assert Peak(s) == RelativeAt(s, k) + (|s| - 1 - k);
      } else {
        assert Peak(s) == RelativeAt(s, j) + (|s| - 1 - j);
      }
    }
  }

  predicate Words(s: seq<nat>) {
    forall i :: 0 <= i < |s| ==> s[i] < U32
  }

  /** The peak of a beginning is smaller, by one at least per input. */
  lemma PeakGrows(s: seq<nat>)
    requires |s| > 1
    ensures Peak(s[..|s| - 1]) < Peak(s)
  {
  }

  /** As long as the peak fits into 32 bits every output is the peak of the inputs so far. */
  lemma {:induction false} OutsArePeaks(s: seq<nat>)
    requires |s| > 0 && Words(s) && Peak(s) <= TOP
    ensures forall i :: 0 <= i < |s| ==> Outs(s)[i] == Peak(s[..i + 1])
    decreases |s|
  {
    var k := |s| - 1;
    assert s[..k + 1] == s;
    if k > 0 {
      var some := s[..k];
      OutsArePeaks(some);
      assert some[..k] == some;
      forall i | 0 <= i < k ensures Outs(s)[i] == Peak(s[..i + 1]) {
        assert some[..i + 1] == s[..i + 1];
        assert Outs(s)[i] == Outs(some)[i];
      }
    }
  }

  lemma {:induction false} PeaksIncrease(s: seq<nat>, i: nat, j: nat)
    requires i < j < |s|
    ensures Peak(s[..i + 1]) < Peak(s[..j + 1])
    decreases j
  {
    assert s[..j + 1][..j] == s[..j];
    PeakGrows(s[..j + 1]);
    if i < j - 1 { PeaksIncrease(s, i, j - 1); }
  }

  /** The outputs increase strictly exactly if the peak fits into 32 bits. */
  lemma {:induction false} IncreasingIff(s: seq<nat>)
    requires |s| > 0 && Words(s)
    ensures Increasing(Outs(s)) <==> Peak(s) <= TOP
    decreases |s|
  {
    var k := |s| - 1;
    if Peak(s) <= TOP {
      OutsArePeaks(s);
      forall i, j | 0 <= i < j < |s| ensures Outs(s)[i] < Outs(s)[j] { PeaksIncrease(s, i, j); }
    } else {
      var some := s[..k];
      assert Outs(s)[..k] == Outs(some);
      if Peak(some) <= TOP {
        OutsArePeaks(some);
        assert some[..k] == some;
        assert Outs(s)[k - 1] == TOP;
        assert Outs(s)[k] == 0;
      } else {
        IncreasingIff(some);
        var i, j :| 0 <= i < j < k && Outs(some)[i] >= Outs(some)[j];
        assert Outs(s)[i] >= Outs(s)[j];
      }
    }
  }

  /** They are never early, and below every other increasing sequence that is never early. */
  lemma {:induction false} OutsAreLeast(s: seq<nat>, t: seq<nat>)
    requires |s| > 0 && Words(s) && Peak(s) <= TOP && Increasing(t) && NeverEarly(s, t)
    ensures NeverEarly(s, Outs(s)) && Increasing(Outs(s)) && Outs(s)[0] == 0
    ensures forall i :: 0 <= i < |s| ==> Outs(s)[i] <= t[i]
  {
    OutsArePeaks(s);
    IncreasingIff(s);
    forall i | 0 <= i < |s| ensures RelativeAt(s, i) <= Outs(s)[i] <= t[i] {
      PeakIsGreatest(s[..i + 1]);
      assert RelativeAt(s[..i + 1], i) == RelativeAt(s, i);
      var j :| 0 <= j < i + 1 && Peak(s[..i + 1]) == RelativeAt(s[..i + 1], j) + (i - j);
      Spread(t, j, i);
    }
    assert s[..1][0] == s[0];
  }

  lemma {:induction false} Spread(t: seq<nat>, j: nat, i: nat)
    requires Increasing(t) && j <= i < |t|
    ensures t[i] >= t[j] + (i - j)
    decreases i
  {
    if j < i { Spread(t, j, i - 1); }
  }

  class SingleTimeline {
    var origin: nat
    var originSet: bool
    var last: nat

    /** The state after the inputs `s` since the last reset. */
    ghost predicate Seen(s: seq<nat>)
      reads this
    {
      && (originSet <==> s != []) && last < U32
      && (s != [] ==> origin == s[0] && last == Outs(s)[|s| - 1])
    }

    constructor ()
      ensures Seen([])
    {
      origin, originSet, last := 0, false, 0;
    }

    method Reset()
      modifies this
      ensures Seen([])
    {
      origin, originSet, last := 0, false, 0;
    }

    method Pts(ring: nat, ghost s: seq<nat>) returns (out: nat)
      requires Seen(s) && ring < U32
      modifies this
      ensures Seen(s + [ring]) && out == last
    {
      assert (s + [ring])[..|s|] == s;
      if !originSet {
        origin, originSet, last := ring, true, 0;
        return 0;
      }
      out := if ring >= origin then ring - origin else 0;
      if out <= last { out := (last + 1) % U32; }
      last := out;
    }
  }

  // ---- two tracks

  datatype Lane = Lane(origin: nat, isSet: bool, last: nat)

  datatype Av = Av(video: Lane, audio: Lane, shared: nat, useShared: bool)

  /** A timestamp wanted for a track, or a new origin that keeps the outputs going. */
  datatype Op = Pts(audio: bool, ring: nat) | Shift(origin: nat)

  function NewAv(): Av {
    Av(Lane(0, false, 0), Lane(0, false, 0), 0, false)
  }

  function LaneOf(m: Av, audio: bool): Lane {
    if audio then m.audio else m.video
  }

  function WithLane(m: Av, audio: bool, l: Lane): Av {
    if audio then m.(audio := l) else m.(video := l)
  }

  /** With a shared origin a track may start at 0; the steps are enforced after the first positive output. */
  function AfterPts(m: Av, audio: bool, ring: nat): Lane {
    var l := LaneOf(m, audio);
    if m.useShared then
      var rel := Relative(m.shared, ring);
      l.(last := if l.last > 0 then NextOut(l.last, rel) else rel)
    else
      var o := if l.isSet then l.origin else ring;
      Lane(o, true, NextOut(l.last, Relative(o, ring)))
  }

  function AfterOp(m: Av, op: Op): Av {
    match op
    case Pts(audio, ring) => WithLane(m, audio, AfterPts(m, audio, ring))
    case Shift(o) => Av(Lane(o, true, m.video.last), Lane(o, true, m.audio.last), o, true)
  }

  function AfterOps(m: Av, ops: seq<Op>): Av
    decreases |ops|
  {
    if ops == [] then m else AfterOp(AfterOps(m, ops[..|ops| - 1]), ops[|ops| - 1])
  }

  /** What one track has put out. */
  function Track(m: Av, ops: seq<Op>, audio: bool): seq<nat>
    decreases |ops|
  {
    if ops == [] then []
    else
      var k := |ops| - 1;
      Track(m, ops[..k], audio)
      + if ops[k].Pts? && ops[k].audio == audio then [LaneOf(AfterOps(m, ops), audio).last] else []
  }

  /** Never back, and onwards once positive. */
  predicate Flowing(t: seq<nat>) {
    forall i, j :: 0 <= i < j < |t| ==> t[i] <= t[j] && (t[i] > 0 ==> t[i] < t[j])
  }

  predicate SmallRings(ops: seq<Op>) {
    forall i :: 0 <= i < |ops| && ops[i].Pts? ==> ops[i].ring < U32
  }

  lemma {:induction false} LastIsLastOutput(ops: seq<Op>, audio: bool)
    requires SmallRings(ops)
    ensures var t := Track(NewAv(), ops, audio); var last := LaneOf(AfterOps(NewAv(), ops), audio).last;
            last < U32 && last == if t == [] then 0 else t[|t| - 1]
    decreases |ops|
  {
    if ops != [] { LastIsLastOutput(ops[..|ops| - 1], audio); }
  }

  // ---- the same without a modulus, from the calls alone

  /** The origin of a track: the one set last, otherwise the first timestamp. */
  function Origin(ops: seq<Op>, audio: bool): Option<nat>
    decreases |ops|
  {
    if ops == [] then None
    else
      var k := |ops| - 1;
      var before := Origin(ops[..k], audio);
      if ops[k].Shift? then Some(ops[k].origin)
      else if ops[k].audio == audio && before.None? then Some(ops[k].ring)
      else before
  }

  predicate Shifted(ops: seq<Op>) {
    exists i :: 0 <= i < |ops| && ops[i].Shift?
  }

  /** What the last output of a track would be with unbounded numbers. */
  function Unwrapped(ops: seq<Op>, audio: bool): nat
    decreases |ops|
  {
    if ops == [] then 0
    else
      var k := |ops| - 1;
      var u := Unwrapped(ops[..k], audio);
      if ops[k].Shift? || ops[k].audio != audio then u
      else
        var rel := Relative(Origin(ops, audio).value, ops[k].ring);
        if (Shifted(ops) && u == 0) || rel > u then rel else u + 1
  }

  predicate OnTrack(ops: seq<Op>, audio: bool, i: nat) {
    i < |ops| && ops[i].Pts? && ops[i].audio == audio
  }

  /** What the call `i` asks for; without a shared origin the outputs begin at 1. */
  function Asked(ops: seq<Op>, audio: bool, i: nat): nat
    requires OnTrack(ops, audio, i)
  {
    var some := ops[..i + 1];
    var o := Origin(some, audio).value;
    var rel := if ops[i].ring >= o then ops[i].ring - o else 0;
    if rel == 0 && !Shifted(some) then 1 else rel
  }

  /** How many calls for the track come after call `i`. */
  function Later(ops: seq<Op>, audio: bool, i: nat): nat
    decreases |ops|
  {
    if |ops| <= i + 1 then 0
    else
      var k := |ops| - 1;
      Later(ops[..k], audio, i) + if ops[k].Pts? && ops[k].audio == audio then 1 else 0
  }

  /** What call `i` asks for, moved on by one for each later call of its track. */
  function Moved(ops: seq<Op>, audio: bool, i: nat): nat
    requires OnTrack(ops, audio, i)
  {
    Asked(ops, audio, i) + Later(ops, audio, i)
  }

  /** The last output is the greatest of the positive times asked for, each moved on like that. */
  lemma {:induction false} UnwrappedIsGreatest(ops: seq<Op>, audio: bool)
    ensures forall i: nat :: OnTrack(ops, audio, i) && Asked(ops, audio, i) > 0 ==> Unwrapped(ops, audio) >= Moved(ops, audio, i)
    ensures Unwrapped(ops, audio) > 0 ==>
              exists i: nat :: OnTrack(ops, audio, i) && Asked(ops, audio, i) > 0 && Unwrapped(ops, audio) == Moved(ops, audio, i)
    decreases |ops|
  {
    if ops != [] {
      var k := |ops| - 1;
      var some := ops[..k];
      UnwrappedIsGreatest(some, audio);
      assert ops[..k + 1] == ops;
      var more := if OnTrack(ops, audio, k) then 1 else 0;
      forall i: nat | i < k && OnTrack(ops, audio, i) ensures OnTrack(some, audio, i)
        ensures Asked(ops, audio, i) == Asked(some, audio, i) && Moved(ops, audio, i) == Moved(some, audio, i) + more
      {
        assert some[..i + 1] == ops[..i + 1];
      }
      if OnTrack(ops, audio, k) && Unwrapped(ops, audio) == Asked(ops, audio, k) {
        assert Moved(ops, audio, k) == Asked(ops, audio, k);
      } else if Unwrapped(ops, audio) > 0 {
        var i: nat :| OnTrack(some, audio, i) && Asked(some, audio, i) > 0 && Unwrapped(some, audio) == Moved(some, audio, i);
        assert OnTrack(ops, audio, i);
      }
    }
  }

  lemma {:induction false} OriginsFollow(ops: seq<Op>, audio: bool)
    ensures var m := AfterOps(NewAv(), ops); var l, o := LaneOf(m, audio), Origin(ops, audio);
            && l.isSet == o.Some? && (o.Some? ==> l.origin == o.value)
            && m.useShared == Shifted(ops) && (m.useShared ==> o == Some(m.shared))
    decreases |ops|
  {
    if ops != [] {
      var k := |ops| - 1;
      OriginsFollow(ops[..k], audio);
      assert Shifted(ops) <==> Shifted(ops[..k]) || ops[k].Shift?;
    }
  }

  lemma FlowsOn(t: seq<nat>, x: nat)
    requires Flowing(t) && (t != [] ==> x >= t[|t| - 1] && (t[|t| - 1] > 0 ==> x > t[|t| - 1]))
    ensures Flowing(t + [x])
  {
  }

  /** `u` and `v` are the unbounded values of the last output of `t` and of `x`. */
  lemma OneMoreFlows(t: seq<nat>, x: nat, u: nat, v: nat)
    requires Flowing(t) <==> u <= TOP
    requires u <= TOP ==> u == (if t == [] then 0 else t[|t| - 1]) && x == v % U32
    requires u <= v && (u > 0 ==> u < v) && (u <= TOP < v ==> u == TOP && v == U32)
    ensures Flowing(t + [x]) <==> v <= TOP
  {
    if v <= TOP {
      FlowsOn(t, x);
    } else if u > TOP {
      var i, j :| 0 <= i < j < |t| && !(t[i] <= t[j] && (t[i] > 0 ==> t[i] < t[j]));
      assert (t + [x])[i] == t[i] && (t + [x])[j] == t[j];
    } else {
      assert (t + [x])[|t| - 1] == TOP && (t + [x])[|t|] == x == v % U32;
    }
  }

  /** One more timestamp, by numbers of 32 bits and by unbounded ones. */
  lemma NextLast(ops: seq<Op>, audio: bool)
    requires ops != [] && ops[|ops| - 1].Pts? && ops[|ops| - 1].audio == audio
    ensures Origin(ops, audio).Some?
    ensures var k := |ops| - 1; var rel := Relative(Origin(ops, audio).value, ops[k].ring);
            var l := LaneOf(AfterOps(NewAv(), ops[..k]), audio).last;
            LaneOf(AfterOps(NewAv(), ops), audio).last == if Shifted(ops) && l == 0 then rel else NextOut(l, rel)
  {
    var k := |ops| - 1;
    OriginsFollow(ops[..k], audio);
    assert Shifted(ops) <==> Shifted(ops[..k]);
  }

  lemma NextFlows(ops: seq<Op>, audio: bool)
    requires SmallRings(ops) && ops != [] && ops[|ops| - 1].Pts? && ops[|ops| - 1].audio == audio
    ensures var k := |ops| - 1;
            var u, v, x := Unwrapped(ops[..k], audio), Unwrapped(ops, audio), LaneOf(AfterOps(NewAv(), ops), audio).last;
            && u <= v && (u > 0 ==> u < v) && (u <= TOP < v ==> u == TOP && v == U32)
            && (LaneOf(AfterOps(NewAv(), ops[..k]), audio).last == u <= TOP ==> x == v % U32)
  {
    var k := |ops| - 1;
    NextLast(ops, audio);
    hide AfterOps, Origin, Shifted;
    var rel := Relative(Origin(ops, audio).value, ops[k].ring);
    assert rel < U32;
  }

  lemma TrackGrows(ops: seq<Op>, audio: bool)
    requires ops != []
    ensures var k := |ops| - 1;
            if ops[k].Pts? && ops[k].audio == audio then
              Track(NewAv(), ops, audio) == Track(NewAv(), ops[..k], audio) + [LaneOf(AfterOps(NewAv(), ops), audio).last]
            else
              && Track(NewAv(), ops, audio) == Track(NewAv(), ops[..k], audio)
              && LaneOf(AfterOps(NewAv(), ops), audio).last == LaneOf(AfterOps(NewAv(), ops[..k]), audio).last
              && Unwrapped(ops, audio) == Unwrapped(ops[..k], audio)
  {
  }

  /** Through any mix of timestamps and new origins, each track flows if and only if its last output would
      fit into 32 bits, and then that is the output. */
  lemma {:induction false} TracksFlowIff(ops: seq<Op>, audio: bool)
    requires SmallRings(ops)
    ensures Flowing(Track(NewAv(), ops, audio)) <==> Unwrapped(ops, audio) <= TOP
    ensures Unwrapped(ops, audio) <= TOP ==> LaneOf(AfterOps(NewAv(), ops), audio).last == Unwrapped(ops, audio)
    decreases |ops|
  {
    if ops != [] {
      TracksFlowIff(ops[..|ops| - 1], audio);
      FlowsFurther(ops, audio);
    }
  }

  lemma FlowsFurther(ops: seq<Op>, audio: bool)
    requires SmallRings(ops) && ops != []
    requires var some := ops[..|ops| - 1];
             && (Flowing(Track(NewAv(), some, audio)) <==> Unwrapped(some, audio) <= TOP)
             && (Unwrapped(some, audio) <= TOP ==> LaneOf(AfterOps(NewAv(), some), audio).last == Unwrapped(some, audio))
    ensures Flowing(Track(NewAv(), ops, audio)) <==> Unwrapped(ops, audio) <= TOP
    ensures Unwrapped(ops, audio) <= TOP ==> LaneOf(AfterOps(NewAv(), ops), audio).last == Unwrapped(ops, audio)
  {
    hide Unwrapped, AfterOps, Flowing, LaneOf, Track;
    var k := |ops| - 1;
    TrackGrows(ops, audio);
    if ops[k].Pts? && ops[k].audio == audio {
      NextFlows(ops, audio);
      LastIsLastOutput(ops[..k], audio);
      OneMoreFlows(Track(NewAv(), ops[..k], audio), LaneOf(AfterOps(NewAv(), ops), audio).last,
                   Unwrapped(ops[..k], audio), Unwrapped(ops, audio));
    }
  }

  class AvTimeline {
    const origin: array<nat>
    const originSet: array<bool>
    const lastOut: array<nat>
    var shared: nat
    var useShared: bool

    ghost predicate Valid()
      reads this
    {
      origin.Length == originSet.Length == lastOut.Length == 2 && origin != lastOut
    }

    ghost function Value(): Av
      requires Valid()
      reads this, origin, originSet, lastOut
    {
      Av(Lane(origin[0], originSet[0], lastOut[0]), Lane(origin[1], originSet[1], lastOut[1]), shared, useShared)
    }

    constructor ()
      ensures Valid() && Value() == NewAv() && fresh(origin) && fresh(originSet) && fresh(lastOut)
    {
      origin := new nat[2](_ => 0);
      originSet := new bool[2](_ => false);
      lastOut := new nat[2](_ => 0);
      shared, useShared := 0, false;
    }

    method LockOrigin(o: nat)
      requires Valid()
      modifies this, origin, originSet, lastOut
      ensures Valid() && Value() == Av(Lane(o, true, 0), Lane(o, true, 0), o, true)
    {
      shared, useShared := o, true;
      origin[0], origin[1] := o, o;
      originSet[0], originSet[1] := true, true;
      lastOut[0], lastOut[1] := 0, 0;
    }

    method ShiftOrigin(o: nat)
      requires Valid()
      modifies this, origin, originSet
      ensures Valid() && Value() == AfterOp(old(Value()), Shift(o))
    {
      shared, useShared := o, true;
      origin[0], origin[1] := o, o;
      originSet[0], originSet[1] := true, true;
    }

    method NextPts(audio: bool, ring: nat) returns (rel: nat)
      requires Valid()
      modifies origin, originSet, lastOut
      ensures Valid() && Value() == AfterOp(old(Value()), Pts(audio, ring)) && rel == LaneOf(Value(), audio).last
    {
      var idx := if audio then 1 else 0;
      if useShared {
        rel := if ring >= shared then ring - shared else 0;
        if lastOut[idx] > 0 && rel <= lastOut[idx] { rel := (lastOut[idx] + 1) % U32; }
        lastOut[idx] := rel;
        return;
      }
      if !originSet[idx] { origin[idx], originSet[idx] := ring, true; }
      rel := if ring >= origin[idx] then ring - origin[idx] else 0;
      if rel <= lastOut[idx] { rel := (lastOut[idx] + 1) % U32; }
      lastOut[idx] := rel;
    }
  }
}
