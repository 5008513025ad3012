/** Inbound timestamps as values: raw times of two tracks become relative times that stay together.
    Times are unbounded integers; 64-bit overflow of differences between raw times is not modelled. */
module MediaClock {
  const MAX_DELTA: nat := 300
  const SYNC_DRIFT: nat := 300
  const SYNC_INPUT: nat := 5000

  datatype Stamp = Stamp(maxDelta: nat, lastStamp: int, lastDelta: int, relative: int, lastIn: int, needSync: nat)

  datatype Timeline = Timeline(v: Stamp, a: Stamp, linked: bool, clampOff: bool)

  datatype Call = Video(raw: nat) | Audio(raw: nat)

  function Abs(x: int): (r: nat)
    ensures r == x || r == -x
  {
    if x >= 0 then x else -x
  }

  function NewTimeline(): Timeline {
    Timeline(Stamp(MAX_DELTA, 0, 0, 0, 0, 0), Stamp(MAX_DELTA, 0, 0, 0, 0, 0), false, false)
  }

  // ---- one track

  /** The last plausible step again, in place of a jump. */
  function Again(s: Stamp): int {
    if s.lastDelta > 0 then s.lastDelta else 1
  }

  function Jumps(s: Stamp, stamp: int): bool {
    s.lastStamp != 0 && Abs(stamp - s.lastStamp) > s.maxDelta
  }

  function Delta(s: Stamp, stamp: int): int {
    if s.lastStamp == 0 then 0 else if Jumps(s, stamp) then Again(s) else stamp - s.lastStamp
  }

  function AfterDelta(s: Stamp, stamp: int): Stamp {
    if Jumps(s, stamp) then s.(lastStamp := stamp, needSync := s.needSync + 1)
    else if s.lastStamp != 0 && stamp >= s.lastStamp then
      s.(lastStamp := stamp, lastDelta := if stamp > s.lastStamp then stamp - s.lastStamp else 1)
    else s.(lastStamp := stamp)
  }

  /** The track with raw time `dts` taken in; the same time twice is taken in once. */
  function TakeIn(s: Stamp, dts: int): Stamp {
    var t := s.(maxDelta := if s.maxDelta == 0 then MAX_DELTA else s.maxDelta);
    if t.lastIn == dts then t
    else AfterDelta(t, dts).(relative := t.relative + Delta(t, dts), lastIn := dts)
  }

  // ---- two tracks

  predicate SyncDue(s: Stamp, m: Stamp) {
    && m.lastIn != 0 && (s.needSync > 0 || m.needSync > 0)
    && !(Abs(s.lastIn - m.lastIn) >= SYNC_INPUT && s.needSync <= 3)
  }

  function Counted(s: Stamp): Stamp {
    s.(needSync := if s.needSync > 0 then s.needSync - 1 else 0)
  }

  /** A track far behind its master jumps to it; a master ahead of its track by a little falls back to it. */
  function Synced(s: Stamp, m: Stamp): (Stamp, Stamp) {
    if !SyncDue(s, m) then (s, m)
    else if s.relative < m.relative - SYNC_DRIFT then
      (Counted(s.(relative := m.relative, lastStamp := s.lastIn)), Counted(m))
    else if s.relative < m.relative then
      (Counted(s), Counted(m.(relative := s.relative, lastStamp := m.lastIn)))
    else (Counted(s), Counted(m))
  }

  /** Both tracks have delivered something since the start. */
  predicate Seen(t: Timeline) {
    t.v.lastIn != 0 && t.a.lastIn != 0
  }

  function Clamped(t: Timeline): Timeline {
    if t.clampOff || !t.linked || !Seen(t) then t
    else if t.v.relative - t.a.relative > SYNC_DRIFT then
      t.(v := t.v.(relative := t.a.relative, lastStamp := t.v.lastIn))
    else if t.a.relative - t.v.relative > SYNC_DRIFT then
      t.(a := t.a.(relative := t.v.relative, lastStamp := t.a.lastIn))
    else t
  }

  /** Audio follows video from the first link on. */
  function Linked(t: Timeline): Timeline {
    if t.linked then t else t.(linked := true, a := t.a.(needSync := t.a.needSync + 1))
  }

  function Apply(t: Timeline, c: Call): Timeline {
    var u := Linked(t);
    match c
    case Video(raw) => Clamped(u.(v := TakeIn(u.v, raw)))
    case Audio(raw) =>
      var p := Synced(TakeIn(u.a, raw), u.v);
      Clamped(u.(a := p.0, v := p.1))
  }

  function Run(t: Timeline, calls: seq<Call>): Timeline
    decreases |calls|
  {
    if calls == [] then t else Apply(Run(t, calls[..|calls| - 1]), calls[|calls| - 1])
  }

  // ---- properties

  function Drift(t: Timeline): nat {
    Abs(t.v.relative - t.a.relative)
  }

  /** How far a call moves the relative time of either track. */
  function Move(t: Timeline, u: Timeline): nat {
    var v, a := Abs(u.v.relative - t.v.relative), Abs(u.a.relative - t.a.relative);
    if v > a then v else a
  }

  predicate StampInv(s: Stamp) {
    s.maxDelta == MAX_DELTA && 0 <= s.lastDelta <= MAX_DELTA
  }

  predicate Sound(t: Timeline) {
    StampInv(t.v) && StampInv(t.a)
  }

  lemma TakeInIsGentle(s: Stamp, dts: int)
    requires StampInv(s)
    ensures StampInv(TakeIn(s, dts)) && Abs(TakeIn(s, dts).relative - s.relative) <= MAX_DELTA
    ensures TakeIn(s, dts).lastIn == dts
  {
  }

  /** Whatever the state was and whatever arrives: with clamping on, a call leaves the tracks together
      if it leaves both seen. */
  lemma CallClamps(t: Timeline, c: Call)
    requires !t.clampOff
    ensures !Apply(t, c).clampOff && (Seen(Apply(t, c)) ==> Drift(Apply(t, c)) <= SYNC_DRIFT)
  {
  }

  lemma CallIsSound(t: Timeline, c: Call)
    requires Sound(t)
    ensures Sound(Apply(t, c)) && Apply(t, c).linked
  {
    var u := Linked(t);
    match c
    case Video(raw) => TakeInIsGentle(u.v, raw);
    case Audio(raw) =>
      TakeInIsGentle(u.a, raw);
      SyncIsSound(TakeIn(u.a, raw), u.v);
  }

  lemma SyncIsSound(s: Stamp, m: Stamp)
    requires StampInv(s) && StampInv(m)
    ensures StampInv(Synced(s, m).0) && StampInv(Synced(s, m).1)
  {
  }

  /** From tracks that are together, a call with a non-zero time moves neither by more than 600 ms. */
  lemma CallMovesLittle(t: Timeline, c: Call)
    requires Sound(t) && !t.clampOff && Seen(t) && Drift(t) <= SYNC_DRIFT && c.raw != 0
    ensures Seen(Apply(t, c)) && Move(t, Apply(t, c)) <= 2 * SYNC_DRIFT
  {
    var u := Linked(t);
    match c
    case Video(raw) => TakeInIsGentle(u.v, raw);
    case Audio(raw) => TakeInIsGentle(u.a, raw);
  }

  /** The clamp needs both tracks seen, and only a raw time of zero undoes that. */
  lemma StaysSeenIff(t: Timeline, c: Call)
    requires Seen(t)
    ensures Seen(Apply(t, c)) <==> c.raw != 0
  {
  }

  predicate NonZero(calls: seq<Call>) {
    forall i :: 0 <= i < |calls| ==> calls[i].raw != 0
  }

  predicate Together(t: Timeline) {
    Sound(t) && !t.clampOff && (Seen(t) ==> Drift(t) <= SYNC_DRIFT)
  }

  lemma CallKeepsTogether(t: Timeline, c: Call)
    requires Together(t)
    ensures Together(Apply(t, c))
  {
    CallClamps(t, c);
    CallIsSound(t, c);
  }

  lemma {:induction false} RunKeepsTogether(calls: seq<Call>)
    ensures Together(Run(NewTimeline(), calls))
    decreases |calls|
  {
    if calls != [] {
      var k := |calls| - 1;
      RunKeepsTogether(calls[..k]);
      CallKeepsTogether(Run(NewTimeline(), calls[..k]), calls[k]);
    }
  }

  /** Over any run: once both tracks have been seen they stay seen and together, and every later call
      moves either of them by at most 600 ms. */
  lemma TracksStayTogether(calls: seq<Call>, n: nat)
    requires NonZero(calls) && n < |calls|
    ensures var t, u := Run(NewTimeline(), calls[..n]), Run(NewTimeline(), calls[..n + 1]);
            Seen(t) ==> Seen(u) && Drift(u) <= SYNC_DRIFT && Move(t, u) <= 2 * SYNC_DRIFT
  {
    RunKeepsTogether(calls[..n]);
    RunKeepsTogether(calls[..n + 1]);
    var t := Run(NewTimeline(), calls[..n]);
    assert calls[..n + 1][..n] == calls[..n];
    if Seen(t) { CallMovesLittle(t, calls[n]); }
  }

  /** The bound is attained. */
  lemma SixHundredHappens()
    ensures var t := Run(NewTimeline(), [Video(1001), Audio(1001), Video(1301)]);
            var u := Run(NewTimeline(), [Video(1001), Audio(1001), Video(1301), Audio(701)]);
            Seen(t) && Drift(t) == SYNC_DRIFT && Move(t, u) == 2 * SYNC_DRIFT
  {
    var calls := [Video(1001), Audio(1001), Video(1301), Audio(701)];
    assert calls[..3] == [Video(1001), Audio(1001), Video(1301)];
    assert calls[..3][..2] == [Video(1001), Audio(1001)] && [Video(1001), Audio(1001)][..1] == [Video(1001)];
    var t1 := Apply(NewTimeline(), Video(1001));
    assert Run(NewTimeline(), [Video(1001)]) == t1 by { assert [Video(1001)][..0] == []; }
    var t2 := Apply(t1, Audio(1001));
    assert Run(NewTimeline(), [Video(1001), Audio(1001)]) == t2;
    var t3 := Apply(t2, Video(1301));
    assert Run(NewTimeline(), calls[..3]) == t3;
    assert t3.v.relative == 300 && t3.a.relative == 0;
  }

  /** A raw time of zero counts as no time: four calls and the tracks are 600 ms apart. */
  lemma ZeroBreaksIt()
    ensures Drift(Run(NewTimeline(), [Video(1), Audio(1), Video(301), Video(0)])) == 600
  {
    var calls := [Video(1), Audio(1), Video(301), Video(0)];
    assert calls[..3][..2] == [Video(1), Audio(1)] && [Video(1), Audio(1)][..1] == [Video(1)];
    var t1 := Apply(NewTimeline(), Video(1));
    assert Run(NewTimeline(), [Video(1)]) == t1 by { assert [Video(1)][..0] == []; }
    var t2 := Apply(t1, Audio(1));
    assert Run(NewTimeline(), [Video(1), Audio(1)]) == t2;
    var t3 := Apply(t2, Video(301));
    assert Run(NewTimeline(), calls[..3]) == t3;
    assert t3.v.relative == 300 && t3.a.relative == 0;
  }

  // ---- what a call does to the two relative times

  /** Every raw time that has been taken in is also the one that the next step is measured from. */
  predicate Level(s: Stamp) {
    StampInv(s) && s.lastStamp == s.lastIn
  }

  /** A step of at most 300 ms is taken as it is; in place of a longer one the last step forward is taken again, or
      one of 1 ms if there was none.  The first time starts the track where it is. */
  lemma StepTaken(s: Stamp, dts: int)
    requires Level(s)
    ensures var t := TakeIn(s, dts); var d := dts - s.lastIn;
            && Level(t) && t.lastIn == dts
            && t.relative == s.relative + (
                 if s.lastIn == 0 then 0
                 else if -300 <= d <= 300 then d
                 else if s.lastDelta == 0 then 1 else s.lastDelta)
            && t.lastDelta == (if s.lastIn != 0 && 0 < d <= 300 then d else s.lastDelta)
            && t.needSync == s.needSync + (if s.lastIn != 0 && !(-300 <= d <= 300) then 1 else 0)
  {
  }

  lemma TakenIn(s: Stamp, dts: int)
    ensures TakeIn(s, dts).lastIn == dts
  {
  }

  lemma CallIsLevel(t: Timeline, c: Call)
    requires Level(t.v) && Level(t.a)
    ensures Level(Apply(t, c).v) && Level(Apply(t, c).a)
  {
    hide TakeIn;
    var u := Linked(t);
    match c
    case Video(raw) => StepTaken(u.v, raw);
    case Audio(raw) => StepTaken(u.a, raw);
  }

  /** The clamp is on and sees both tracks. */
  predicate Watched(t: Timeline, c: Call) {
    !t.clampOff && c.raw != 0 && (if c.Video? then t.a.lastIn != 0 else t.v.lastIn != 0)
  }

  /** Of two tracks more than 300 ms apart, watched ones, the one ahead is taken back to the other. */
  predicate Settled(v: int, a: int, watched: bool, v': int, a': int) {
    if watched && v > a + 300 then v' == a' == a
    else if watched && a > v + 300 then v' == a' == v
    else v' == v && a' == a
  }

  /** A video call steps the video track; nothing else moves but by the clamp. */
  lemma VideoCall(t: Timeline, raw: nat)
    requires Level(t.v) && Level(t.a)
    ensures var u := Apply(t, Video(raw));
            && Settled(TakeIn(t.v, raw).relative, t.a.relative, Watched(t, Video(raw)), u.v.relative, u.a.relative)
            && u.v.needSync == TakeIn(t.v, raw).needSync && u.a.needSync == t.a.needSync + (if t.linked then 0 else 1)
  {
    StepTaken(t.v, raw);
    hide TakeIn;
  }

  /** The audio track with the call taken in, linked if it was not. */
  function Stepped(t: Timeline, raw: nat): Stamp {
    TakeIn(t.a.(needSync := t.a.needSync + if t.linked then 0 else 1), raw)
  }

  /** The tracks are to be synchronised: video has been seen, one of them asks for it, and their raw times are less
      than 5 s apart or audio has asked more than three times. */
  predicate ToSync(t: Timeline, raw: nat) {
    && t.v.lastIn != 0 && (Stepped(t, raw).needSync > 0 || t.v.needSync > 0)
    && (-5000 < raw - t.v.lastIn < 5000 || Stepped(t, raw).needSync > 3)
  }

  /** An audio call steps the audio track.  If the tracks are to be synchronised, audio that is behind by more than
      300 ms then goes on to video, and video goes back to audio that is behind by less; audio that is not behind
      moves neither.  Then the clamp follows. */
  lemma AudioCall(t: Timeline, raw: nat)
    requires Level(t.v) && Level(t.a)
    ensures var u, a, v := Apply(t, Audio(raw)), Stepped(t, raw).relative, t.v.relative;
            && (ToSync(t, raw) && a < v - 300 ==> u.a.relative == u.v.relative == v)
            && (ToSync(t, raw) && v - 300 <= a < v ==> u.a.relative == u.v.relative == a)
            && (!ToSync(t, raw) || a >= v ==> Settled(v, a, Watched(t, Audio(raw)), u.v.relative, u.a.relative))
    ensures var u, a := Apply(t, Audio(raw)), Stepped(t, raw);
            if ToSync(t, raw) then
              && u.a.needSync == (if a.needSync > 0 then a.needSync - 1 else 0)
              && u.v.needSync == (if t.v.needSync > 0 then t.v.needSync - 1 else 0)
            else u.a.needSync == a.needSync && u.v.needSync == t.v.needSync
  {
    hide TakeIn, StampInv;
    TakenIn(t.a.(needSync := t.a.needSync + if t.linked then 0 else 1), raw);
  }

  // ---- runs

  lemma {:induction false} RunIsLevel(calls: seq<Call>)
    ensures var t := Run(NewTimeline(), calls); Level(t.v) && Level(t.a)
    decreases |calls|
  {
    if calls != [] {
      var k := |calls| - 1;
      RunIsLevel(calls[..k]);
      hide Apply, Level;
      CallIsLevel(Run(NewTimeline(), calls[..k]), calls[k]);
    }
  }

  predicate OnlyVideo(calls: seq<Call>) {
    forall i :: 0 <= i < |calls| ==> calls[i].Video? && calls[i].raw != 0
  }

  /** Until audio comes, the audio track waits and asks for one synchronisation. */
  lemma {:induction false} AudioWaits(calls: seq<Call>)
    requires OnlyVideo(calls)
    ensures var t := Run(NewTimeline(), calls);
            && !t.clampOff && t.linked == (calls != []) && t.a.lastIn == t.a.relative == 0
            && t.a.needSync == (if calls == [] then 0 else 1) && (calls != [] ==> t.v.lastIn == calls[|calls| - 1].raw)
    decreases |calls|
  {
    if calls != [] {
      var k := |calls| - 1;
      AudioWaits(calls[..k]);
      RunIsLevel(calls[..k]);
      var t := Run(NewTimeline(), calls[..k]);
      VideoCall(t, calls[k].raw);
    }
  }

  /** The first audio frame brings the two tracks to the same time if and only if video has not gone back by 300 ms
      or less from where it started. */
  lemma FirstAudioAlignsIff(calls: seq<Call>, raw: nat)
    requires OnlyVideo(calls) && calls != [] && raw != 0 && Abs(raw - calls[|calls| - 1].raw) < 5000
    ensures var x, t := Run(NewTimeline(), calls).v.relative, Run(NewTimeline(), calls + [Audio(raw)]);
            t.a.relative == t.v.relative <==> !(-300 <= x < 0)
  {
    AudioWaits(calls);
    RunIsLevel(calls);
    assert (calls + [Audio(raw)])[..|calls|] == calls;
    var t := Run(NewTimeline(), calls);
    StepTaken(t.a, raw);
    AudioCall(t, raw);
    hide Apply, TakeIn;
  }

  /** Video 200 ms on when audio begins: it goes back to where audio begins. */
  lemma AlignmentHappens()
    ensures var t := Run(NewTimeline(), [Video(1000), Video(1200)]);
            var u := Run(NewTimeline(), [Video(1000), Video(1200), Audio(1000)]);
            t.v.relative == 200 && u.v.relative == u.a.relative == 0
  {
    var calls := [Video(1000), Video(1200)];
    assert calls[..1] == [Video(1000)] && [Video(1000)][..0] == [];
    var t1 := Apply(NewTimeline(), Video(1000));
    assert Run(NewTimeline(), [Video(1000)]) == t1;
    var t2 := Apply(t1, Video(1200));
    assert Run(NewTimeline(), calls) == t2;
    assert (calls + [Audio(1000)])[..2] == calls;
    assert Run(NewTimeline(), calls + [Audio(1000)]) == Apply(t2, Audio(1000));
  }

  /** Each raw time is `step` after the one before it, or jumps. */
  predicate SteadyButJumps(calls: seq<Call>, step: int) {
    forall i :: 1 <= i < |calls| ==> var d := calls[i].raw - calls[i - 1].raw; d == step || (i > 1 && !(-300 <= d <= 300))
  }

  /** A track with a steady step goes on with that step over any number of jumps, forward or back. */
  lemma {:induction false} JumpsAreBridged(calls: seq<Call>, step: int)
    requires OnlyVideo(calls) && calls != [] && 0 < step <= 300 && SteadyButJumps(calls, step)
    ensures var v := Run(NewTimeline(), calls).v;
            v.relative == step * (|calls| - 1) && v.lastIn == calls[|calls| - 1].raw && (|calls| > 1 ==> v.lastDelta == step)
    decreases |calls|
  {
    hide Apply, TakeIn, StampInv;
    var k := |calls| - 1;
    var t := Run(NewTimeline(), calls[..k]);
    AudioWaits(calls[..k]);
    RunIsLevel(calls[..k]);
    if k > 0 { JumpsAreBridged(calls[..k], step); }
    OneStepOn(t, calls[k].raw, step, k);
  }

  lemma OneStepOn(t: Timeline, raw: nat, step: int, k: nat)
    requires Level(t.v) && Level(t.a) && t.a.lastIn == 0 && 0 < step <= 300 && raw != 0
    requires if k == 0 then t.v.lastIn == t.v.relative == 0
             else t.v.lastIn != 0 && t.v.relative == step * (k - 1) && (k > 1 ==> t.v.lastDelta == step)
                  && (raw - t.v.lastIn == step || (k > 1 && !(-300 <= raw - t.v.lastIn <= 300)))
    ensures var v := Apply(t, Video(raw)).v; v.relative == step * k && v.lastIn == raw && (k > 0 ==> v.lastDelta == step)
  {
    hide Apply, TakeIn;
    StepTaken(t.v, raw);
    VideoCall(t, raw);
    VideoKeeps(t, raw);
    assert k > 0 ==> step * k == step * (k - 1) + step;
  }

  lemma VideoKeeps(t: Timeline, raw: nat)
    ensures var u, v := Apply(t, Video(raw)).v, TakeIn(t.v, raw); u.lastIn == v.lastIn && u.lastDelta == v.lastDelta
  {
    hide TakeIn;
  }
}
