/** Outgoing clocks: milliseconds, RTP ticks and NTP time, and the playing time of a session with pauses. */
module EgressClock {
  import opened Bytes
  import opened Wrappers

  const DEFAULT_HZ: nat := 90000
  const NTP_UNIX_OFFSET: nat := 2_208_988_800

  function Hz(hz: nat): (r: nat)
    ensures r > 0
  {
    if hz > 0 then hz else DEFAULT_HZ
  }

  function MsToRtp(ms: nat, hz: nat): nat {
    ms * Hz(hz) / 1000 % U32
  }

  function RtpToMs(ts: nat, hz: nat): nat {
    ts * 1000 / Hz(hz) % U32
  }

  datatype Ntp = Ntp(sec: nat, frac: nat)

  function WallToNtp(wall: nat): Ntp {
    Ntp((wall / 1000 + NTP_UNIX_OFFSET) % U32, wall % 1000 * U32 / 1000)
  }

  function NtpToWall(t: Ntp): nat {
    (if t.sec >= NTP_UNIX_OFFSET then t.sec - NTP_UNIX_OFFSET else 0) * 1000 + t.frac * 1000 / U32
  }

  // ---- conversions

  lemma Quotient(a: nat, q: nat, d: nat, s: nat)
    requires d > 0 && a == q * d + s && s < d
    ensures a / d == q && a % d == s
  {
    var e := q - a / d;
    assert e * d == a % d - s;
    FarFromZero(e, d);
  }

  lemma FarFromZero(e: int, d: nat)
    ensures e >= 1 ==> e * d >= d
    ensures e <= -1 ==> e * d + d <= 0
  {
    if e >= 1 { assert (e - 1) * d >= 0; }
    if e <= -1 { assert (-1 - e) * d >= 0; }
  }

  /** Milliseconds become ticks and milliseconds again; nothing is lost exactly if they are a whole
      number of ticks, otherwise one millisecond. */
  lemma MsRoundTripIff(ms: nat, hz: nat)
    requires hz >= 1000 && ms < U32 && ms * hz / 1000 < U32
    ensures RtpToMs(MsToRtp(ms, hz), hz) == if ms * hz % 1000 == 0 then ms else ms - 1
  {
    var p := ms * hz;
    var t, r := p / 1000, p % 1000;
    assert t * 1000 == p - r;
    if r == 0 {
      Quotient(t * 1000, ms, hz, 0);
    } else {
      assert ms > 0;
      assert (ms - 1) * hz + (hz - r) == p - r;
      Quotient(t * 1000, ms - 1, hz, hz - r);
    }
  }

  /** At 90 kHz nothing is ever lost. */
  lemma NinetyKiloHertz(ms: nat)
    requires ms * DEFAULT_HZ / 1000 < U32
    ensures RtpToMs(MsToRtp(ms, DEFAULT_HZ), DEFAULT_HZ) == ms
  {
    assert ms * DEFAULT_HZ % 1000 == 0;
    MsRoundTripIff(ms, DEFAULT_HZ);
  }

  /** `m` milliseconds are a whole number of 2^-32 s exactly if 125 divides `m`. */
  lemma WholeFractionIff(m: nat)
    ensures m * U32 % 1000 == 0 <==> m % 125 == 0
  {
    if m % 125 == 0 {
      var x := m / 125;
      assert m * U32 == x * 0x2000_0000 * 1000;
    }
  }

  lemma FractionRoundTrip(m: nat)
    requires m < 1000
    ensures m * U32 / 1000 < U32
    ensures m * U32 / 1000 * 1000 / U32 == if m % 125 == 0 then m else m - 1
  {
    WholeFractionIff(m);
    var f, r := m * U32 / 1000, m * U32 % 1000;
    assert f * 1000 == m * U32 - r;
  }

  /** Wall time becomes NTP time and wall time again, until the seconds no longer fit. */
  lemma WallRoundTripIff(wall: nat)
    requires wall / 1000 + NTP_UNIX_OFFSET < U32
    ensures NtpToWall(WallToNtp(wall)) == if wall % 125 == 0 then wall else wall - 1
  {
    FractionRoundTrip(wall % 1000);
    assert wall % 1000 % 125 == wall % 125;
  }

  /** NTP counts from 1900, wall time from 1970: 70 years, 17 of them leap years.  Half a second is half of the
      range of the fraction. */
  lemma EpochsApart(days: nat)
    requires (70 * 365 + 17 + days) * 86400 < 0x1_0000_0000
    ensures WallToNtp(days * 86_400_000) == Ntp((70 * 365 + 17 + days) * 86400, 0)
    ensures WallToNtp(days * 86_400_000 + 500) == Ntp((70 * 365 + 17 + days) * 86400, 0x8000_0000)
  {
    assert days * 86_400_000 / 1000 == days * 86400 && days * 86_400_000 % 1000 == 0;
  }

  /** A second has as many ticks as the clock has hertz, or 90000 if it has none; and `s` seconds `s` times as many. */
  lemma TicksOfSeconds(s: nat, hz: nat)
    requires s * hz < 0x1_0000_0000 && s * 90000 < 0x1_0000_0000
    ensures MsToRtp(s * 1000, hz) == s * (if hz == 0 then 90000 else hz)
  {
    var h := if hz == 0 then 90000 else hz;
    assert s * 1000 * h == s * h * 1000;
  }

  // ---- the clock of a session, played at its natural speed

  datatype Clock = Clock(epoch: nat, locked: bool, ntp: Ntp, playWall: nat, absRtp: bool, paused: bool, pauseWall: nat)

  function Rel(c: Clock, dts: nat): nat {
    if !c.locked || dts < c.epoch then 0 else dts - c.epoch
  }

  function RtpTs(c: Clock, dts: nat, hz: nat): nat {
    MsToRtp(Rel(c, dts), hz)
  }

  /** The NTP time of a sender report for RTP time `ts`. */
  function SrNtp(c: Clock, ts: nat, hz: nat): Ntp {
    var ms := RtpToMs(ts, hz);
    var rel := if c.absRtp && c.locked then (if ms >= c.epoch then ms - c.epoch else 0) else ms;
    WallToNtp((if c.playWall != 0 then c.playWall else NtpToWall(c.ntp)) + rel)
  }

  /** The sender report for a frame gives the wall time at which the frame is due: at most one millisecond
      is lost on the way through RTP time, and one more when the NTP time is read. */
  lemma SrFollowsPlayout(c: Clock, dts: nat, hz: nat)
    requires c.locked && !c.absRtp && c.playWall > 0 && dts < U32
    requires hz >= 1000 && Rel(c, dts) * hz / 1000 < U32
    requires (c.playWall + Rel(c, dts)) / 1000 + NTP_UNIX_OFFSET < U32
    ensures var rel := if dts < c.epoch then 0 else dts - c.epoch; var t := SrNtp(c, RtpTs(c, dts, hz), hz);
            && t == WallToNtp(c.playWall + if rel * hz % 1000 == 0 then rel else rel - 1)
            && c.playWall + rel - 2 <= NtpToWall(t) <= c.playWall + rel
            && (hz == DEFAULT_HZ && (c.playWall + rel) % 125 == 0 ==> NtpToWall(t) == c.playWall + rel)
  {
    hide SrNtp, MsToRtp, WallToNtp, NtpToWall;
    var rel := Rel(c, dts);
    var kept := SrOf(c, rel, hz);
    ReadBack(c.playWall, rel, kept);
  }

  lemma ReadBack(start: nat, rel: nat, kept: nat)
    requires kept <= rel <= kept + 1 && (start + rel) / 1000 + NTP_UNIX_OFFSET < U32
    ensures start + rel - 2 <= NtpToWall(WallToNtp(start + kept)) <= start + rel
    ensures kept == rel && (start + rel) % 125 == 0 ==> NtpToWall(WallToNtp(start + kept)) == start + rel
  {
    hide NtpToWall, WallToNtp;
    WallRoundTripIff(start + kept);
  }

  lemma SrOf(c: Clock, rel: nat, hz: nat) returns (kept: nat)
    requires !c.absRtp && c.playWall > 0 && hz >= 1000 && rel < U32 && rel * hz / 1000 < U32
    ensures kept == (if rel * hz % 1000 == 0 then rel else rel - 1) && (hz == DEFAULT_HZ ==> kept == rel)
    ensures SrNtp(c, MsToRtp(rel, hz), hz) == WallToNtp(c.playWall + kept)
  {
    hide MsToRtp, RtpToMs, WallToNtp;
    MsRoundTripIff(rel, hz);
    kept := RtpToMs(MsToRtp(rel, hz), hz);
    if hz == DEFAULT_HZ { NinetyKiloHertz(rel); }
  }

  /** The same with RTP times that count from zero of the media time instead of the epoch. */
  lemma SrFollowsPlayoutAbs(c: Clock, dts: nat, hz: nat)
    requires c.locked && c.absRtp && c.playWall > 0 && dts < U32
    requires hz >= 1000 && dts * hz / 1000 < U32
    ensures SrNtp(c, MsToRtp(dts, hz), hz)
            == WallToNtp(c.playWall + Rel(c, if dts * hz % 1000 == 0 then dts else dts - 1))
  {
    MsRoundTripIff(dts, hz);
  }

  /** Until play has begun, the report counts from the wall time at which the clock was armed, which is read back from
      its NTP time. */
  lemma SrBeforePlayout(c: Clock, wall: nat, ms: nat, hz: nat)
    requires hz >= 1000 && ms < U32 && ms * hz / 1000 < U32 && wall / 1000 + NTP_UNIX_OFFSET < U32
    ensures SrNtp(Apply(c, Arm(wall)), MsToRtp(ms, hz), hz)
            == WallToNtp((if wall % 125 == 0 then wall else wall - 1) + if ms * hz % 1000 == 0 then ms else ms - 1)
  {
    MsRoundTripIff(ms, hz);
    WallRoundTripIff(wall);
  }

  function Elapsed(c: Clock, now: nat): nat {
    if now >= c.playWall then now - c.playWall else 0
  }

  predicate MediaDue(c: Clock, dts: nat, lead: nat, now: nat) {
    !c.locked || (!c.paused && Rel(c, dts) <= Elapsed(c, now) + lead)
  }

  /** `Arm` forgets the epoch, `Lock` sets it if there is none, `Rebase` sets it anyway, and `Sync` makes the
      frame `dts` due now. */
  datatype Op =
    | Pause(at: nat)
    | Resume(at: nat)
    | Rebase(at: nat, anchor: nat)
    | Arm(at: nat)
    | Lock(at: nat, anchor: nat)
    | Sync(at: nat, dts: nat)

  function Apply(c: Clock, op: Op): Clock {
    match op
    case Pause(at) => if !c.locked || c.paused then c else c.(paused := true, pauseWall := at)
    case Resume(at) =>
      if !c.paused then c
      else
        var shift := if at > c.pauseWall && c.playWall != 0 then at - c.pauseWall else 0;
        c.(playWall := c.playWall + shift, paused := false, pauseWall := 0)
    case Rebase(at, anchor) => c.(epoch := anchor, locked := true, playWall := at)
    case Arm(at) => c.(ntp := WallToNtp(at), locked := false, epoch := 0, playWall := 0)
    case Lock(at, anchor) => if c.locked then c else c.(epoch := anchor, locked := true, playWall := at)
    case Sync(at, dts) => SyncedWall(c, dts, at)
  }

  function SyncedWall(c: Clock, dts: nat, now: nat): Clock {
    if !c.locked then c
    else c.(playWall := if now >= Rel(c, dts) then now - Rel(c, dts) else now)
  }

  function Run(c: Clock, ops: seq<Op>): Clock
    decreases |ops|
  {
    if ops == [] then c else Apply(Run(c, ops[..|ops| - 1]), ops[|ops| - 1])
  }

  /** A stop watch for the playing time since the epoch `anchor`: whether there is one, whether the watch runs,
      since when, and what it had counted before. */
  datatype Watch = Watch(locked: bool, anchor: nat, running: bool, since: nat, before: nat)

  function Anchored(w: Watch, at: nat, anchor: nat): Watch {
    Watch(true, anchor, w.running, at, 0)
  }

  function Press(w: Watch, op: Op): Watch
    requires op.at >= w.since
  {
    match op
    case Pause(at) => if w.locked && w.running then w.(running := false, since := at, before := w.before + (at - w.since)) else w
    case Resume(at) => if w.running then w else w.(running := true, since := at)
    case Rebase(at, anchor) => Anchored(w, at, anchor)
    case Arm(at) => Watch(false, 0, w.running, at, 0)
    case Lock(at, anchor) => if w.locked then w else Anchored(w, at, anchor)
    case Sync(at, dts) =>
      if !w.locked then w else w.(since := at, before := if dts < w.anchor then 0 else dts - w.anchor)
  }

  function Played(w: Watch, now: nat): nat
    requires now >= w.since
  {
    w.before + if w.running then now - w.since else 0
  }

  /** The calls come in the order of their times, from `start` to `now`; the time of the wall clock does not
      fit into 32 bits, media times do. */
  predicate InOrder(ops: seq<Op>, start: nat, now: nat) {
    && U32 <= start <= now && (forall i :: 0 <= i < |ops| ==> start <= ops[i].at <= now)
    && (forall i, j :: 0 <= i < j < |ops| ==> ops[i].at <= ops[j].at)
    && (forall i :: 0 <= i < |ops| && ops[i].Sync? ==> ops[i].dts < U32)
  }

  lemma InOrderPrefix(ops: seq<Op>, start: nat, now: nat)
    requires InOrder(ops, start, now) && ops != []
    ensures var k := |ops| - 1; InOrder(ops[..k], start, ops[k].at) && ops[k].at <= now
  {
  }

  /** The stop watch after the calls. */
  function Stopped(start: nat, ops: seq<Op>, now: nat): (w: Watch)
    requires InOrder(ops, start, now)
    ensures w.since <= now
    decreases |ops|
  {
    if ops == [] then Watch(false, 0, true, start, 0)
    else
      var k := |ops| - 1;
      InOrderPrefix(ops, start, now);
      Press(Stopped(start, ops[..k], ops[k].at), ops[k])
  }

  /** Whether there is an epoch after the calls. */
  function Locked(ops: seq<Op>): bool
    decreases |ops|
  {
    if ops == [] then false
    else
      var last := ops[|ops| - 1];
      if last.Arm? then false else last.Rebase? || last.Lock? || Locked(ops[..|ops| - 1])
  }

  /** When the pause began in which the calls end. */
  function PauseStart(ops: seq<Op>): Option<nat>
    decreases |ops|
  {
    if ops == [] then None
    else
      var k := |ops| - 1;
      var before := PauseStart(ops[..k]);
      match ops[k]
      case Pause(at) => if before.None? && Locked(ops[..k]) then Some(at) else before
      case Resume(_) => None
      case _ => before
  }

  /** Call `i` sets the start of play anew. */
  predicate SetsStart(ops: seq<Op>, i: nat) {
    i < |ops| && (ops[i].Rebase? || (ops[i].Lock? && !Locked(ops[..i])) || (ops[i].Sync? && Locked(ops[..i])))
  }

  /** It is the last that does so, and the clock has not been armed since. */
  predicate LastStart(ops: seq<Op>, i: nat) {
    SetsStart(ops, i) && forall j :: i < j < |ops| ==> !SetsStart(ops, j) && !ops[j].Arm?
  }

  /** The last start was set while playing, or in the millisecond in which the pause began. */
  predicate LastStartOk(ops: seq<Op>) {
    forall i: nat :: i < |ops| && LastStart(ops, i) ==> PauseStart(ops[..i]) in {None, Some(ops[i].at)}
  }

  /** How long the pause had lasted when the last start was set. */
  function Skew(ops: seq<Op>): (s: int)
    decreases |ops|
  {
    if ops == [] then 0
    else
      var k := |ops| - 1;
      if ops[k].Arm? then 0
      else if !SetsStart(ops, k) then Skew(ops[..k])
      else
        var before := PauseStart(ops[..k]);
        if before.Some? then ops[k].at - before.value else 0
  }

  lemma SetsStartBefore(ops: seq<Op>, i: nat)
    requires i + 1 < |ops|
    ensures SetsStart(ops, i) == SetsStart(ops[..|ops| - 1], i)
  {
    assert ops[..|ops| - 1][..i] == ops[..i];
  }

  /** The skew is that of the last start. */
  lemma {:induction false} NoSkewIff(ops: seq<Op>)
    ensures Skew(ops) == 0 <==> LastStartOk(ops)
    decreases |ops|
  {
    if ops != [] {
      var k := |ops| - 1;
      NoSkewIff(ops[..k]);
      if ops[k].Arm? {
        assert forall i: nat :: i < k ==> !LastStart(ops, i);
      } else if SetsStart(ops, k) {
        assert LastStart(ops, k);
        assert forall i: nat :: LastStart(ops, i) ==> i == k;
      } else {
        LastStartBefore(ops);
      }
    }
  }

  /** A call that neither sets the start nor forgets it. */
  lemma LastStartBefore(ops: seq<Op>)
    requires ops != [] && !ops[|ops| - 1].Arm? && !SetsStart(ops, |ops| - 1)
    ensures LastStartOk(ops) <==> LastStartOk(ops[..|ops| - 1])
  {
    var k := |ops| - 1;
    forall i: nat | i < k ensures SetsStart(ops, i) == SetsStart(ops[..k], i) && ops[..k][..i] == ops[..i] {
      SetsStartBefore(ops, i);
    }
    hide SetsStart, PauseStart;
    forall i: nat | i < k ensures LastStart(ops, i) <==> LastStart(ops[..k], i) {
      if LastStart(ops[..k], i) { assert forall j :: i < j < k ==> ops[j] == ops[..k][j]; }
      if LastStart(ops, i) {
        forall j | i < j < k ensures !SetsStart(ops[..k], j) && !ops[..k][j].Arm? { assert !SetsStart(ops, j) && !ops[j].Arm?; }
      }
    }
  }

  /** The clock is the stop watch, late by `skew`. */
  predicate Late(c: Clock, w: Watch, locked: bool, pause: Option<nat>, skew: int) {
    && c.locked == w.locked == locked && c.epoch == w.anchor && c.paused == !w.running == pause.Some? && skew >= 0
    && (pause.Some? ==> c.pauseWall == pause.value <= w.since)
    && (if locked then c.playWall > 0 && c.playWall + w.before == skew + if c.paused then c.pauseWall else w.since
        else c.playWall == 0 && skew == 0)
  }

  lemma OneMoreIsLate(c: Clock, start: nat, ops: seq<Op>, now: nat)
    requires InOrder(ops, start, now) && ops != [] && InOrder(ops[..|ops| - 1], start, ops[|ops| - 1].at)
    requires var some := ops[..|ops| - 1];
             Late(Run(c, some), Stopped(start, some, ops[|ops| - 1].at), Locked(some), PauseStart(some), Skew(some))
    ensures Late(Run(c, ops), Stopped(start, ops, now), Locked(ops), PauseStart(ops), Skew(ops))
  {
  }

  /** Over any run, from a clock without an epoch. */
  lemma {:induction false} RunIsLate(c: Clock, start: nat, ops: seq<Op>, now: nat)
    requires !c.locked && !c.paused && c.epoch == c.playWall == 0 && InOrder(ops, start, now)
    ensures Late(Run(c, ops), Stopped(start, ops, now), Locked(ops), PauseStart(ops), Skew(ops))
    decreases |ops|
  {
    if ops != [] {
      var k := |ops| - 1;
      InOrderPrefix(ops, start, now);
      RunIsLate(c, start, ops[..k], ops[k].at);
      OneMoreIsLate(c, start, ops, now);
    }
  }

  /** Over any run: how a frame is judged as soon as the clock runs again. */
  lemma DueWithSkew(c: Clock, start: nat, ops: seq<Op>, now: nat, dts: nat, lead: nat, later: nat)
    requires !c.locked && !c.paused && c.epoch == c.playWall == 0 && InOrder(ops, start, now) && now <= later
    ensures var d, played := Apply(Run(c, ops), Resume(now)), Played(Press(Stopped(start, ops, now), Resume(now)), later);
            if Locked(ops) then
              && Elapsed(d, later) == (if played >= Skew(ops) then played - Skew(ops) else 0)
              && (MediaDue(d, dts, lead, later) <==> Rel(d, dts) <= Elapsed(d, later) + lead)
            else MediaDue(d, dts, lead, later)
  {
    RunIsLate(c, start, ops, now);
  }

  /** From `now` on: without an epoch every frame is due; with one, those are for which the stop watch runs and
      the time played since the epoch, without the pauses, has come within the lead of the frame. */
  ghost predicate Punctual(d: Clock, w: Watch, now: nat)
    requires w.since <= now
  {
    forall dts: nat, lead: nat, later: nat :: now <= later ==>
      (MediaDue(d, dts, lead, later) <==>
         !w.locked || (w.running && (if dts < w.anchor then 0 else dts - w.anchor) <= Played(w, later) + lead))
  }

  /** Over any run: a running clock is right about all frames if and only if the last start of play was set while
      playing or as the pause began; a clock in a pause is right meanwhile, and it will be right after the pause
      if and only if the same holds. */
  lemma DueIff(c: Clock, start: nat, ops: seq<Op>, now: nat)
    requires !c.locked && !c.paused && c.epoch == c.playWall == 0 && InOrder(ops, start, now)
    ensures Punctual(Apply(Run(c, ops), Resume(now)), Press(Stopped(start, ops, now), Resume(now)), now) <==> LastStartOk(ops)
    ensures Punctual(Run(c, ops), Stopped(start, ops, now), now) <==> Run(c, ops).paused || LastStartOk(ops)
  {
    var d0, w0 := Run(c, ops), Stopped(start, ops, now);
    var d, w := Apply(d0, Resume(now)), Press(w0, Resume(now));
    RunIsLate(c, start, ops, now);
    NoSkewIff(ops);
    hide Run, Stopped, LastStartOk, Skew, Locked, PauseStart, InOrder;
    assert !d0.paused ==> d == d0 && w == w0;
    assert d0.paused ==> Punctual(d0, w0, now);
    forall dts: nat, lead: nat, later: nat | now <= later
      ensures MediaDue(d, dts, lead, later) <==>
              !w.locked || Rel(d, dts) <= (if Played(w, later) >= Skew(ops) then Played(w, later) - Skew(ops) else 0) + lead
    {
      DueWithSkew(c, start, ops, now, dts, lead, later);
    }
    if Skew(ops) > 0 {
      var later := now + Skew(ops);
      var dts := d.epoch + Played(w, later);
      assert Rel(d, dts) == Played(w, later);
      assert !MediaDue(d, dts, 0, later);
    }
  }

  /** The shortest run that goes wrong: an epoch set during a pause, and not in its first millisecond. */
  lemma AnchorInPauseIff(c: Clock, p: nat, t: nat, anchor: nat, u: nat, now: nat)
    requires c.locked && !c.paused && 0 < c.playWall <= p <= t <= u < now
    ensures var d := Run(c, [Pause(p), Rebase(t, anchor), Resume(u)]);
            Elapsed(d, now) == now - u <==> t == p
  {
    var ops := [Pause(p), Rebase(t, anchor), Resume(u)];
    assert ops[..2][..1][..0] == [] && ops[..2][..1] == [Pause(p)] && ops[..2] == [Pause(p), Rebase(t, anchor)];
    var c1 := Apply(c, Pause(p));
    assert Run(c, ops[..2][..1]) == c1;
    var c2 := Apply(c1, Rebase(t, anchor));
    assert Run(c, ops[..2]) == c2;
    assert Run(c, ops) == Apply(c2, Resume(u));
  }

  /** After synchronising to a frame, the frames due at that moment are those up to it. */
  lemma SyncedFrameIsDue(c: Clock, dts: nat, now: nat, other: nat)
    requires c.locked && !c.paused && Rel(c, dts) <= now
    ensures MediaDue(SyncedWall(c, dts, now), other, 0, now) <==> Rel(c, other) <= Rel(c, dts)
  {
  }

  class SessionClock {
    var epoch: nat
    var locked: bool
    var ntp: Ntp
    var playWall: nat
    var absRtp: bool
    var paused: bool
    var pauseWall: nat

    function Value(): Clock
      reads this
    {
      Clock(epoch, locked, ntp, playWall, absRtp, paused, pauseWall)
    }

    constructor ()
      ensures Value() == Clock(0, false, Ntp(0, 0), 0, false, false, 0)
    {
      epoch, locked, ntp, playWall, absRtp, paused, pauseWall := 0, false, Ntp(0, 0), 0, false, false, 0;
    }

    method Arm(now: nat)
      modifies this
      ensures Value() == Apply(old(Value()), Op.Arm(now))
    {
      ntp, locked, epoch, playWall := WallToNtp(now), false, 0, 0;
    }

    method LockEpoch(dts: nat, now: nat) returns (isNew: bool)
      modifies this
      ensures isNew == !old(locked) && Value() == Apply(old(Value()), Lock(now, dts))
    {
      if locked { return false; }
      epoch, locked, playWall := dts, true, now;
      return true;
    }

    method RebaseTo(anchor: nat, now: nat)
      modifies this
      ensures Value() == Apply(old(Value()), Rebase(now, anchor))
    {
      epoch, locked, playWall := anchor, true, now;
    }

    method SyncWall(dts: nat, now: nat)
      modifies this
      ensures Value() == Apply(old(Value()), Sync(now, dts))
    {
      if !locked { return; }
      var rel := Rel(Value(), dts);
      playWall := if now >= rel then now - rel else now;
    }

    method PauseAt(now: nat)
      modifies this
      ensures Value() == Apply(old(Value()), Pause(now))
    {
      if !locked || paused { return; }
      paused, pauseWall := true, now;
    }

    method ResumeAt(now: nat)
      modifies this
      ensures Value() == Apply(old(Value()), Resume(now))
    {
      if !paused { return; }
      if now > pauseWall && playWall != 0 { playWall := playWall + (now - pauseWall); }
      paused, pauseWall := false, 0;
    }

    method IsDue(dts: nat, lead: nat, now: nat) returns (due: bool)
      ensures due == MediaDue(Value(), dts, lead, now)
    {
      if !locked { return true; }
      if paused { return false; }
      var rel := if dts < epoch then 0 else dts - epoch;
      var elapsed := if now >= playWall then now - playWall else 0;
      return rel <= elapsed + lead;
    }
  }
}
