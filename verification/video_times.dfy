// Which frames a picture becomes and with which timestamps, in terms of its time, its duration and
// the encoder's clock.
module VideoTimes {
  import opened Common
  import opened VideoSync

  // ---------- Frames in a row ----------

  // n frames from timestamp `start` on; the first r repeat the frame before, if there is one.
  function Shown(start: int, n: nat, r: int, hasLast: bool): (f: seq<Sent>)
    ensures |f| == n
  {
    seq(n, i requires 0 <= i < n => Sent(start + i, i < r && hasLast))
  }

  // The timestamp lies within the recording time, counted from the first.
  predicate InTime(cfg: Config, stamp: int) {
    cfg.limit.Until? ==> (stamp - cfg.firstPts) as real < cfg.limit.length
  }

  // Neither the frame limit nor the recording time keeps n frames from `start` on from being sent.
  predicate Room(cfg: Config, s: State, start: int, n: nat) {
    s.frameNumber + n <= cfg.maxFrames && (n > 0 ==> InTime(cfg, start + n - 1))
  }

  lemma {:induction false} EmitShows(cfg: Config, s: State, i: nat, nb0: int, nb: int, next: bool)
    requires i <= nb && Emit(cfg, s, i, nb0, nb, next).1
    ensures var r := Emit(cfg, s, i, nb0, nb, next).0;
      && r.syncOpts == s.syncOpts + nb - i && r.sent == s.sent + Shown(s.syncOpts, nb - i, nb0 - i, s.hasLast)
      && r == s.(syncOpts := r.syncOpts, frameNumber := s.frameNumber + nb - i, sent := r.sent)
    decreases nb - i
  {
    if i == nb {
      assert s.sent + [] == s.sent;
    } else {
      var x := Sent(s.syncOpts, i < nb0 && s.hasLast);
      var one := s.(syncOpts := s.syncOpts + 1, frameNumber := s.frameNumber + 1, sent := s.sent + [x]);
      assert Emit(cfg, s, i, nb0, nb, next) == Emit(cfg, one, i + 1, nb0, nb, next);
      EmitShows(cfg, one, i + 1, nb0, nb, next);
      ShownFirst(s.syncOpts, nb - i, nb0 - i, s.hasLast);
      assert s.sent + ([x] + Shown(s.syncOpts + 1, nb - i - 1, nb0 - i - 1, s.hasLast))
        == (s.sent + [x]) + Shown(s.syncOpts + 1, nb - i - 1, nb0 - i - 1, s.hasLast);
    }
  }

  lemma ShownFirst(start: int, n: nat, r: int, hasLast: bool)
    requires n > 0
    ensures Shown(start, n, r, hasLast) == [Sent(start, 0 < r && hasLast)] + Shown(start + 1, n - 1, r - 1, hasLast)
  {
  }

  // What the stream is after n frames were sent: a new picture is the one to repeat from now on, and
  // is held back if it is not among the frames.
  ghost predicate SentOn(s: State, t: State, start: int, n: nat, r: int, next: bool)
    requires |s.lastNb0| == 3
  {
    && t.hasLast == next && (t.lastDropped <==> next && n == r)
    && t.sent == s.sent + Shown(start, n, r, s.hasLast) && t.syncOpts == start + n
    && t.frameNumber == s.frameNumber + n && t.lastNb0 == [r, s.lastNb0[0], s.lastNb0[1]]
  }

  // A plan for which there is room is carried out in full.
  lemma PlanCarried(cfg: Config, s: State, next: bool, ipts: real, duration: real, p: Plan)
    requires Sane(cfg, s) && duration >= 0.0 && p == PlanFor(cfg, s, next, ipts, duration)
    requires p.nb >= 0 && Room(cfg, s, p.syncOpts, p.nb) && !TooMany(cfg, s, p) && (next || s.hasLast || p.nb == 0)
    requires !next ==> p.nb0 == p.nb
    ensures SentOn(s, VideoOut(cfg, s, next, ipts, duration), p.syncOpts, p.nb, p.nb0, next)
  {
    PlanIsSane(cfg, s, next, ipts, duration);
    var c := Counted(s, p, next);
    var extra := Extra(p, c.lastDropped);
    var ready := c.(dup := c.dup + (if extra > 0 then extra else 0), lastDropped := p.nb == p.nb0 && next);
    EmitAllIff(cfg, ready, 0, p.nb0, p.nb, next);
    EmitShows(cfg, ready, 0, p.nb0, p.nb, next);
  }

  // A plan with no frame, or one that is stopped at once, sends nothing.
  lemma NothingCarried(cfg: Config, s: State, next: bool, ipts: real, duration: real, p: Plan)
    requires Sane(cfg, s) && duration >= 0.0 && p == PlanFor(cfg, s, next, ipts, duration)
    requires !TooMany(cfg, s, p) && (p.nb == 0 || (next && !InTime(cfg, p.syncOpts)))
    ensures VideoOut(cfg, s, next, ipts, duration).sent == s.sent
    ensures VideoOut(cfg, s, next, ipts, duration).syncOpts == p.syncOpts
  {
    PlanIsSane(cfg, s, next, ipts, duration);
  }

  // ---------- Variable frame rate ----------

  function Later(a: real, b: real): real {
    if a > b then a else b
  }

  // The time of a picture as a timestamp: the nearest.
  predicate Nearest(t: int, x: real) {
    -0.5 <= t as real - x <= 0.5
  }

  lemma VfrPlan(cfg: Config, s: State, ipts: real, duration: real)
    requires Sane(cfg, s) && duration >= 0.0 && cfg.mode.Vfr?
    ensures var p, ahead := PlanFor(cfg, s, true, ipts, duration), ipts + duration - s.syncOpts as real;
      && p.nb0 == 0 && (p.nb == if ahead > -0.6 && s.frameNumber < cfg.maxFrames then 1 else 0)
      && if ahead > 0.6 then Nearest(p.syncOpts, Later(ipts, s.syncOpts as real)) else p.syncOpts == s.syncOpts
  {
  }

  // A picture is sent once, unless it ends 0.6 or more before the clock, or the frame limit or the
  // recording time is reached. If it ends more than 0.6 after the clock it gets its own time, or that
  // of the clock if that is later; else it gets the next timestamp.
  lemma VfrPicture(cfg: Config, s: State, ipts: real, duration: real) returns (stamp: int)
    requires Sane(cfg, s) && duration >= 0.0 && cfg.mode.Vfr?
    ensures var t, ahead := VideoOut(cfg, s, true, ipts, duration), ipts + duration - s.syncOpts as real;
      && (if ahead > 0.6 then Nearest(stamp, Later(ipts, s.syncOpts as real)) else stamp == s.syncOpts)
      && if ahead > -0.6 && s.frameNumber < cfg.maxFrames && InTime(cfg, stamp)
         then t.sent == s.sent + [Sent(stamp, false)] && t.syncOpts == stamp + 1
         else t.sent == s.sent && t.syncOpts == stamp
  {
    var p := PlanFor(cfg, s, true, ipts, duration);
    VfrPlan(cfg, s, ipts, duration);
    stamp := p.syncOpts;
    if p.nb == 1 && InTime(cfg, stamp) {
      PlanCarried(cfg, s, true, ipts, duration, p);
      assert Shown(stamp, 1, 0, s.hasLast) == [Sent(stamp, false)];
    } else {
      NothingCarried(cfg, s, true, ipts, duration, p);
    }
  }

  // ---------- The two modes without synchronisation ----------

  lemma FreePlan(cfg: Config, s: State, ipts: real, duration: real)
    requires Sane(cfg, s) && duration >= 0.0 && !KeepsTime(cfg.mode)
    ensures var p := PlanFor(cfg, s, true, ipts, duration);
      p.nb0 == 0 && p.nb == (if s.frameNumber < cfg.maxFrames then 1 else 0) && Nearest(p.syncOpts, ipts)
  {
  }

  // Every picture is sent with its own time.
  lemma FreePicture(cfg: Config, s: State, ipts: real, duration: real) returns (stamp: int)
    requires Sane(cfg, s) && duration >= 0.0 && !KeepsTime(cfg.mode)
    ensures var t := VideoOut(cfg, s, true, ipts, duration);
      && Nearest(stamp, ipts)
      && if s.frameNumber < cfg.maxFrames && InTime(cfg, stamp)
         then t.sent == s.sent + [Sent(stamp, false)] && t.syncOpts == stamp + 1
         else t.sent == s.sent && t.syncOpts == stamp
  {
    var p := PlanFor(cfg, s, true, ipts, duration);
    FreePlan(cfg, s, ipts, duration);
    stamp := p.syncOpts;
    if p.nb == 1 && InTime(cfg, stamp) {
      PlanCarried(cfg, s, true, ipts, duration, p);
      assert Shown(stamp, 1, 0, s.hasLast) == [Sent(stamp, false)];
    } else {
      NothingCarried(cfg, s, true, ipts, duration, p);
    }
  }

  // ---------- Constant frame rate ----------

  // The picture ends too long before the clock to be sent.
  predicate TooEarly(cfg: Config, s: State, ahead: real) {
    ahead < -1.1 || (cfg.dropThreshold != 0.0 && ahead < cfg.dropThreshold && s.frameNumber != 0)
  }

  // The first picture of a stream that may start late.
  predicate StartsLate(cfg: Config, s: State, ipts: real) {
    cfg.mode.Vscfr? && s.frameNumber == 0 && ipts - s.syncOpts as real >= 0.5
  }

  // From `start` on n frames bring the clock to where the picture ends, as near as single frames can
  // if more than one is needed; the first r of them fill the time up to the picture.
  predicate Fills(cfg: Config, s: State, ipts: real, duration: real, start: int, n: nat, r: nat) {
    var clock := s.syncOpts as real;
    var end := ipts + duration;
    if StartsLate(cfg, s, ipts) then
      && Nearest(start, ipts) && r == 0 && n >= 1
      && if duration > 1.1 then Nearest(n, duration) else n == 1
    else
      && start == s.syncOpts
      && (n == 0 <==> TooEarly(cfg, s, end - clock))
      && (n > 0 ==> -2.1 <= end - (start + n) as real <= 0.5)
      && (n > 0 && end - clock > 1.1 ==> Nearest(start + n, end))
      && (n > 0 && end - clock <= 1.1 ==> n == 1)
      && (if n > 0 && ipts - clock > 1.1 then ipts - 1.1 <= (start + r) as real <= ipts - 0.1 else r == 0)
      && r <= n
  }

  lemma ConstantPlan(cfg: Config, s: State, ipts: real, duration: real) returns (n: nat, r: nat)
    requires Sane(cfg, s) && duration >= 0.0 && (cfg.mode.Cfr? || cfg.mode.Vscfr?)
    ensures var p := PlanFor(cfg, s, true, ipts, duration);
      && Fills(cfg, s, ipts, duration, p.syncOpts, n, r)
      && p.nb == Min(n, cfg.maxFrames - s.frameNumber) && p.nb0 == Min(r, p.nb)
  {
    var p := Timing(cfg, s, ipts, duration);
    n, r := p.nb, p.nb0;
  }

  // With room for them, exactly these frames are sent.
  lemma ConstantPicture(cfg: Config, s: State, ipts: real, duration: real) returns (start: int, n: nat, r: nat)
    requires Sane(cfg, s) && duration >= 0.0 && (cfg.mode.Cfr? || cfg.mode.Vscfr?)
    ensures Fills(cfg, s, ipts, duration, start, n, r)
    ensures Room(cfg, s, start, n) && n as real <= cfg.tooMany ==>
      SentOn(s, VideoOut(cfg, s, true, ipts, duration), start, n, r, true)
    ensures n >= 3 && s.frameNumber + n <= cfg.maxFrames && n as real > cfg.tooMany ==>
      var t := VideoOut(cfg, s, true, ipts, duration);
      t.sent == s.sent && t.syncOpts == start && t.drop == s.drop + 1 + Flag(r == 0 && s.lastDropped)
  {
    var p := PlanFor(cfg, s, true, ipts, duration);
    n, r := ConstantPlan(cfg, s, ipts, duration);
    start := p.syncOpts;
    if Room(cfg, s, start, n) && n as real <= cfg.tooMany {
      PlanCarried(cfg, s, true, ipts, duration, p);
    }
  }

  // ---------- The flush ----------

  // At least two of three are no greater than m, and two no smaller.
  predicate Median(m: int, a: int, b: int, c: int) {
    && (m == a || m == b || m == c)
    && ((a <= m && b <= m) || (a <= m && c <= m) || (b <= m && c <= m))
    && ((a >= m && b >= m) || (a >= m && c >= m) || (b >= m && c >= m))
  }

  // The last frame is repeated as often as in the middle one of the last three calls.
  lemma FlushRepeats(cfg: Config, s: State) returns (m: int)
    requires Sane(cfg, s) && s.hasLast && forall i :: 0 <= i < 3 ==> s.lastNb0[i] >= 0
    ensures Median(m, s.lastNb0[0], s.lastNb0[1], s.lastNb0[2]) && m >= 0
    ensures Room(cfg, s, s.syncOpts, m) && m as real <= cfg.tooMany ==>
      VideoOut(cfg, s, false, 0.0, 0.0).sent == s.sent + Shown(s.syncOpts, m, m, true)
  {
    m := Mid(s.lastNb0[0], s.lastNb0[1], s.lastNb0[2]);
    var p := PlanFor(cfg, s, false, 0.0, 0.0);
    if Room(cfg, s, s.syncOpts, m) && m as real <= cfg.tooMany {
      PlanCarried(cfg, s, false, 0.0, 0.0, p);
    }
  }

  // ---------- The recording time ----------

  ghost predicate WithinTime(cfg: Config, sent: seq<Sent>) {
    forall k :: 0 <= k < |sent| ==> InTime(cfg, sent[k].pts)
  }

  lemma {:induction false} EmitsWithinTime(cfg: Config, s: State, i: nat, nb0: int, nb: int, next: bool)
    requires i <= nb && WithinTime(cfg, s.sent)
    ensures WithinTime(cfg, Emit(cfg, s, i, nb0, nb, next).0.sent)
    decreases nb - i
  {
    if i < nb && ((i < nb0 && s.hasLast) || next) && !Stops(cfg, s.syncOpts) {
      EmitsWithinTime(cfg, s.(syncOpts := s.syncOpts + 1, frameNumber := s.frameNumber + 1,
                              sent := s.sent + [Sent(s.syncOpts, i < nb0 && s.hasLast)]), i + 1, nb0, nb, next);
    }
  }

  // No run sends a frame at or after the end of the recording time.
  lemma {:induction false} RunStaysWithinTime(cfg: Config, s: State, calls: seq<Call>)
    requires Sane(cfg, s) && WithinTime(cfg, s.sent) && forall i :: 0 <= i < |calls| ==> calls[i].duration >= 0.0
    ensures WithinTime(cfg, Run(cfg, s, calls).sent)
    decreases |calls|
  {
    if calls != [] {
      var c := calls[0];
      var p := PlanFor(cfg, s, c.next, c.ipts, c.duration);
      PlanIsSane(cfg, s, c.next, c.ipts, c.duration);
      var d := Counted(s, p, c.next);
      var extra := Extra(p, d.lastDropped);
      EmitsWithinTime(cfg, d.(dup := d.dup + (if extra > 0 then extra else 0), lastDropped := p.nb == p.nb0 && c.next),
                      0, p.nb0, p.nb, c.next);
      StaysSane(cfg, s, c.next, c.ipts, c.duration);
      RunStaysWithinTime(cfg, VideoOut(cfg, s, c.next, c.ipts, c.duration), calls[1..]);
    }
  }
}
