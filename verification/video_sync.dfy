// do_video_out: the frame-rate logic between the filter graph and the video encoder, which
// duplicates and drops frames and runs the encoder's clock. Times are in units of the
// encoder's time base; doubles are modelled as reals.
module VideoSync {
  import opened Common

  datatype Mode = Passthrough | Cfr | Vfr | Vscfr | DropTimestamps

  // -t: encoding stops once the clock has run for `length`.
  datatype Limit = Unlimited | Until(length: real)

  datatype Config = Config(mode: Mode, maxFrames: nat, tooMany: real, dropThreshold: real, firstPts: int, limit: Limit)

  // One frame handed to the encoder: its timestamp, and whether it is the stored last frame.
  datatype Sent = Sent(pts: int, repeated: bool)

  // The fields of OutputStream the function works on, the two global counters, and two ghosts
  // of the run: the pictures received and the frames sent.
  datatype State = State(syncOpts: int, frameNumber: nat, lastNb0: seq<nat>, lastDropped: bool, hasLast: bool,
                         dup: int, drop: int, received: nat, sent: seq<Sent>)

  // lrint in the default rounding mode: to the nearest integer, ties to even.
  function Lrint(x: real): (r: int)
    ensures -0.5 <= r as real - x <= 0.5
  {
    var f := x.Floor;
    if x - f as real < 0.5 then f
    else if x - f as real > 0.5 then f + 1
    else if f % 2 == 0 then f else f + 1
  }

  // mid_pred: the middle of three.
  function Mid(a: int, b: int, c: int): int {
    if a > b then (if c > b then (if c > a then a else c) else b)
    else if b > c then (if c > a then c else a) else b
  }

  function Flag(b: bool): int {
    if b then 1 else 0
  }

  // How often the last frame is repeated (nb0), how many frames are sent in all (nb), and
  // where the clock stands.
  datatype Plan = Plan(nb0: int, nb: int, syncOpts: int)

  // The plan for a picture at time ipts that lasts `duration`, before the frame limit.
  function Timing(cfg: Config, s: State, ipts: real, duration: real): Plan {
    var delta0 := ipts - s.syncOpts as real;
    var delta := delta0 + duration;
    var clip := delta0 < 0.0 && delta > 0.0 && !cfg.mode.Passthrough? && !cfg.mode.DropTimestamps?;
    var time := if clip then s.syncOpts as real else ipts;
    var drift := if clip then 0.0 else delta0;
    match cfg.mode
    case Vscfr =>
      if s.frameNumber == 0 && drift >= 0.5 then ConstantRate(cfg, s, 0.0, duration, Lrint(time))
      else ConstantRate(cfg, s, drift, delta, s.syncOpts)
    case Cfr => ConstantRate(cfg, s, drift, delta, s.syncOpts)
    case Vfr =>
      if delta <= -0.6 then Plan(0, 0, s.syncOpts)
      else Plan(0, 1, if delta > 0.6 then Lrint(time) else s.syncOpts)
    case _ => Plan(0, 1, Lrint(time))
  }

  function ConstantRate(cfg: Config, s: State, drift: real, delta: real, syncOpts: int): Plan {
    if cfg.dropThreshold != 0.0 && delta < cfg.dropThreshold && s.frameNumber != 0 then Plan(0, 0, syncOpts)
    else if delta < -1.1 then Plan(0, 0, syncOpts)
    else if delta > 1.1 then Plan(if drift > 1.1 then Lrint(drift - 0.6) else 0, Lrint(delta), syncOpts)
    else Plan(0, 1, syncOpts)
  }

  // The plan for a picture, or for the flush call when there is none.
  function PlanFor(cfg: Config, s: State, next: bool, ipts: real, duration: real): Plan
    requires |s.lastNb0| == 3
  {
    var p := if next then Timing(cfg, s, ipts, duration)
             else var m := Mid(s.lastNb0[0], s.lastNb0[1], s.lastNb0[2]); Plan(m, m, s.syncOpts);
    var nb := Min(p.nb, cfg.maxFrames - s.frameNumber);
    Plan(Min(p.nb0, nb), nb, p.syncOpts)
  }

  // check_recording_time.
  predicate Stops(cfg: Config, syncOpts: int) {
    cfg.limit.Until? && (syncOpts - cfg.firstPts) as real >= cfg.limit.length
  }

  // The frames i, i + 1, ..., nb - 1 of a plan; the flag tells whether all of them were sent.
  function Emit(cfg: Config, s: State, i: nat, nb0: int, nb: int, next: bool): (State, bool)
    requires i <= nb
    decreases nb - i, s
  {
    if i == nb then (s, true)
    else if !(i < nb0 && s.hasLast) && !next then (s, false)
    else if Stops(cfg, s.syncOpts) then (s, false)
    else Emit(cfg, s.(syncOpts := s.syncOpts + 1, frameNumber := s.frameNumber + 1,
                      sent := s.sent + [Sent(s.syncOpts, i < nb0 && s.hasLast)]), i + 1, nb0, nb, next)
  }

  // Frames the plan needs beyond the new picture and, if it was held back, the last one.
  function Extra(p: Plan, lastDropped: bool): int {
    p.nb - Flag(p.nb0 != 0 && lastDropped) - Flag(p.nb > p.nb0)
  }

  // The counters and histories after the plan is made and before frames are sent.
  function Counted(s: State, p: Plan, next: bool): State
    requires |s.lastNb0| == 3 && p.nb0 >= 0
  {
    s.(syncOpts := p.syncOpts, lastNb0 := [p.nb0, s.lastNb0[0], s.lastNb0[1]],
       drop := s.drop + Flag(p.nb0 == 0 && s.lastDropped), received := s.received + Flag(next))
  }

  predicate TooMany(cfg: Config, s: State, p: Plan) {
    Extra(p, s.lastDropped) > 0 && p.nb as real > cfg.tooMany
  }

  // What follows once the plan is made.
  function Carried(cfg: Config, c: State, p: Plan, next: bool): State
    requires 0 <= p.nb
  {
    if TooMany(cfg, c, p) then c.(drop := c.drop + 1) else
      var extra := Extra(p, c.lastDropped);
      var ready := c.(dup := c.dup + (if extra > 0 then extra else 0), lastDropped := p.nb == p.nb0 && next);
      var (r, all) := Emit(cfg, ready, 0, p.nb0, p.nb, next);
      if all then r.(hasLast := next) else r
  }

  // One call.
  function VideoOut(cfg: Config, s: State, next: bool, ipts: real, duration: real): State
    requires Sane(cfg, s)
    requires duration >= 0.0
  {
    PlanIsSane(cfg, s, next, ipts, duration);
    var p := PlanFor(cfg, s, next, ipts, duration);
    Carried(cfg, Counted(s, p, next), p, next)
  }

  // What every run keeps about one state: the frame limit, and the clock ahead of the frames
  // sent.
  ghost predicate Sane(cfg: Config, s: State) {
    |s.lastNb0| == 3 && s.frameNumber == |s.sent| <= cfg.maxFrames
  }

  lemma PlanIsSane(cfg: Config, s: State, next: bool, ipts: real, duration: real)
    requires Sane(cfg, s) && duration >= 0.0
    ensures var p := PlanFor(cfg, s, next, ipts, duration); 0 <= p.nb0 <= p.nb <= cfg.maxFrames - s.frameNumber
  {
  }

  // ---------- The emission loop ----------

  // Emitting changes nothing but the clock, the frame count and the frames sent, and these
  // move together, one timestamp per frame.
  ghost predicate Emitted(s: State, r: State) {
    && |s.sent| <= |r.sent| && r.sent[..|s.sent|] == s.sent
    && r.frameNumber - s.frameNumber == r.syncOpts - s.syncOpts == |r.sent| - |s.sent|
    && r == s.(syncOpts := r.syncOpts, frameNumber := r.frameNumber, sent := r.sent)
    && forall k :: |s.sent| <= k < |r.sent| ==> r.sent[k].pts == s.syncOpts + (k - |s.sent|)
  }

  lemma {:induction false} EmitEmits(cfg: Config, s: State, i: nat, nb0: int, nb: int, next: bool)
    requires i <= nb
    ensures var (r, all) := Emit(cfg, s, i, nb0, nb, next);
      Emitted(s, r) && |r.sent| <= |s.sent| + nb - i && (all <==> |r.sent| == |s.sent| + nb - i)
    decreases nb - i
  {
    var (r, all) := Emit(cfg, s, i, nb0, nb, next);
    if i == nb || (!(i < nb0 && s.hasLast) && !next) || Stops(cfg, s.syncOpts) {
      assert r == s && all == (i == nb);
    } else {
      var one := s.(syncOpts := s.syncOpts + 1, frameNumber := s.frameNumber + 1,
                    sent := s.sent + [Sent(s.syncOpts, i < nb0 && s.hasLast)]);
      assert (r, all) == Emit(cfg, one, i + 1, nb0, nb, next);
      EmitEmits(cfg, one, i + 1, nb0, nb, next);
      OneMoreEmitted(s, one, r, Sent(s.syncOpts, i < nb0 && s.hasLast));
    }
  }

  lemma OneMoreEmitted(s: State, one: State, r: State, x: Sent)
    requires x.pts == s.syncOpts && Emitted(one, r)
    requires one == s.(syncOpts := s.syncOpts + 1, frameNumber := s.frameNumber + 1, sent := s.sent + [x])
    ensures Emitted(s, r)
  {
    var n := |s.sent|;
    assert r.sent[..n + 1] == one.sent;
    assert r.sent[..n] == r.sent[..n + 1][..n] == s.sent;
    assert r.sent[n] == r.sent[..n + 1][n] == x;
  }

  // Whether the whole plan can be sent, before anything is sent: the clock stays within the
  // recording time, and a flush finds a stored frame.
  predicate CanSend(cfg: Config, s: State, p: Plan, next: bool) {
    p.nb <= 0 || (!Stops(cfg, p.syncOpts + p.nb - 1) && (next || s.hasLast))
  }

  lemma {:induction false} EmitAllIff(cfg: Config, s: State, i: nat, nb0: int, nb: int, next: bool)
    requires i <= nb && nb0 <= nb && (!next ==> nb0 == nb)
    ensures Emit(cfg, s, i, nb0, nb, next).1 <==>
      i == nb || (!Stops(cfg, s.syncOpts + nb - i - 1) && (next || s.hasLast))
    decreases nb - i
  {
    if i == nb || (!(i < nb0 && s.hasLast) && !next) || Stops(cfg, s.syncOpts) {
    } else {
      EmitAllIff(cfg, s.(syncOpts := s.syncOpts + 1, frameNumber := s.frameNumber + 1,
                         sent := s.sent + [Sent(s.syncOpts, i < nb0 && s.hasLast)]), i + 1, nb0, nb, next);
    }
  }

  // ---------- Frame conservation ----------

  // Every picture received is sent once, except those dropped or held back, plus repeats.
  ghost predicate Balanced(s: State) {
    |s.sent| == s.received - s.drop + s.dup - Flag(s.lastDropped)
  }

  // Before the call: the whole plan can be sent, or an excessive plan is skipped for a new
  // picture while no dropped frame is being written off.
  predicate CanBalance(cfg: Config, s: State, next: bool, ipts: real, duration: real)
    requires |s.lastNb0| == 3
  {
    var p := PlanFor(cfg, s, next, ipts, duration);
    if TooMany(cfg, s, p) then next && !(p.nb0 == 0 && s.lastDropped) else CanSend(cfg, s, p, next)
  }

  // One call keeps the balance exactly then.
  lemma BalancedIff(cfg: Config, s: State, next: bool, ipts: real, duration: real)
    requires Sane(cfg, s) && duration >= 0.0 && Balanced(s)
    ensures Balanced(VideoOut(cfg, s, next, ipts, duration)) <==> CanBalance(cfg, s, next, ipts, duration)
  {
    PlanIsSane(cfg, s, next, ipts, duration);
    var p := PlanFor(cfg, s, next, ipts, duration);
    if !TooMany(cfg, s, p) {
      var c := Counted(s, p, next);
      var extra := Extra(p, s.lastDropped);
      var ready := c.(dup := c.dup + (if extra > 0 then extra else 0), lastDropped := p.nb == p.nb0 && next);
      EmitEmits(cfg, ready, 0, p.nb0, p.nb, next);
      EmitAllIff(cfg, ready, 0, p.nb0, p.nb, next);
    }
  }

  // The frame count never passes -frames, and counts the frames sent.
  lemma StaysSane(cfg: Config, s: State, next: bool, ipts: real, duration: real)
    requires Sane(cfg, s) && duration >= 0.0
    ensures Sane(cfg, VideoOut(cfg, s, next, ipts, duration))
  {
    PlanIsSane(cfg, s, next, ipts, duration);
    var p := PlanFor(cfg, s, next, ipts, duration);
    if !TooMany(cfg, s, p) {
      var c := Counted(s, p, next);
      var extra := Extra(p, s.lastDropped);
      EmitEmits(cfg, c.(dup := c.dup + (if extra > 0 then extra else 0), lastDropped := p.nb == p.nb0 && next),
                0, p.nb0, p.nb, next);
    }
  }

  // ---------- The encoder's clock ----------

  // Timestamps sent so far strictly increase and lie behind the clock.
  ghost predicate Ticking(s: State) {
    && (forall i, k :: 0 <= i < k < |s.sent| ==> s.sent[i].pts < s.sent[k].pts)
    && (forall i :: 0 <= i < |s.sent| ==> s.sent[i].pts < s.syncOpts)
  }

  predicate KeepsTime(mode: Mode) {
    mode.Cfr? || mode.Vfr? || mode.Vscfr?
  }

  // The synchronisation never turns the clock back in the modes that keep time.
  lemma ClockNeverBack(cfg: Config, s: State, next: bool, ipts: real, duration: real)
    requires Sane(cfg, s) && duration >= 0.0 && KeepsTime(cfg.mode)
    ensures PlanFor(cfg, s, next, ipts, duration).syncOpts >= s.syncOpts
  {
  }

  // Frames sent one tick apart from `clock` on, after those of s.
  lemma TicksOn(s: State, r: State, clock: int)
    requires Ticking(s) && |s.sent| <= |r.sent| && r.sent[..|s.sent|] == s.sent
    requires forall k :: |s.sent| <= k < |r.sent| ==> r.sent[k].pts == clock + (k - |s.sent|)
    requires r.syncOpts == clock + |r.sent| - |s.sent|
    ensures Ticking(r) <==> s.sent == [] || clock > s.sent[|s.sent| - 1].pts
  {
    var n := |s.sent|;
    assert forall k :: 0 <= k < n ==> r.sent[k] == r.sent[..n][k];
    if n > 0 && clock <= s.sent[n - 1].pts {
      assert r.sent[n - 1].pts >= clock;
      assert |r.sent| > n ==> r.sent[n].pts == clock;
    }
  }

  // One call keeps the clock ticking exactly when the plan does not set it back behind a
  // frame already sent.
  lemma TickingIff(cfg: Config, s: State, next: bool, ipts: real, duration: real)
    requires Sane(cfg, s) && duration >= 0.0 && Ticking(s)
    ensures Ticking(VideoOut(cfg, s, next, ipts, duration)) <==>
      s.sent == [] || PlanFor(cfg, s, next, ipts, duration).syncOpts > s.sent[|s.sent| - 1].pts
  {
    PlanIsSane(cfg, s, next, ipts, duration);
    var p := PlanFor(cfg, s, next, ipts, duration);
    if !TooMany(cfg, s, p) {
      var c := Counted(s, p, next);
      var extra := Extra(p, s.lastDropped);
      EmitEmits(cfg, c.(dup := c.dup + (if extra > 0 then extra else 0), lastDropped := p.nb == p.nb0 && next),
                0, p.nb0, p.nb, next);
    }
    TicksOn(s, VideoOut(cfg, s, next, ipts, duration), p.syncOpts);
  }

  // ---------- Whole runs ----------

  datatype Call = Call(next: bool, ipts: real, duration: real)

  ghost function Run(cfg: Config, s: State, calls: seq<Call>): State
    requires Sane(cfg, s) && forall i :: 0 <= i < |calls| ==> calls[i].duration >= 0.0
    decreases |calls|, s
  {
    if calls == [] then s else
      StaysSane(cfg, s, calls[0].next, calls[0].ipts, calls[0].duration);
      Run(cfg, VideoOut(cfg, s, calls[0].next, calls[0].ipts, calls[0].duration), calls[1..])
  }

  // The condition for every call of a run.
  ghost predicate AllBalance(cfg: Config, s: State, calls: seq<Call>)
    requires Sane(cfg, s) && forall i :: 0 <= i < |calls| ==> calls[i].duration >= 0.0
    decreases |calls|
  {
    calls == [] ||
    var c := calls[0];
    StaysSane(cfg, s, c.next, c.ipts, c.duration);
    CanBalance(cfg, s, c.next, c.ipts, c.duration)
    && AllBalance(cfg, VideoOut(cfg, s, c.next, c.ipts, c.duration), calls[1..])
  }

  // The balance holds before and after every call.
  ghost predicate AlwaysBalanced(cfg: Config, s: State, calls: seq<Call>)
    requires Sane(cfg, s) && forall i :: 0 <= i < |calls| ==> calls[i].duration >= 0.0
    decreases |calls|
  {
    && Balanced(s)
    && (calls == [] ||
        var c := calls[0];
        StaysSane(cfg, s, c.next, c.ipts, c.duration);
        AlwaysBalanced(cfg, VideoOut(cfg, s, c.next, c.ipts, c.duration), calls[1..]))
  }

  ghost function Start(syncOpts: int): State {
    State(syncOpts, 0, [0, 0, 0], false, false, 0, 0, 0, [])
  }

  // Frame conservation throughout a run, if and only if every call meets the condition.
  lemma {:induction false} AlwaysBalancedIff(cfg: Config, s: State, calls: seq<Call>)
    requires Sane(cfg, s) && Balanced(s) && forall i :: 0 <= i < |calls| ==> calls[i].duration >= 0.0
    ensures AlwaysBalanced(cfg, s, calls) <==> AllBalance(cfg, s, calls)
    decreases |calls|
  {
    if calls != [] {
      var c := calls[0];
      StaysSane(cfg, s, c.next, c.ipts, c.duration);
      BalancedIff(cfg, s, c.next, c.ipts, c.duration);
      var t := VideoOut(cfg, s, c.next, c.ipts, c.duration);
      if Balanced(t) { AlwaysBalancedIff(cfg, t, calls[1..]); }
    }
  }

  // At the end of such a run the last report adds a frame still held back to the drops, and then
  // nothing is missing.
  lemma {:induction false} RunBalanced(cfg: Config, s: State, calls: seq<Call>)
    requires Sane(cfg, s) && Balanced(s) && forall i :: 0 <= i < |calls| ==> calls[i].duration >= 0.0
    requires AllBalance(cfg, s, calls)
    ensures var r := Run(cfg, s, calls);
      var reportedDrops := r.drop + Flag(r.lastDropped);
      Sane(cfg, r) && Balanced(r) && |r.sent| == r.received - reportedDrops + r.dup
    decreases |calls|
  {
    if calls != [] {
      var c := calls[0];
      StaysSane(cfg, s, c.next, c.ipts, c.duration);
      BalancedIff(cfg, s, c.next, c.ipts, c.duration);
      RunBalanced(cfg, VideoOut(cfg, s, c.next, c.ipts, c.duration), calls[1..]);
    }
  }

  // Constant rate, plans of more than 300 frames skipped.
  ghost predicate SkipsLongPlans(cfg: Config) {
    cfg.mode.Cfr? && cfg.tooMany == 300.0 && cfg.dropThreshold == 0.0 && cfg.maxFrames >= 1001
  }

  lemma SkippedPicture(cfg: Config, s: State)
    requires SkipsLongPlans(cfg) && Sane(cfg, s) && s.syncOpts == 0 && s.sent == [] && !s.lastDropped
    ensures VideoOut(cfg, s, true, 1000.0, 1.0)
      == s.(lastNb0 := [999, s.lastNb0[0], s.lastNb0[1]], drop := s.drop + 1, received := s.received + 1)
  {
    assert Lrint(1001.0) == 1001 && Lrint(999.4) == 999;
    assert Timing(cfg, s, 1000.0, 1.0) == Plan(999, 1001, 0);
  }

  lemma SkippedFlush(cfg: Config, s: State)
    requires SkipsLongPlans(cfg) && Sane(cfg, s) && s.sent == [] && !s.lastDropped
    requires s.lastNb0[0] == s.lastNb0[1] == 999
    ensures VideoOut(cfg, s, false, 0.0, 0.0).drop == s.drop + 1
      && VideoOut(cfg, s, false, 0.0, 0.0).received == s.received
    ensures VideoOut(cfg, s, false, 0.0, 0.0).dup == s.dup
    ensures VideoOut(cfg, s, false, 0.0, 0.0).sent == [] && !VideoOut(cfg, s, false, 0.0, 0.0).lastDropped
  {
    assert PlanFor(cfg, s, false, 0.0, 0.0) == Plan(999, 999, s.syncOpts);
  }

  // One call after the other.
  ghost predicate Leads(cfg: Config, s: State, c: Call, t: State) {
    Sane(cfg, s) && c.duration >= 0.0 && VideoOut(cfg, s, c.next, c.ipts, c.duration) == t
  }

  lemma RunOf(cfg: Config, s: State, calls: seq<Call>, t: State)
    requires calls != [] && Leads(cfg, s, calls[0], t) && forall i :: 0 <= i < |calls| ==> calls[i].duration >= 0.0
    ensures Sane(cfg, t) && Run(cfg, s, calls) == Run(cfg, t, calls[1..])
  {
    StaysSane(cfg, s, calls[0].next, calls[0].ipts, calls[0].duration);
  }

  lemma RunOfThree(cfg: Config, s: State, calls: seq<Call>, t: State, u: State, v: State)
    requires |calls| == 3 && Leads(cfg, s, calls[0], t) && Leads(cfg, t, calls[1], u) && Leads(cfg, u, calls[2], v)
    requires OneShort(v)
    ensures forall i :: 0 <= i < |calls| ==> calls[i].duration >= 0.0
    ensures !Balanced(Run(cfg, s, calls))
  {
    RunOf(cfg, s, calls, t);
    RunOf(cfg, t, calls[1..], u);
    RunOf(cfg, u, calls[1..][1..], v);
  }

  // Three drops for two pictures.
  ghost predicate OneShort(s: State) {
    s.drop == 3 && s.received == 2 && s.dup == 0 && s.sent == [] && !s.lastDropped
  }

  // Two pictures far ahead of the clock and the flush: all three plans are skipped, and the drop
  // counted for the flush belongs to no picture.
  lemma SkippedFlushIsUnbalanced(cfg: Config, s: State, calls: seq<Call>)
    requires SkipsLongPlans(cfg) && s == Start(0) && |calls| == 3
    requires forall i :: 0 <= i < |calls| ==> calls[i].duration >= 0.0
    requires calls[0] == calls[1] == Call(true, 1000.0, 1.0) && calls[2] == Call(false, 0.0, 0.0)
    ensures Sane(cfg, s) && Balanced(s) && !Balanced(Run(cfg, s, calls))
  {
    var t, u, v := ThreeSkipped(cfg, s, calls[0], calls[2]);
    RunOfThree(cfg, s, calls, t, u, v);
  }

  lemma ThreeSkipped(cfg: Config, s: State, far: Call, flush: Call) returns (t: State, u: State, v: State)
    requires SkipsLongPlans(cfg) && s == Start(0) && far == Call(true, 1000.0, 1.0) && flush == Call(false, 0.0, 0.0)
    ensures Leads(cfg, s, far, t) && Leads(cfg, t, far, u) && Leads(cfg, u, flush, v) && OneShort(v)
  {
    t, u := TwoSkipped(cfg, s, far);
    v := ThenFlushed(cfg, s, u, flush);
  }

  lemma ThenFlushed(cfg: Config, s: State, u: State, flush: Call) returns (v: State)
    requires SkipsLongPlans(cfg) && s == Start(0) && flush == Call(false, 0.0, 0.0)
    requires Sane(cfg, u) && u == s.(lastNb0 := [999, 999, 0], drop := 2, received := 2)
    ensures Leads(cfg, u, flush, v) && OneShort(v)
  {
    SkippedFlush(cfg, u);
    v := VideoOut(cfg, u, false, 0.0, 0.0);
  }

  lemma TwoSkipped(cfg: Config, s: State, far: Call) returns (t: State, u: State)
    requires SkipsLongPlans(cfg) && s == Start(0) && far == Call(true, 1000.0, 1.0)
    ensures Leads(cfg, s, far, t) && Leads(cfg, t, far, u) && Sane(cfg, u)
    ensures u == s.(lastNb0 := [999, 999, 0], drop := 2, received := 2)
  {
    SkippedPicture(cfg, s);
    t := s.(lastNb0 := [999, 0, 0], drop := 1, received := 1);
    SkippedPicture(cfg, t);
    u := s.(lastNb0 := [999, 999, 0], drop := 2, received := 2);
  }

  // Over every run, whatever it skips or stops, the encoder's timestamps strictly increase and
  // the frame limit holds.
  lemma {:induction false} RunTicks(cfg: Config, s: State, calls: seq<Call>)
    requires Sane(cfg, s) && Ticking(s) && forall i :: 0 <= i < |calls| ==> calls[i].duration >= 0.0
    requires KeepsTime(cfg.mode)
    ensures Ticking(Run(cfg, s, calls)) && Sane(cfg, Run(cfg, s, calls))
    decreases |calls|
  {
    if calls != [] {
      var c := calls[0];
      StaysSane(cfg, s, c.next, c.ipts, c.duration);
      ClockNeverBack(cfg, s, c.next, c.ipts, c.duration);
      TickingIff(cfg, s, c.next, c.ipts, c.duration);
      RunTicks(cfg, VideoOut(cfg, s, c.next, c.ipts, c.duration), calls[1..]);
    }
  }

  // In the other two modes the clock follows the pictures, even backwards: a picture keeps it
  // ticking exactly when its rounded time lies behind the last frame sent.
  lemma OtherModesFollowPictures(cfg: Config, s: State, ipts: real, duration: real)
    requires Sane(cfg, s) && duration >= 0.0 && Ticking(s) && !KeepsTime(cfg.mode) && s.sent != []
    ensures Ticking(VideoOut(cfg, s, true, ipts, duration)) <==> Lrint(ipts) > s.sent[|s.sent| - 1].pts
  {
    TickingIff(cfg, s, true, ipts, duration);
  }

  // A picture at 5 and then one at 3.
  lemma PassthroughCanGoBack(cfg: Config, s: State, calls: seq<Call>)
    requires cfg.mode.Passthrough? && cfg.maxFrames >= 2 && cfg.limit.Unlimited? && cfg.tooMany >= 1.0
    requires s == Start(0) && |calls| == 2 && forall i :: 0 <= i < |calls| ==> calls[i].duration >= 0.0
    requires calls[0] == Call(true, 5.0, 1.0) && calls[1] == Call(true, 3.0, 1.0)
    ensures Sane(cfg, s) && Ticking(s) && !Ticking(Run(cfg, s, calls))
  {
    var t := FirstPassed(cfg, s, calls[0]);
    RunOf(cfg, s, calls, t);
    EarlierPassed(cfg, t, calls[1..]);
  }

  lemma FirstPassed(cfg: Config, s: State, c: Call) returns (t: State)
    requires cfg.mode.Passthrough? && cfg.maxFrames >= 2 && cfg.limit.Unlimited? && cfg.tooMany >= 1.0
    requires s == Start(0) && c == Call(true, 5.0, 1.0)
    ensures Leads(cfg, s, c, t) && Sane(cfg, t) && Ticking(t) && t.sent == [Sent(5, false)]
  {
    assert Lrint(5.0) == 5;
    t := VideoOut(cfg, s, true, 5.0, 1.0);
  }

  lemma EarlierPassed(cfg: Config, s: State, calls: seq<Call>)
    requires !KeepsTime(cfg.mode) && Sane(cfg, s) && Ticking(s) && s.sent == [Sent(5, false)]
    requires |calls| == 1 && calls[0] == Call(true, 3.0, 1.0)
    ensures !Ticking(Run(cfg, s, calls))
  {
    assert Lrint(3.0) == 3;
    OtherModesFollowPictures(cfg, s, 3.0, 1.0);
    RunOf(cfg, s, calls, VideoOut(cfg, s, true, 3.0, 1.0));
    assert calls[1..] == [];
  }

  // ---------- The function itself ----------

  class OutputStream {
    const cfg: Config
    var syncOpts: int
    var frameNumber: nat
    var lastNb0: array<nat>
    var lastDropped: bool
    var hasLast: bool
    var dup: int
    var drop: int
    ghost var received: nat
    var sent: seq<Sent>

    constructor (cfg: Config, syncOpts: int)
      ensures Now() == Start(syncOpts) && this.cfg == cfg && fresh(lastNb0)
    {
      this.cfg, this.syncOpts := cfg, syncOpts;
      lastNb0 := new nat[3](i => 0);
      frameNumber, lastDropped, hasLast, dup, drop, received, sent := 0, false, false, 0, 0, 0, [];
    }

    ghost function Now(): State
      reads this, lastNb0
    {
      State(syncOpts, frameNumber, lastNb0[..], lastDropped, hasLast, dup, drop, received, sent)
    }

    // The sync decision for a picture, in the order of the source.
    method Synchronise(ipts: real, duration: real) returns (nb0: int, nb: int)
      modifies `syncOpts
      ensures Plan(nb0, nb, syncOpts) == Timing(cfg, old(Now()), ipts, duration)
    {
      var delta0 := ipts - syncOpts as real;
      var delta, time := delta0 + duration, ipts;
      nb0, nb := 0, 1;
      if delta0 < 0.0 && delta > 0.0 && !cfg.mode.Passthrough? && !cfg.mode.DropTimestamps? {
        time := syncOpts as real;
        delta0 := 0.0;
      }
      if cfg.mode.Vscfr? && frameNumber == 0 && delta0 >= 0.5 {
        delta := duration;
        delta0 := 0.0;
        syncOpts := Lrint(time);
      }
      match cfg.mode {
        case Vscfr | Cfr =>
          if cfg.dropThreshold != 0.0 && delta < cfg.dropThreshold && frameNumber != 0 {
            nb := 0;
          } else if delta < -1.1 {
            nb := 0;
          } else if delta > 1.1 {
            nb := Lrint(delta);
            if delta0 > 1.1 {
              nb0 := Lrint(delta0 - 0.6);
            }
          }
        case Vfr =>
          if delta <= -0.6 {
            nb := 0;
          } else if delta > 0.6 {
            syncOpts := Lrint(time);
          }
        case Passthrough | DropTimestamps =>
          syncOpts := Lrint(time);
      }
    }

    // How many frames to send; the plan enters the history of the last three.
    method MakePlan(next: bool, ipts: real, duration: real) returns (nb0: nat, nb: nat)
      requires Sane(cfg, Now()) && duration >= 0.0
      modifies `syncOpts, `drop, `received, lastNb0
      ensures var p := PlanFor(cfg, old(Now()), next, ipts, duration);
        Plan(nb0, nb, syncOpts) == p && Now() == Counted(old(Now()), p, next)
    {
      PlanIsSane(cfg, Now(), next, ipts, duration);
      var times: (int, int);
      if !next {
        var m := Mid(lastNb0[0], lastNb0[1], lastNb0[2]);
        times := (m, m);
      } else {
        var n0, n := Synchronise(ipts, duration);
        times := (n0, n);
      }
      nb := Min(times.1, cfg.maxFrames - frameNumber);
      nb0 := Min(times.0, nb);
      lastNb0[2] := lastNb0[1];
      lastNb0[1] := lastNb0[0];
      lastNb0[0] := nb0;
      received := received + if next then 1 else 0;
      if nb0 == 0 && lastDropped {
        drop := drop + 1;
      }
    }

    // The loop over the frames of a plan.
    method SendFrames(nb0: nat, nb: nat, next: bool) returns (all: bool)
      modifies `syncOpts, `frameNumber, `sent
      ensures (Now(), all) == Emit(cfg, old(Now()), 0, nb0, nb, next)
    {
      ghost var ready := Now();
      for i := 0 to nb
        invariant Emit(cfg, Now(), i, nb0, nb, next) == Emit(cfg, ready, 0, nb0, nb, next)
      {
        var repeated := i < nb0 && hasLast;
        if !repeated && !next {
          return false;
        }
        if Stops(cfg, syncOpts) {
          return false;
        }
        sent := sent + [Sent(syncOpts, repeated)];
        syncOpts := syncOpts + 1;
        frameNumber := frameNumber + 1;
      }
      all := true;
    }

    // What follows in do_video_out once the plan is made.
    method CarryOut(nb0: nat, nb: nat, next: bool)
      modifies `dup, `drop, `lastDropped, `hasLast, `syncOpts, `frameNumber, `sent
      ensures Now() == Carried(cfg, old(Now()), Plan(nb0, nb, old(syncOpts)), next)
    {
      var extra := nb - Flag(nb0 != 0 && lastDropped) - Flag(nb > nb0);
      if extra > 0 {
        if nb as real > cfg.tooMany {
          drop := drop + 1;
          return;
        }
        dup := dup + extra;
      }
      lastDropped := nb == nb0 && next;
      var all := SendFrames(nb0, nb, next);
      if all {
        hasLast := next;
      }
    }

    // do_video_out.
    method DoVideoOut(next: bool, ipts: real, duration: real)
      requires Sane(cfg, Now()) && duration >= 0.0
      modifies this, lastNb0
      ensures lastNb0 == old(lastNb0)
      ensures Now() == VideoOut(cfg, old(Now()), next, ipts, duration)
    {
      var nb0, nb := MakePlan(next, ipts, duration);
      CarryOut(nb0, nb, next);
    }
  }
}
