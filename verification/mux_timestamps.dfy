// write_packet and the header step of check_init_output_file for one output stream: packets
// wait in a queue until the header is written, and their timestamps are repaired on the way
// to the muxer.
module MuxTimestamps {
  import opened Common

  datatype Packet = Packet(pts: int, dts: int, payload: nat)

  datatype Kind = Audio | Video | Subtitle | Data

  // What is fixed for a stream. `encodedVideo`: a video stream that is encoded here, whose
  // frames were counted before encoding. `rescale` converts to the muxer's time base.
  datatype Config = Config(kind: Kind, encodedVideo: bool, maxFrames: nat, clearTimestamps: bool, noTimestamps: bool,
                           nonStrict: bool, vp9Copy: bool, exitOnError: bool, maxQueue: nat, rescale: int -> int)

  datatype State = State(frameNumber: nat, header: bool, queue: seq<Packet>, capacity: nat, lastDts: int,
                         out: seq<Packet>, exited: bool)

  ghost predicate KeepsSet(cfg: Config) {
    forall t: int :: t > NOPTS ==> cfg.rescale(t) > NOPTS
  }

  function Rescaled(cfg: Config, t: int): int {
    if t == NOPTS then NOPTS else cfg.rescale(t)
  }

  // The replacement for contradictory timestamps: the sum of three less the least and the
  // greatest.
  function Guess(pts: int, dts: int, next: int): int {
    pts + dts + next - Min(Min(pts, dts), next) - Max(Max(pts, dts), next)
  }

  // The guess is the median: one of the three, with another on either side.
  lemma GuessIsMedian(a: int, b: int, c: int)
    ensures var g := Guess(a, b, c);
      || (g == a && (b <= a <= c || c <= a <= b))
      || (g == b && (a <= b <= c || c <= b <= a))
      || (g == c && (a <= c <= b || b <= c <= a))
  {
  }

  predicate Guarded(cfg: Config) {
    !cfg.kind.Data? && !cfg.vp9Copy
  }

  // The timestamps of one packet, repaired against the last DTS handed on; the flag tells
  // whether -xerror ends the program.
  function Repaired(cfg: Config, lastDts: int, p: Packet): (Packet, bool) {
    var c := if cfg.clearTimestamps then p.(pts := NOPTS, dts := NOPTS) else p;
    var r := c.(pts := Rescaled(cfg, c.pts), dts := Rescaled(cfg, c.dts));
    if cfg.noTimestamps then (r, false) else
      var g := if r.dts != NOPTS && r.pts != NOPTS && r.dts > r.pts
        then var m := Guess(r.pts, r.dts, lastDts + 1); r.(pts := m, dts := m) else r;
      var least := lastDts + if cfg.nonStrict then 0 else 1;
      if Guarded(cfg) && g.dts != NOPTS && lastDts != NOPTS && g.dts < least then
        (g.(pts := if g.pts >= g.dts then Max(g.pts, least) else g.pts, dts := least), cfg.exitOnError)
      else (g, false)
  }

  // A packet that reaches the muxer.
  function Muxed(cfg: Config, s: State, p: Packet): State {
    var (q, fatal) := Repaired(cfg, s.lastDts, p);
    if fatal then s.(exited := true) else s.(lastDts := q.dts, out := s.out + [q])
  }

  // A packet parked before the header, in a queue that doubles up to its limit.
  function Parked(cfg: Config, s: State, p: Packet): State {
    if |s.queue| < s.capacity then s.(queue := s.queue + [p])
    else if Min(2 * s.capacity, cfg.maxQueue) <= s.capacity then s.(exited := true)
    else s.(capacity := Min(2 * s.capacity, cfg.maxQueue), queue := s.queue + [p])
  }

  predicate Counts(cfg: Config, unqueue: bool) {
    !cfg.encodedVideo && !unqueue
  }

  // write_packet.
  function Written(cfg: Config, s: State, p: Packet, unqueue: bool): State {
    if s.exited || (Counts(cfg, unqueue) && s.frameNumber >= cfg.maxFrames) then s else
      var c := if Counts(cfg, unqueue) then s.(frameNumber := s.frameNumber + 1) else s;
      if c.header then Muxed(cfg, c, p) else Parked(cfg, c, p)
  }

  // The parked packets, first in first out.
  function Flushed(cfg: Config, s: State): State
    decreases |s.queue|
  {
    if s.exited || s.queue == [] then s
    else Flushed(cfg, Muxed(cfg, s.(queue := s.queue[1..]), s.queue[0]))
  }

  datatype Event = Submit(p: Packet) | Header

  function Step(cfg: Config, s: State, e: Event): State {
    match e
    case Submit(p) => Written(cfg, s, p, false)
    case Header => if s.exited || s.header then s else Flushed(cfg, s.(header := true))
  }

  function Run(cfg: Config, s: State, events: seq<Event>): State {
    if events == [] then s else Step(cfg, Run(cfg, s, events[..|events| - 1]), events[|events| - 1])
  }

  function Start(capacity: nat): State {
    State(0, false, [], capacity, NOPTS, [], false)
  }

  // ---------- The order of timestamps ----------

  // DTS strictly increases, or never decreases for a muxer that allows that, and no packet is
  // presented before it is decoded.
  ghost predicate InOrder(cfg: Config, out: seq<Packet>) {
    && (forall i, k :: 0 <= i < k < |out|
         ==> if cfg.nonStrict then out[i].dts <= out[k].dts else out[i].dts < out[k].dts)
    && (forall i :: 0 <= i < |out| ==> out[i].dts > NOPTS && (out[i].pts != NOPTS ==> out[i].pts >= out[i].dts))
  }

  ghost predicate Timed(p: Packet) {
    p.dts > NOPTS && p.pts >= NOPTS
  }

  // A stream with timestamps whose DTS order write_packet guards.
  ghost predicate Timestamped(cfg: Config) {
    Guarded(cfg) && !cfg.clearTimestamps && !cfg.noTimestamps && KeepsSet(cfg)
  }

  ghost predicate Good(cfg: Config, s: State) {
    && InOrder(cfg, s.out)
    && s.lastDts == (if s.out == [] then NOPTS else s.out[|s.out| - 1].dts)
    && (forall i :: 0 <= i < |s.queue| ==> Timed(s.queue[i]))
  }

  lemma RepairedInOrder(cfg: Config, lastDts: int, p: Packet)
    requires Timestamped(cfg) && Timed(p) && lastDts >= NOPTS
    ensures var q := Repaired(cfg, lastDts, p).0;
      && q.dts > NOPTS && (q.pts != NOPTS ==> q.pts >= q.dts) && q.payload == p.payload
      && (lastDts != NOPTS ==> if cfg.nonStrict then q.dts >= lastDts else q.dts > lastDts)
  {
    if p.pts > NOPTS { assert cfg.rescale(p.pts) > NOPTS; }
    assert cfg.rescale(p.dts) > NOPTS;
  }

  lemma MuxedGood(cfg: Config, s: State, p: Packet)
    requires Timestamped(cfg) && Timed(p) && Good(cfg, s)
    ensures Good(cfg, Muxed(cfg, s, p))
  {
    var (q, fatal) := Repaired(cfg, s.lastDts, p);
    RepairedInOrder(cfg, s.lastDts, p);
    if !fatal { AppendedInOrder(cfg, s.out, q); }
  }

  lemma AppendedInOrder(cfg: Config, out: seq<Packet>, q: Packet)
    requires InOrder(cfg, out) && q.dts > NOPTS && (q.pts != NOPTS ==> q.pts >= q.dts)
    requires out != [] ==>
      if cfg.nonStrict then q.dts >= out[|out| - 1].dts else q.dts > out[|out| - 1].dts
    ensures InOrder(cfg, out + [q])
  {
  }

  lemma {:induction false} FlushedGood(cfg: Config, s: State)
    requires Timestamped(cfg) && Good(cfg, s)
    ensures Good(cfg, Flushed(cfg, s))
    decreases |s.queue|
  {
    if !s.exited && s.queue != [] {
      MuxedGood(cfg, s.(queue := s.queue[1..]), s.queue[0]);
      FlushedGood(cfg, Muxed(cfg, s.(queue := s.queue[1..]), s.queue[0]));
    }
  }

  lemma StepGood(cfg: Config, s: State, e: Event)
    requires Timestamped(cfg) && Good(cfg, s) && (e.Submit? ==> Timed(e.p))
    ensures Good(cfg, Step(cfg, s, e))
  {
    match e
    case Submit(p) =>
      if !(s.exited || (Counts(cfg, false) && s.frameNumber >= cfg.maxFrames)) {
        var c := WrittenAs(cfg, s, p);
        if c.header { MuxedGood(cfg, c, p); }
      }
    case Header =>
      FlushedGood(cfg, s.(header := true));
  }

  // Over a whole run, with packets parked before the header or not, the muxer sees timestamps
  // in order.
  lemma {:induction false} RunInOrder(cfg: Config, capacity: nat, events: seq<Event>)
    requires Timestamped(cfg) && forall e :: e in events && e.Submit? ==> Timed(e.p)
    ensures Good(cfg, Run(cfg, Start(capacity), events))
  {
    if events != [] {
      var n := |events| - 1;
      RunInOrder(cfg, capacity, events[..n]);
      StepGood(cfg, Run(cfg, Start(capacity), events[..n]), events[n]);
    }
  }

  lemma RunAppend(cfg: Config, s: State, events: seq<Event>, e: Event)
    ensures Run(cfg, s, events + [e]) == Step(cfg, Run(cfg, s, events), e)
  {
    assert (events + [e])[..|events|] == events;
  }

  // A packet without DTS makes write_packet forget the last one, and the next DTS may go back.
  lemma MissingDtsBreaksOrder(cfg: Config)
    requires Timestamped(cfg) && !cfg.encodedVideo && cfg.maxFrames >= 3 && (forall t: int :: cfg.rescale(t) == t)
    ensures var a, b, c := Packet(10, 10, 0), Packet(NOPTS, NOPTS, 1), Packet(5, 5, 2);
      Run(cfg, Start(8), [Header, Submit(a), Submit(b), Submit(c)]).out == [a, b, c]
  {
    var a, b, c := Packet(10, 10, 0), Packet(NOPTS, NOPTS, 1), Packet(5, 5, 2);
    RunAppend(cfg, Start(8), [], Header);
    RunAppend(cfg, Start(8), [Header], Submit(a));
    RunAppend(cfg, Start(8), [Header, Submit(a)], Submit(b));
    RunAppend(cfg, Start(8), [Header, Submit(a), Submit(b)], Submit(c));
    assert [] + [Header] == [Header];
    assert [Header] + [Submit(a)] == [Header, Submit(a)];
    assert [Header, Submit(a)] + [Submit(b)] == [Header, Submit(a), Submit(b)];
    assert [Header, Submit(a), Submit(b)] + [Submit(c)] == [Header, Submit(a), Submit(b), Submit(c)];
  }

  // ---------- Streams in which some packets have no DTS ----------

  // The DTS that are set are in order; nothing is presented before it is decoded.
  ghost predicate SetInOrder(cfg: Config, out: seq<Packet>) {
    && (forall i, k :: 0 <= i < k < |out| && out[i].dts != NOPTS && out[k].dts != NOPTS ==>
         if cfg.nonStrict then out[i].dts <= out[k].dts else out[i].dts < out[k].dts)
    && (forall i :: 0 <= i < |out| && out[i].dts != NOPTS && out[i].pts != NOPTS ==> out[i].pts >= out[i].dts)
  }

  // The last DTS that was set, of all packets handed on.
  function Newest(out: seq<Packet>): (dts: int)
    ensures dts != NOPTS ==> exists i :: 0 <= i < |out| && out[i].dts == dts
    ensures dts == NOPTS ==> forall i :: 0 <= i < |out| ==> out[i].dts == NOPTS
  {
    if out == [] then NOPTS
    else if out[|out| - 1].dts != NOPTS then out[|out| - 1].dts
    else Newest(out[..|out| - 1])
  }

  // A packet may lack either timestamp.
  ghost predicate Stamped(p: Packet) {
    p.dts >= NOPTS && p.pts >= NOPTS
  }

  // After a packet without DTS nothing is repaired against the ones before it: then the packet's
  // own DTS, rescaled, or the lesser of its two if they contradict, must follow them.
  predicate KeepsOrder(cfg: Config, s: State, p: Packet) {
    || p.dts == NOPTS
    || s.lastDts != NOPTS
    || Newest(s.out) == NOPTS
    || (var dts, pts := Rescaled(cfg, p.dts), Rescaled(cfg, p.pts);
        (if pts != NOPTS then Min(dts, pts) else dts) >= Newest(s.out) + if cfg.nonStrict then 0 else 1)
  }

  ghost predicate Fair(cfg: Config, s: State) {
    && SetInOrder(cfg, s.out)
    && s.lastDts == (if s.out == [] then NOPTS else s.out[|s.out| - 1].dts)
    && (forall i :: 0 <= i < |s.out| ==> s.out[i].dts >= NOPTS)
  }

  lemma {:induction false} NewestIsGreatest(cfg: Config, out: seq<Packet>, k: nat)
    requires SetInOrder(cfg, out) && k < |out| && out[k].dts != NOPTS
    ensures Newest(out) != NOPTS && out[k].dts <= Newest(out)
  {
    if out[|out| - 1].dts == NOPTS { NewestIsGreatest(cfg, out[..|out| - 1], k); }
  }

  lemma RepairedFairly(cfg: Config, lastDts: int, p: Packet)
    requires Timestamped(cfg) && Stamped(p) && lastDts >= NOPTS
    ensures var q := Repaired(cfg, lastDts, p).0;
      && q.dts >= NOPTS && (q.dts == NOPTS <==> p.dts == NOPTS)
      && (q.dts != NOPTS && q.pts != NOPTS ==> q.pts >= q.dts)
      && (lastDts != NOPTS && q.dts != NOPTS ==> if cfg.nonStrict then q.dts >= lastDts else q.dts > lastDts)
      && (lastDts == NOPTS && p.dts != NOPTS ==>
            var dts, pts := Rescaled(cfg, p.dts), Rescaled(cfg, p.pts);
            q.dts == if pts != NOPTS then Min(dts, pts) else dts)
  {
    if p.pts > NOPTS { assert cfg.rescale(p.pts) > NOPTS; }
    if p.dts > NOPTS { assert cfg.rescale(p.dts) > NOPTS; }
  }

  lemma AppendInOrderIff(cfg: Config, out: seq<Packet>, q: Packet)
    requires SetInOrder(cfg, out) && (q.dts != NOPTS && q.pts != NOPTS ==> q.pts >= q.dts)
    ensures SetInOrder(cfg, out + [q]) <==>
      q.dts == NOPTS || Newest(out) == NOPTS || q.dts >= Newest(out) + if cfg.nonStrict then 0 else 1
  {
    var n, longer, least := |out|, out + [q], Newest(out) + if cfg.nonStrict then 0 else 1;
    assert longer[..n] == out && longer[n] == q;
    if q.dts != NOPTS && Newest(out) != NOPTS {
      var i :| 0 <= i < n && out[i].dts == Newest(out);
      assert longer[i] == out[i];
      if q.dts >= least {
        forall k | 0 <= k < n && out[k].dts != NOPTS ensures out[k].dts <= Newest(out) {
          NewestIsGreatest(cfg, out, k);
        }
      }
    }
  }

  // One packet keeps the set DTS in order if and only if it meets the condition.
  lemma KeepsOrderIff(cfg: Config, s: State, p: Packet)
    requires Timestamped(cfg) && Stamped(p) && Fair(cfg, s)
    ensures SetInOrder(cfg, Muxed(cfg, s, p).out) <==> KeepsOrder(cfg, s, p)
    ensures KeepsOrder(cfg, s, p) ==> Fair(cfg, Muxed(cfg, s, p))
  {
    var (q, fatal) := Repaired(cfg, s.lastDts, p);
    RepairedFairly(cfg, s.lastDts, p);
    AppendInOrderIff(cfg, s.out, q);
    RepairedFollowsIff(cfg, s, p);
    if !fatal && KeepsOrder(cfg, s, p) { FairWith(cfg, s, q); }
  }

  // The repaired packet follows the newest DTS exactly under the condition.
  lemma RepairedFollowsIff(cfg: Config, s: State, p: Packet)
    requires Timestamped(cfg) && Stamped(p) && Fair(cfg, s)
    ensures var q := Repaired(cfg, s.lastDts, p).0;
      KeepsOrder(cfg, s, p) <==>
        q.dts == NOPTS || Newest(s.out) == NOPTS || q.dts >= Newest(s.out) + if cfg.nonStrict then 0 else 1
    ensures Repaired(cfg, s.lastDts, p).1 ==> KeepsOrder(cfg, s, p)
  {
    RepairedFairly(cfg, s.lastDts, p);
    if s.lastDts != NOPTS { assert Newest(s.out) == s.lastDts; }
  }

  lemma FairWith(cfg: Config, s: State, q: Packet)
    requires Fair(cfg, s) && q.dts >= NOPTS && SetInOrder(cfg, s.out + [q])
    ensures Fair(cfg, s.(lastDts := q.dts, out := s.out + [q]))
  {
  }

  // The condition for every packet that a step hands on.
  ghost predicate FlushKeepsOrder(cfg: Config, s: State)
    decreases |s.queue|
  {
    s.exited || s.queue == [] || (
      var t := s.(queue := s.queue[1..]);
      KeepsOrder(cfg, t, s.queue[0]) && FlushKeepsOrder(cfg, Muxed(cfg, t, s.queue[0])))
  }

  ghost predicate StepKeepsOrder(cfg: Config, s: State, e: Event) {
    match e
    case Submit(p) =>
      s.header && !s.exited && !(Counts(cfg, false) && s.frameNumber >= cfg.maxFrames) ==> KeepsOrder(cfg, s, p)
    case Header => !s.exited && !s.header ==> FlushKeepsOrder(cfg, s.(header := true))
  }

  ghost predicate RunKeepsOrder(cfg: Config, s: State, events: seq<Event>) {
    events == [] ||
    (RunKeepsOrder(cfg, s, events[..|events| - 1])
     && StepKeepsOrder(cfg, Run(cfg, s, events[..|events| - 1]), events[|events| - 1]))
  }

  ghost predicate Parking(s: State) {
    forall i :: 0 <= i < |s.queue| ==> Stamped(s.queue[i])
  }

  lemma {:induction false} FlushedExtends(cfg: Config, s: State)
    ensures s.out <= Flushed(cfg, s).out
    decreases |s.queue|
  {
    if !s.exited && s.queue != [] {
      FlushedExtends(cfg, Muxed(cfg, s.(queue := s.queue[1..]), s.queue[0]));
    }
  }

  lemma StepExtends(cfg: Config, s: State, e: Event)
    ensures s.out <= Step(cfg, s, e).out
  {
    if e.Header? { FlushedExtends(cfg, s.(header := true)); }
  }

  // What is out of order stays out of order.
  lemma PrefixInOrder(cfg: Config, out: seq<Packet>, longer: seq<Packet>)
    requires out <= longer && SetInOrder(cfg, longer)
    ensures SetInOrder(cfg, out)
  {
    assert forall i :: 0 <= i < |out| ==> out[i] == longer[i];
  }

  lemma {:induction false} FlushKeepsOrderIff(cfg: Config, s: State)
    requires Timestamped(cfg) && Fair(cfg, s) && Parking(s)
    ensures SetInOrder(cfg, Flushed(cfg, s).out) <==> FlushKeepsOrder(cfg, s)
    ensures FlushKeepsOrder(cfg, s) ==> Fair(cfg, Flushed(cfg, s)) && Parking(Flushed(cfg, s))
    decreases |s.queue|
  {
    if !s.exited && s.queue != [] {
      var t := s.(queue := s.queue[1..]);
      var u := Muxed(cfg, t, s.queue[0]);
      KeepsOrderIff(cfg, t, s.queue[0]);
      if KeepsOrder(cfg, t, s.queue[0]) {
        FlushKeepsOrderIff(cfg, u);
      } else {
        FlushedExtends(cfg, u);
        if SetInOrder(cfg, Flushed(cfg, u).out) { PrefixInOrder(cfg, u.out, Flushed(cfg, u).out); }
      }
    }
  }

  lemma SubmitKeepsOrderIff(cfg: Config, s: State, p: Packet)
    requires Timestamped(cfg) && Fair(cfg, s) && Parking(s) && Stamped(p)
    ensures SetInOrder(cfg, Written(cfg, s, p, false).out) <==> StepKeepsOrder(cfg, s, Submit(p))
    ensures StepKeepsOrder(cfg, s, Submit(p))
      ==> Fair(cfg, Written(cfg, s, p, false)) && Parking(Written(cfg, s, p, false))
  {
    if !(s.exited || (Counts(cfg, false) && s.frameNumber >= cfg.maxFrames)) {
      var c := WrittenAs(cfg, s, p);
      SameOrder(cfg, s, c, p);
      if c.header {
        KeepsOrderIff(cfg, c, p);
        MuxedParking(cfg, c, p);
      } else {
        ParkedFairly(cfg, c, p);
      }
    }
  }

  // A packet that is not turned away is counted, and muxed or parked.
  lemma WrittenAs(cfg: Config, s: State, p: Packet) returns (c: State)
    requires !(s.exited || (Counts(cfg, false) && s.frameNumber >= cfg.maxFrames))
    ensures c.out == s.out && c.lastDts == s.lastDts && c.queue == s.queue && c.header == s.header
    ensures Written(cfg, s, p, false) == if c.header then Muxed(cfg, c, p) else Parked(cfg, c, p)
  {
    c := if Counts(cfg, false) then s.(frameNumber := s.frameNumber + 1) else s;
  }

  lemma SameOrder(cfg: Config, s: State, c: State, p: Packet)
    requires c.out == s.out && c.lastDts == s.lastDts && c.queue == s.queue
    ensures Fair(cfg, c) == Fair(cfg, s) && Parking(c) == Parking(s) && KeepsOrder(cfg, c, p) == KeepsOrder(cfg, s, p)
  {
  }

  lemma MuxedParking(cfg: Config, s: State, p: Packet)
    ensures Parking(Muxed(cfg, s, p)) == Parking(s)
  {
  }

  lemma ParkedFairly(cfg: Config, s: State, p: Packet)
    requires Fair(cfg, s) && Parking(s) && Stamped(p)
    ensures var t := Parked(cfg, s, p); t.out == s.out && Fair(cfg, t) && Parking(t)
  {
  }

  lemma StepKeepsOrderIff(cfg: Config, s: State, e: Event)
    requires Timestamped(cfg) && Fair(cfg, s) && Parking(s) && (e.Submit? ==> Stamped(e.p))
    ensures SetInOrder(cfg, Step(cfg, s, e).out) <==> StepKeepsOrder(cfg, s, e)
    ensures StepKeepsOrder(cfg, s, e) ==> Fair(cfg, Step(cfg, s, e)) && Parking(Step(cfg, s, e))
  {
    match e
    case Submit(p) => SubmitKeepsOrderIff(cfg, s, p);
    case Header => FlushKeepsOrderIff(cfg, s.(header := true));
  }

  // Over a whole run the set DTS are in order if and only if every packet handed on meets the
  // condition.
  lemma {:induction false} RunInOrderIff(cfg: Config, capacity: nat, events: seq<Event>)
    requires Timestamped(cfg) && forall e :: e in events && e.Submit? ==> Stamped(e.p)
    ensures SetInOrder(cfg, Run(cfg, Start(capacity), events).out) <==> RunKeepsOrder(cfg, Start(capacity), events)
    ensures RunKeepsOrder(cfg, Start(capacity), events) ==>
      Fair(cfg, Run(cfg, Start(capacity), events)) && Parking(Run(cfg, Start(capacity), events))
  {
    if events != [] {
      var n := |events| - 1;
      var s := Run(cfg, Start(capacity), events[..n]);
      RunInOrderIff(cfg, capacity, events[..n]);
      if RunKeepsOrder(cfg, Start(capacity), events[..n]) {
        StepKeepsOrderIff(cfg, s, events[n]);
      } else {
        StepExtends(cfg, s, events[n]);
        var t := Step(cfg, s, events[n]);
        if SetInOrder(cfg, t.out) { PrefixInOrder(cfg, s.out, t.out); }
      }
    }
  }

  // ---------- Nothing lost ----------

  function Payloads(ps: seq<Packet>): (r: seq<nat>)
    ensures |r| == |ps|
  {
    seq(|ps|, i requires 0 <= i < |ps| => ps[i].payload)
  }

  // The packets submitted in a run, up to the frame limit where it applies.
  function Accepted(cfg: Config, events: seq<Event>): (r: seq<nat>)
    ensures !cfg.encodedVideo ==> |r| <= cfg.maxFrames
  {
    if events == [] then [] else
      var before := Accepted(cfg, events[..|events| - 1]);
      match events[|events| - 1]
      case Submit(p) => if !cfg.encodedVideo && |before| >= cfg.maxFrames then before else before + [p.payload]
      case Header => before
  }

  ghost predicate Whole(s: State, accepted: seq<nat>) {
    Payloads(s.out) + Payloads(s.queue) == accepted && (s.header ==> s.queue == [])
  }

  lemma MuxedPayload(cfg: Config, s: State, p: Packet)
    requires !Muxed(cfg, s, p).exited
    ensures Payloads(Muxed(cfg, s, p).out) == Payloads(s.out) + [p.payload]
  {
  }

  lemma {:induction false} FlushedWhole(cfg: Config, s: State)
    requires !Flushed(cfg, s).exited
    ensures Payloads(Flushed(cfg, s).out) == Payloads(s.out) + Payloads(s.queue) && Flushed(cfg, s).queue == []
    ensures Flushed(cfg, s).frameNumber == s.frameNumber && Flushed(cfg, s).header == s.header
    decreases |s.queue|
  {
    if !s.exited && s.queue != [] {
      var t := Muxed(cfg, s.(queue := s.queue[1..]), s.queue[0]);
      MuxedPayload(cfg, s.(queue := s.queue[1..]), s.queue[0]);
      FlushedWhole(cfg, t);
      assert Payloads(s.queue) == [s.queue[0].payload] + Payloads(s.queue[1..]);
    } else {
      assert !s.exited;
    }
  }

  // While the program runs, the packets handed on and those still parked are, in order, the
  // packets submitted, none lost and none twice.
  lemma {:induction false} RunLosesNothing(cfg: Config, capacity: nat, events: seq<Event>)
    requires !Run(cfg, Start(capacity), events).exited
    ensures var s := Run(cfg, Start(capacity), events);
      Whole(s, Accepted(cfg, events)) && (!cfg.encodedVideo ==> s.frameNumber == |Accepted(cfg, events)|)
  {
    if events != [] {
      var n := |events| - 1;
      var s := Run(cfg, Start(capacity), events[..n]);
      RunLosesNothing(cfg, capacity, events[..n]);
      match events[n] {
        case Submit(p) =>
          assert Payloads(s.queue + [p]) == Payloads(s.queue) + [p.payload];
        case Header =>
          if !s.header { FlushedWhole(cfg, s.(header := true)); }
      }
    }
  }

  // ---------- The functions themselves ----------

  class OutputStream {
    const cfg: Config
    var frameNumber: nat
    var headerWritten: bool
    var muxingQueue: seq<Packet>
    var capacity: nat
    var lastMuxDts: int
    var muxer: seq<Packet>   // what the muxer received
    var exited: bool         // exit_program was called

    constructor (cfg: Config, capacity: nat)
      ensures Now() == Start(capacity) && this.cfg == cfg
    {
      this.cfg, this.capacity := cfg, capacity;
      frameNumber, headerWritten, muxingQueue, lastMuxDts, muxer, exited := 0, false, [], NOPTS, [], false;
    }

    ghost function Now(): State
      reads this
    {
      State(frameNumber, headerWritten, muxingQueue, capacity, lastMuxDts, muxer, exited)
    }

    // The middle part of write_packet, from the clearing of timestamps to their repair.
    method RepairTimestamps(pkt: Packet) returns (p: Packet, fatal: bool)
      ensures (p, fatal) == Repaired(cfg, lastMuxDts, pkt) || (fatal && Repaired(cfg, lastMuxDts, pkt).1)
    {
      p, fatal := pkt, false;
      if cfg.clearTimestamps {
        p := p.(pts := NOPTS, dts := NOPTS);
      }
      p := p.(pts := Rescaled(cfg, p.pts), dts := Rescaled(cfg, p.dts));
      if !cfg.noTimestamps {
        if p.dts != NOPTS && p.pts != NOPTS && p.dts > p.pts {
          var guess := p.pts + p.dts + lastMuxDts + 1
            - Min(Min(p.pts, p.dts), lastMuxDts + 1) - Max(Max(p.pts, p.dts), lastMuxDts + 1);
          p := p.(pts := guess, dts := guess);
        }
        if !cfg.kind.Data? && p.dts != NOPTS && !cfg.vp9Copy && lastMuxDts != NOPTS {
          var max := lastMuxDts + if cfg.nonStrict then 0 else 1;
          if p.dts < max {
            if cfg.exitOnError {
              return p, true;
            }
            if p.pts >= p.dts {
              p := p.(pts := Max(p.pts, max));
            }
            p := p.(dts := max);
          }
        }
      }
    }

    // write_packet.
    method WritePacket(pkt: Packet, unqueue: bool)
      requires !exited
      modifies this
      ensures Now() == Written(cfg, old(Now()), pkt, unqueue)
    {
      if !cfg.encodedVideo && !unqueue {
        if frameNumber >= cfg.maxFrames {
          return;
        }
        frameNumber := frameNumber + 1;
      }
      if !headerWritten {
        if |muxingQueue| >= capacity {
          var newSize := Min(2 * capacity, cfg.maxQueue);
          if newSize <= capacity {
            exited := true;
            return;
          }
          capacity := newSize;
        }
        muxingQueue := muxingQueue + [pkt];
        return;
      }
      var p, fatal := RepairTimestamps(pkt);
      if fatal {
        exited := true;
        return;
      }
      lastMuxDts := p.dts;
      muxer := muxer + [p];
    }

    // The header step of check_init_output_file, once all streams are initialised.
    method WriteHeader()
      requires !exited && !headerWritten
      modifies this
      ensures Now() == Step(cfg, old(Now()), Header)
    {
      headerWritten := true;
      ghost var s := Now();
      while muxingQueue != [] && !exited
        invariant headerWritten && Flushed(cfg, Now()) == Flushed(cfg, s)
        decreases |muxingQueue|
      {
        var pkt := muxingQueue[0];
        muxingQueue := muxingQueue[1..];
        WritePacket(pkt, true);
      }
    }
  }
}
