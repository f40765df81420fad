// What becomes of the timestamps of one packet, and of a run of packets whose timestamps are in
// order: as they are, but for the time base.
module MuxRepairs {
  import opened Common
  import opened MuxTimestamps

  // ---------- One packet ----------

  // The packet with its timestamps in the muxer's time base, or without, if they are to be ignored.
  function Incoming(cfg: Config, p: Packet): (q: Packet)
    ensures q.payload == p.payload
    ensures cfg.clearTimestamps ==> q.pts == q.dts == NOPTS
    ensures !cfg.clearTimestamps && p.pts != NOPTS ==> q.pts == cfg.rescale(p.pts)
    ensures !cfg.clearTimestamps && p.dts != NOPTS ==> q.dts == cfg.rescale(p.dts)
    ensures (p.pts == NOPTS ==> q.pts == NOPTS) && (p.dts == NOPTS ==> q.dts == NOPTS)
  {
    if cfg.clearTimestamps then p.(pts := NOPTS, dts := NOPTS)
    else p.(pts := if p.pts == NOPTS then NOPTS else cfg.rescale(p.pts),
            dts := if p.dts == NOPTS then NOPTS else cfg.rescale(p.dts))
  }

  // A packet would be presented before it is decoded.
  predicate Contradicts(q: Packet) {
    q.dts != NOPTS && q.pts != NOPTS && q.dts > q.pts
  }

  // The least DTS that may follow.
  function Least(cfg: Config, lastDts: int): int {
    if cfg.nonStrict then lastDts else lastDts + 1
  }

  // The DTS lies behind the one handed on last. Data streams and VP9 that is copied may do that.
  predicate LiesBehind(cfg: Config, lastDts: int, dts: int) {
    cfg.kind != Data && !cfg.vp9Copy && dts != NOPTS && lastDts != NOPTS && dts < Least(cfg, lastDts)
  }

  // The packet goes to the muxer now.
  predicate Goes(cfg: Config, s: State, unqueue: bool) {
    s.header && !s.exited && (cfg.encodedVideo || unqueue || s.frameNumber < cfg.maxFrames)
  }

  // Exactly this packet is handed on.
  ghost predicate HandsOn(s: State, t: State, q: Packet) {
    t.out == s.out + [q] && t.lastDts == q.dts && !t.exited && t.queue == s.queue
  }

  // Timestamps in order are handed on as they are; so are all where the muxer ignores them.
  lemma InOrderIsKept(cfg: Config, s: State, p: Packet, unqueue: bool)
    requires Goes(cfg, s, unqueue)
    requires var q := Incoming(cfg, p);
      cfg.noTimestamps || (!Contradicts(q) && !LiesBehind(cfg, s.lastDts, q.dts))
    ensures HandsOn(s, Written(cfg, s, p, unqueue), Incoming(cfg, p))
  {
  }

  // No timestamp is less than the one that stands for none.
  predicate SixtyFourBits(q: Packet) {
    q.pts >= NOPTS && q.dts >= NOPTS
  }

  // If only the DTS lies behind, it becomes the least allowed, and a PTS that is set the greater of
  // itself and that; under -xerror the program ends.
  lemma BehindIsRaised(cfg: Config, s: State, p: Packet, unqueue: bool)
    requires Goes(cfg, s, unqueue) && !cfg.noTimestamps
    requires var q := Incoming(cfg, p); !Contradicts(q) && LiesBehind(cfg, s.lastDts, q.dts) && SixtyFourBits(q)
    ensures var q, t, least := Incoming(cfg, p), Written(cfg, s, p, unqueue), Least(cfg, s.lastDts);
      if cfg.exitOnError then t.exited && t.out == s.out
      else HandsOn(s, t, q.(dts := least, pts := if q.pts == NOPTS then NOPTS else Max(q.pts, least)))
  {
  }

  // Two of three are no greater than m, and two no smaller.
  predicate Median(m: int, a: int, b: int, c: int) {
    && (m == a || m == b || m == c)
    && ((a <= m && b <= m) || (a <= m && c <= m) || (b <= m && c <= m))
    && ((a >= m && b >= m) || (a >= m && c >= m) || (b >= m && c >= m))
  }

  // If the two contradict, both become the median of the two and the successor of the last DTS, or
  // the least allowed if that still lies behind.
  lemma ContradictionIsMedian(cfg: Config, s: State, p: Packet, unqueue: bool) returns (m: int)
    requires Goes(cfg, s, unqueue) && !cfg.noTimestamps && Contradicts(Incoming(cfg, p))
    ensures var q := Incoming(cfg, p); Median(m, q.pts, q.dts, s.lastDts + 1)
    ensures var q, t := Incoming(cfg, p), Written(cfg, s, p, unqueue);
      if !LiesBehind(cfg, s.lastDts, m) then HandsOn(s, t, q.(pts := m, dts := m))
      else if cfg.exitOnError then t.exited && t.out == s.out
      else HandsOn(s, t, q.(pts := Least(cfg, s.lastDts), dts := Least(cfg, s.lastDts)))
  {
    var q := Incoming(cfg, p);
    m := Guess(q.pts, q.dts, s.lastDts + 1);
    GuessIsMedian(q.pts, q.dts, s.lastDts + 1);
  }

  // ---------- Runs in which nothing needs repair ----------

  function AllIncoming(cfg: Config, ps: seq<Packet>): (r: seq<Packet>)
    ensures |r| == |ps|
  {
    seq(|ps|, i requires 0 <= i < |ps| => Incoming(cfg, ps[i]))
  }

  // The packets submitted, up to the frame limit where it applies.
  function Submitted(cfg: Config, events: seq<Event>): (r: seq<Packet>)
    ensures !cfg.encodedVideo ==> |r| <= cfg.maxFrames
  {
    if events == [] then [] else
      var before := Submitted(cfg, events[..|events| - 1]);
      match events[|events| - 1]
      case Submit(p) => if !cfg.encodedVideo && |before| >= cfg.maxFrames then before else before + [p]
      case Header => before
  }

  // Packet k may follow the one before it as it is.
  predicate Follows(cfg: Config, ins: seq<Packet>, k: nat)
    requires k < |ins|
  {
    cfg.noTimestamps
    || (!Contradicts(ins[k]) && (k > 0 ==> !LiesBehind(cfg, ins[k - 1].dts, ins[k].dts)))
  }

  ghost predicate NothingToRepair(cfg: Config, ins: seq<Packet>) {
    forall k :: 0 <= k < |ins| ==> Follows(cfg, ins, k)
  }

  // The packets handed on and those parked are the ones that came in.
  ghost predicate Untouched(cfg: Config, s: State, ins: seq<Packet>) {
    && s.out + AllIncoming(cfg, s.queue) == ins && (s.header ==> s.queue == [])
    && s.lastDts == (if s.out == [] then NOPTS else s.out[|s.out| - 1].dts)
    && (!cfg.encodedVideo ==> s.frameNumber == |ins|)
  }

  lemma OneMuxed(cfg: Config, s: State, p: Packet, ins: seq<Packet>)
    requires |s.out| < |ins| && s.out == ins[..|s.out|] && ins[|s.out|] == Incoming(cfg, p)
    requires s.lastDts == (if s.out == [] then NOPTS else s.out[|s.out| - 1].dts)
    requires Follows(cfg, ins, |s.out|)
    ensures Muxed(cfg, s, p) == s.(lastDts := Incoming(cfg, p).dts, out := s.out + [Incoming(cfg, p)])
  {
    if |s.out| > 0 { assert s.out[|s.out| - 1] == ins[|s.out| - 1]; }
  }

  lemma NextIn(out: seq<Packet>, q: Packet, rest: seq<Packet>, ins: seq<Packet>)
    requires ins == out + ([q] + rest)
    ensures |out| < |ins| && ins[..|out|] == out && ins[|out|] == q && (out + [q]) + rest == ins
  {
  }

  ghost predicate InFlush(cfg: Config, s: State, ins: seq<Packet>) {
    && !s.exited && s.out + AllIncoming(cfg, s.queue) == ins
    && s.lastDts == (if s.out == [] then NOPTS else s.out[|s.out| - 1].dts)
  }

  lemma FlushGoesOn(cfg: Config, s: State, ins: seq<Packet>)
    requires InFlush(cfg, s, ins) && NothingToRepair(cfg, ins) && s.queue != []
    ensures var t := Muxed(cfg, s.(queue := s.queue[1..]), s.queue[0]);
      InFlush(cfg, t, ins) && t.queue == s.queue[1..] && t.frameNumber == s.frameNumber && t.header == s.header
  {
    var p, rest := s.queue[0], s.queue[1..];
    assert AllIncoming(cfg, s.queue) == [Incoming(cfg, p)] + AllIncoming(cfg, rest);
    NextIn(s.out, Incoming(cfg, p), AllIncoming(cfg, rest), ins);
    assert Follows(cfg, ins, |s.out|);
    OneMuxed(cfg, s.(queue := rest), p, ins);
  }

  lemma {:induction false} FlushedUntouched(cfg: Config, s: State, ins: seq<Packet>)
    requires InFlush(cfg, s, ins) && NothingToRepair(cfg, ins)
    ensures var t := Flushed(cfg, s);
      InFlush(cfg, t, ins) && t.queue == [] && t.frameNumber == s.frameNumber && t.header == s.header
    decreases |s.queue|
  {
    if s.queue != [] {
      FlushGoesOn(cfg, s, ins);
      FlushedUntouched(cfg, Muxed(cfg, s.(queue := s.queue[1..]), s.queue[0]), ins);
    }
  }

  lemma SubmittedUntouched(cfg: Config, s: State, p: Packet, ins: seq<Packet>)
    requires !s.exited && Untouched(cfg, s, ins) && !Written(cfg, s, p, false).exited
    requires cfg.encodedVideo || |ins| < cfg.maxFrames
    requires NothingToRepair(cfg, ins + [Incoming(cfg, p)])
    ensures Untouched(cfg, Written(cfg, s, p, false), ins + [Incoming(cfg, p)])
  {
    var more := ins + [Incoming(cfg, p)];
    if s.header {
      assert AllIncoming(cfg, s.queue) == [] && s.out == ins;
      assert Follows(cfg, more, |ins|) && more[..|ins|] == ins;
      OneMuxed(cfg, if Counts(cfg, false) then s.(frameNumber := s.frameNumber + 1) else s, p, more);
    } else {
      assert AllIncoming(cfg, s.queue + [p]) == AllIncoming(cfg, s.queue) + [Incoming(cfg, p)];
      assert s.out + (AllIncoming(cfg, s.queue) + [Incoming(cfg, p)]) == more;
    }
  }

  lemma PrefixToRepair(cfg: Config, ins: seq<Packet>, q: Packet)
    requires NothingToRepair(cfg, ins + [q])
    ensures NothingToRepair(cfg, ins)
  {
    forall k | 0 <= k < |ins| ensures Follows(cfg, ins, k) {
      assert Follows(cfg, ins + [q], k);
    }
  }

  // Where no timestamp needs repair, the packets handed on, and those still parked, are the packets
  // that came in, with their timestamps in the muxer's time base and nothing else changed.
  lemma {:induction false} RunLeavesUntouched(cfg: Config, capacity: nat, events: seq<Event>)
    requires !Run(cfg, Start(capacity), events).exited
    requires NothingToRepair(cfg, AllIncoming(cfg, Submitted(cfg, events)))
    ensures Untouched(cfg, Run(cfg, Start(capacity), events), AllIncoming(cfg, Submitted(cfg, events)))
  {
    if events == [] {
      assert AllIncoming(cfg, Submitted(cfg, events)) == [];
    } else {
      var n := |events| - 1;
      var before := Submitted(cfg, events[..n]);
      var s, ins := Run(cfg, Start(capacity), events[..n]), AllIncoming(cfg, before);
      match events[n] {
        case Submit(p) =>
          if cfg.encodedVideo || |before| < cfg.maxFrames {
            assert AllIncoming(cfg, before + [p]) == ins + [Incoming(cfg, p)];
            PrefixToRepair(cfg, ins, Incoming(cfg, p));
            RunLeavesUntouched(cfg, capacity, events[..n]);
            SubmittedUntouched(cfg, s, p, ins);
          } else {
            RunLeavesUntouched(cfg, capacity, events[..n]);
          }
        case Header =>
          RunLeavesUntouched(cfg, capacity, events[..n]);
          if !s.header {
            FlushedUntouched(cfg, s.(header := true), ins);
            assert AllIncoming(cfg, []) == [] && Flushed(cfg, s.(header := true)).out + [] == ins;
          }
      }
    }
  }

  // ---------- The queue before the header ----------

  ghost predicate Parks(cfg: Config, s: State) {
    1 <= s.capacity <= cfg.maxQueue && |s.queue| <= s.capacity
  }

  // Before the header a packet that counts is parked, unless the queue holds its maximum: then the
  // program ends.
  lemma ParkedUpToMaximum(cfg: Config, s: State, p: Packet)
    requires !s.header && !s.exited && Parks(cfg, s) && (cfg.encodedVideo || s.frameNumber < cfg.maxFrames)
    ensures var t := Written(cfg, s, p, false);
      && Parks(cfg, t) && (t.exited <==> |s.queue| == cfg.maxQueue)
      && t.queue == (if t.exited then s.queue else s.queue + [p]) && t.out == s.out
  {
  }
}
