// The time of a sample, in terms of the times of the packets and frames it is made of.
module AudioTimes {
  import opened Common
  import opened AudioSamples

  // ---------- The time of one packet ----------

  // Time and duration are those of the last frame that has a time, or of the packet if none has.
  ghost predicate TimedBy(frames: seq<Frame>, p: Packet, pts: int, duration: int) {
    || (exists k: nat :: LastTimed(frames, k) && pts == frames[k].pts && duration == frames[k].duration)
    || ((forall k :: 0 <= k < |frames| ==> frames[k].pts == NOPTS) && pts == p.pts && duration == p.duration)
  }

  predicate LastTimed(frames: seq<Frame>, k: nat) {
    k < |frames| && frames[k].pts != NOPTS && forall i :: k < i < |frames| ==> frames[i].pts == NOPTS
  }

  lemma {:induction false} FrameTimeIs(frames: seq<Frame>, p: Packet)
    ensures var (pts, duration) := FrameTime(frames, p.pts, p.duration); TimedBy(frames, p, pts, duration)
    decreases |frames|
  {
    if frames != [] {
      var n := |frames| - 1;
      if frames[n].pts != NOPTS {
        assert LastTimed(frames, n);
      } else {
        var (pts, duration) := FrameTime(frames[..n], p.pts, p.duration);
        FrameTimeIs(frames[..n], p);
        if k: nat :| LastTimed(frames[..n], k) && pts == frames[k].pts && duration == frames[k].duration {
          assert LastTimed(frames, k);
        }
      }
    }
  }

  // A request decodes packets up to the first that gives frames, and takes its time.
  lemma {:induction false} PullIsTimed<D>(decode: Decode<D>, d: D, source: seq<Read>)
    requires PullFrom(decode, d, source).ok
    ensures var r := PullFrom(decode, d, source);
      var n := |r.taken| - 1;
      && n >= 0 && n < |source| && (forall k :: 0 <= k <= n ==> source[k] == Got(r.taken[k]))
      && r.rest == source[n + 1..]
      && var frames := decode(After(decode, d, r.taken[..n]), r.taken[n]).1;
         frames != [] && TimedBy(frames, r.taken[n], r.pts, r.duration)
    ensures var r := PullFrom(decode, d, source);
      forall k :: 0 <= k < |r.taken| - 1 ==> decode(After(decode, d, r.taken[..k]), r.taken[k]).1 == []
    decreases |source|
  {
    var p := source[0].p;
    var (next, frames) := decode(d, p);
    if frames != [] {
      FrameTimeIs(frames, p);
    } else {
      PullIsTimed(decode, next, source[1..]);
      var later, r := PullFrom(decode, next, source[1..]), PullFrom(decode, d, source);
      var n := |later.taken| - 1;
      forall k | 0 <= k <= n ensures After(decode, d, r.taken[..k + 1]) == After(decode, next, later.taken[..k]) {
        assert r.taken[..k + 1] == [p] + later.taken[..k] && [p][..0] == [];
        DecodeAppend(decode, d, [p], later.taken[..k]);
      }
      assert r.taken[..n + 1] == r.taken[..|r.taken| - 1];
      forall k | 0 <= k < |r.taken| - 1 ensures decode(After(decode, d, r.taken[..k]), r.taken[k]).1 == [] {
        if k > 0 { assert r.taken[k] == later.taken[k - 1] && r.taken[..k] == r.taken[..(k - 1) + 1]; }
      }
      forall k | 0 <= k <= n + 1 ensures source[k] == Got(r.taken[k]) {
        if k > 0 { assert source[k] == source[1..][k - 1]; }
      }
    }
  }

  // ---------- The time of a sample ----------

  // Times and durations of the requests one after the other, up to the first that fails.
  function Times<D>(decode: Decode<D>, d: D, source: seq<Read>): seq<(int, int)>
    decreases |source|
  {
    PullDecodes(decode, d, source);
    var r := PullFrom(decode, d, source);
    if r.ok then [(r.pts, r.duration)] + Times(decode, After(decode, d, r.taken), r.rest) else []
  }

  // Where the clock starts: at the first time there is, but not below zero.
  function Origin(c: Clock, ts: seq<(int, int)>): int {
    if c.Set? then c.start else if ts == [] then 0 else Max(ts[0].0, 0)
  }

  // Of the first n times, j is the first that does not scale to -1.
  predicate FirstTime(scale: int -> int, ts: seq<(int, int)>, start: int, j: nat) {
    j < |ts| && scale(ts[j].0 - start) != -1 && forall i :: 0 <= i < j ==> scale(ts[i].0 - start) == -1
  }

  // The draft after the requests, if it had a time before or gets one.
  ghost predicate TakesTime(scale: int -> int, ts: seq<(int, int)>, start: int, before: int, pts: int) {
    if before != -1 then pts == before
    else pts == -1 || exists j: nat :: FirstTime(scale, ts, start, j) && pts == scale(ts[j].0 - start)
  }

  lemma LaterTime(scale: int -> int, first: (int, int), rest: seq<(int, int)>, start: int, pts: int)
    requires TakesTime(scale, rest, start, scale(first.0 - start), pts)
    ensures TakesTime(scale, [first] + rest, start, -1, pts)
  {
    var ts := [first] + rest;
    if scale(first.0 - start) != -1 {
      assert FirstTime(scale, ts, start, 0);
    } else if pts != -1 {
      var j: nat :| FirstTime(scale, rest, start, j) && pts == scale(rest[j].0 - start);
      assert FirstTime(scale, ts, start, j + 1);
    }
  }

  lemma {:induction false} CollectTakesTime<D>(decode: Decode<D>, scale: int -> int, s: State<D>, d: Draft)
    ensures var ts := Times(decode, s.decoder, s.source);
      TakesTime(scale, ts, Origin(s.clock, ts), d.pts, Collect(decode, scale, s, d).1.pts)
    decreases |s.source|
  {
    PullDecodes(decode, s.decoder, s.source);
    var r := PullFrom(decode, s.decoder, s.source);
    var t := Advance(decode, s, r);
    var e := Extend(scale, t.clock, d, r);
    CollectNext(decode, scale, s, d, r);
    if r.ok {
      var ts, rest := Times(decode, s.decoder, s.source), Times(decode, t.decoder, t.source);
      var start := Origin(s.clock, ts);
      assert ts == [(r.pts, r.duration)] + rest && start == t.clock.start;
      if e.duration < MIN_DURATION {
        CollectTakesTime(decode, scale, t, e);
      }
      if d.pts == -1 {
        LaterTime(scale, (r.pts, r.duration), rest, start, Collect(decode, scale, s, d).1.pts);
      }
    }
  }

  // The time of a sample is that of its first packet whose scaled time is not -1, counted from the
  // start of the clock, which is the first time there was, or zero if that is negative.
  lemma SampleTime<D>(decode: Decode<D>, scale: int -> int, s: State<D>)
    requires NextSample(decode, scale, s).1.Sample?
    ensures var ts := Times(decode, s.decoder, s.source);
      exists j: nat :: FirstTime(scale, ts, Origin(s.clock, ts), j)
                       && NextSample(decode, scale, s).1.pts == scale(ts[j].0 - Origin(s.clock, ts))
  {
    CollectTakesTime(decode, scale, s, EMPTY);
  }

  // Once started the clock never changes; it starts with the first packet that gives frames.
  lemma {:induction false} ClockStays<D>(decode: Decode<D>, scale: int -> int, s: State<D>, d: Draft)
    ensures var (t, e) := Collect(decode, scale, s, d);
      var ts := Times(decode, s.decoder, s.source);
      && (s.clock.Set? ==> t.clock == s.clock)
      && (s.clock.Unset? && ts != [] ==> t.clock == Set(Origin(s.clock, ts)))
      && (ts == [] ==> t.clock == s.clock)
    decreases |s.source|
  {
    PullDecodes(decode, s.decoder, s.source);
    var r := PullFrom(decode, s.decoder, s.source);
    var t := Advance(decode, s, r);
    var e := Extend(scale, t.clock, d, r);
    CollectNext(decode, scale, s, d, r);
    if e.ok && e.duration < MIN_DURATION { ClockStays(decode, scale, t, e); }
  }

  // A sample is no longer than needed: without its last packet it would not reach the minimum.
  lemma {:induction false} NoLongerThanNeeded<D>(decode: Decode<D>, scale: int -> int, s: State<D>, d: Draft)
    requires d.duration < MIN_DURATION
    ensures var e := Collect(decode, scale, s, d).1;
      e.ok ==> exists m: nat :: SumsTo(scale, Times(decode, s.decoder, s.source), d.duration, m, e.duration)
    decreases |s.source|
  {
    PullDecodes(decode, s.decoder, s.source);
    var r := PullFrom(decode, s.decoder, s.source);
    var t := Advance(decode, s, r);
    var e := Extend(scale, t.clock, d, r);
    CollectNext(decode, scale, s, d, r);
    if r.ok {
      var ts := Times(decode, s.decoder, s.source);
      assert ts == [(r.pts, r.duration)] + Times(decode, t.decoder, t.source);
      if e.duration < MIN_DURATION {
        NoLongerThanNeeded(decode, scale, t, e);
        if Collect(decode, scale, t, e).1.ok {
          var m: nat :| SumsTo(scale, ts[1..], e.duration, m, Collect(decode, scale, t, e).1.duration);
          SumGoesOn(scale, ts, d.duration, m, Collect(decode, scale, t, e).1.duration);
        }
      } else {
        assert ts[..1] == [ts[0]] && ts[..1][1..] == [];
        assert Total(scale, ts[..1]) == scale(ts[0].1) + Total(scale, []);
        assert SumsTo(scale, ts, d.duration, 0, e.duration);
      }
    }
  }

  function Total(scale: int -> int, ts: seq<(int, int)>): int {
    if ts == [] then 0 else scale(ts[0].1) + Total(scale, ts[1..])
  }

  // The durations of the first m + 1 requests reach the minimum, and no fewer do.
  predicate SumsTo(scale: int -> int, ts: seq<(int, int)>, before: int, m: nat, total: int) {
    && m < |ts| && total == before + Total(scale, ts[..m + 1]) >= MIN_DURATION
    && forall i :: 0 <= i <= m ==> before + Total(scale, ts[..i]) < MIN_DURATION
  }

  lemma SumGoesOn(scale: int -> int, ts: seq<(int, int)>, before: int, m: nat, total: int)
    requires ts != [] && before < MIN_DURATION
    requires SumsTo(scale, ts[1..], before + scale(ts[0].1), m, total)
    ensures SumsTo(scale, ts, before, m + 1, total)
  {
    assert ts[..m + 2][1..] == ts[1..][..m + 1];
    forall i | 0 <= i <= m + 1 ensures before + Total(scale, ts[..i]) < MIN_DURATION {
      if i > 0 {
        assert ts[..i][1..] == ts[1..][..i - 1];
        assert before + scale(ts[0].1) + Total(scale, ts[1..][..i - 1]) < MIN_DURATION;
      }
    }
  }
}
