// UncompressedSampleProvider and UncompressedAudioSampleProvider: packets are decoded until
// the decoder is drained, and the PCM of several packets is collected into samples of at
// least 200 ms.
module AudioSamples {
  import opened Common

  const MIN_DURATION: int := 2000000   // in units of 100 ns

  datatype Packet = Packet(pts: int, duration: int, id: nat)

  datatype Frame = Frame(pcm: seq<nat>, pts: int, duration: int)

  // What the reader and the packet queue give, one entry for each request.
  datatype Read = Got(p: Packet) | Failed

  // A decoder that never fails: a packet in, finitely many frames out.
  type Decode<!D> = (D, Packet) -> (D, seq<Frame>)

  // ---------- Decoding alone ----------

  function Pcm(frames: seq<Frame>): seq<nat> {
    if frames == [] then [] else Pcm(frames[..|frames| - 1]) + frames[|frames| - 1].pcm
  }

  // The decoder after a list of packets, and all PCM decoded from them.
  function After<D>(decode: Decode<D>, d: D, packets: seq<Packet>): D {
    if packets == [] then d else decode(After(decode, d, packets[..|packets| - 1]), packets[|packets| - 1]).0
  }

  function AllPcm<D>(decode: Decode<D>, d: D, packets: seq<Packet>): seq<nat> {
    if packets == [] then [] else
      var before := packets[..|packets| - 1];
      AllPcm(decode, d, before) + Pcm(decode(After(decode, d, before), packets[|packets| - 1]).1)
  }

  lemma {:induction false} DecodeAppend<D>(decode: Decode<D>, d: D, a: seq<Packet>, b: seq<Packet>)
    ensures After(decode, d, a + b) == After(decode, After(decode, d, a), b)
    ensures AllPcm(decode, d, a + b) == AllPcm(decode, d, a) + AllPcm(decode, After(decode, d, a), b)
    decreases |b|
  {
    if b == [] {
      assert a + b == a;
    } else {
      var init := b[..|b| - 1];
      assert (a + b)[..|a + b| - 1] == a + init;
      DecodeAppend(decode, d, a, init);
    }
  }

  // ---------- One packet request ----------

  // What GetNextPacket leaves: the rest of the source, the packets decoded, their PCM, and
  // time and duration of the last of them if it gave frames.
  datatype Pull = Pull(ok: bool, rest: seq<Read>, taken: seq<Packet>, pcm: seq<nat>, pts: int, duration: int)

  // The time of the last frame that has one replaces the packet's.
  function FrameTime(frames: seq<Frame>, pts: int, duration: int): (int, int) {
    if frames == [] then (pts, duration)
    else if frames[|frames| - 1].pts != NOPTS then (frames[|frames| - 1].pts, frames[|frames| - 1].duration)
    else FrameTime(frames[..|frames| - 1], pts, duration)
  }

  function PullFrom<D>(decode: Decode<D>, d: D, source: seq<Read>): Pull {
    if source == [] then Pull(false, [], [], [], 0, 0)
    else if source[0].Failed? then Pull(false, source[1..], [], [], 0, 0)
    else
      var p := source[0].p;
      var (next, frames) := decode(d, p);
      if frames != [] then
        var (pts, duration) := FrameTime(frames, p.pts, p.duration);
        Pull(true, source[1..], [p], Pcm(frames), pts, duration)
      else
        var later := PullFrom(decode, next, source[1..]);
        later.(taken := [p] + later.taken)
  }

  lemma {:induction false} PullDecodes<D>(decode: Decode<D>, d: D, source: seq<Read>)
    ensures var r := PullFrom(decode, d, source);
      && r.pcm == AllPcm(decode, d, r.taken)
      && (r.ok ==> |r.rest| < |source|)
      && |r.rest| <= |source|
    decreases |source|
  {
    if source != [] && source[0].Got? {
      var p := source[0].p;
      assert [p][..0] == [];
      if decode(d, p).1 == [] {
        var later := PullFrom(decode, decode(d, p).0, source[1..]);
        PullDecodes(decode, decode(d, p).0, source[1..]);
        DecodeAppend(decode, d, [p], later.taken);
        assert AllPcm(decode, d, [p]) == [];
        assert [] + later.pcm == later.pcm;
      }
    }
  }

  // A request that has decoded the packets in `taken` so far, without a frame.
  ghost predicate Skipped<D>(decode: Decode<D>, origin: D, whole: Pull, taken: seq<Packet>, d: D, source: seq<Read>) {
    var later := PullFrom(decode, d, source);
    d == After(decode, origin, taken) && whole == later.(taken := taken + later.taken)
  }

  // A request that is over.
  ghost predicate Pulled<D>(decode: Decode<D>, origin: D, whole: Pull, d: D, source: seq<Read>) {
    d == After(decode, origin, whole.taken) && source == whole.rest
  }

  lemma SkipFails<D>(decode: Decode<D>, origin: D, whole: Pull, taken: seq<Packet>, d: D, source: seq<Read>)
    requires Skipped(decode, origin, whole, taken, d, source)
    requires source == [] || source[0].Failed?
    ensures !whole.ok && whole.pcm == [] && Pulled(decode, origin, whole, d, if source == [] then [] else source[1..])
  {
    assert taken + [] == taken;
  }

  lemma SkipStep<D>(decode: Decode<D>, origin: D, whole: Pull, taken: seq<Packet>, d: D, source: seq<Read>)
    requires Skipped(decode, origin, whole, taken, d, source)
    requires source != [] && source[0].Got?
    ensures var p := source[0].p;
      var (next, frames) := decode(d, p);
      if frames == [] then Skipped(decode, origin, whole, taken + [p], next, source[1..])
      else
        && whole.ok && (whole.pts, whole.duration) == FrameTime(frames, p.pts, p.duration)
        && whole.pcm == Pcm(frames) && Pulled(decode, origin, whole, next, source[1..])
  {
    var p := source[0].p;
    assert (taken + [p])[..|taken|] == taken;
    var later := PullFrom(decode, decode(d, p).0, source[1..]);
    assert taken + ([p] + later.taken) == (taken + [p]) + later.taken;
  }

  // ---------- One sample ----------

  datatype Clock = Unset | Set(start: int)

  // The provider between requests.
  datatype State<D> = State(source: seq<Read>, decoder: D, clock: Clock)

  // A sample under construction: first time other than -1, summed durations, bytes, packets.
  datatype Draft = Draft(pts: int, duration: int, bytes: seq<nat>, taken: seq<Packet>, ok: bool)

  // The start of the clock is the first frame's time, but not below zero.
  function Started(c: Clock, pts: int): Clock {
    if c.Unset? then Set(if pts < 0 then 0 else pts) else c
  }

  function Advance<D>(decode: Decode<D>, s: State<D>, r: Pull): State<D> {
    State(r.rest, After(decode, s.decoder, r.taken), if r.ok then Started(s.clock, r.pts) else s.clock)
  }

  function Extend(scale: int -> int, c: Clock, d: Draft, r: Pull): Draft
    requires r.ok ==> c.Set?
  {
    if r.ok then
      var pts := scale(r.pts - c.start);
      Draft(if d.pts == -1 then pts else d.pts, d.duration + scale(r.duration), d.bytes + r.pcm,
            d.taken + r.taken, true)
    else d.(bytes := d.bytes + r.pcm, taken := d.taken + r.taken, ok := false)
  }

  // The do-while loop of GetNextSample; `scale` converts to units of 100 ns.
  function Collect<D>(decode: Decode<D>, scale: int -> int, s: State<D>, d: Draft): (State<D>, Draft)
    decreases |s.source|
  {
    PullDecodes(decode, s.decoder, s.source);
    var r := PullFrom(decode, s.decoder, s.source);
    var t := Advance(decode, s, r);
    var e := Extend(scale, t.clock, d, r);
    if e.ok && e.duration < MIN_DURATION then Collect(decode, scale, t, e) else (t, e)
  }

  const EMPTY: Draft := Draft(-1, 0, [], [], true)

  datatype Sample = NoSample | Sample(pts: int, bytes: seq<nat>)

  // GetNextSample. Without a time the stream is disabled, and no packet reaches it any more.
  function NextSample<D>(decode: Decode<D>, scale: int -> int, s: State<D>): (State<D>, Sample) {
    var (t, d) := Collect(decode, scale, s, EMPTY);
    if d.pts != -1 then (t, Sample(d.pts, d.bytes)) else (t.(source := []), NoSample)
  }

  // The draft holds exactly the PCM of its packets; the decoder has seen these; unless a packet
  // read failed the draft is long enough.
  lemma {:induction false} CollectDecodes<D>(decode: Decode<D>, scale: int -> int, s: State<D>, d: Draft, origin: D)
    requires s.decoder == After(decode, origin, d.taken) && d.bytes == AllPcm(decode, origin, d.taken)
    ensures var (t, e) := Collect(decode, scale, s, d);
      && e.bytes == AllPcm(decode, origin, e.taken) && t.decoder == After(decode, origin, e.taken)
      && (e.ok ==> e.duration >= MIN_DURATION)
      && d.taken <= e.taken
    decreases |s.source|
  {
    PullDecodes(decode, s.decoder, s.source);
    var r := PullFrom(decode, s.decoder, s.source);
    var t := Advance(decode, s, r);
    var e := Extend(scale, t.clock, d, r);
    DecodeAppend(decode, origin, d.taken, r.taken);
    if e.ok && e.duration < MIN_DURATION {
      CollectDecodes(decode, scale, t, e, origin);
    }
  }

  // The PCM of one request, delivered or not.
  function Draw<D>(decode: Decode<D>, scale: int -> int, s: State<D>): Draft {
    Collect(decode, scale, s, EMPTY).1
  }

  // ---------- Whole runs ----------

  function BytesOf(x: Sample): seq<nat> {
    if x.Sample? then x.bytes else []
  }

  // n requests: the bytes of the samples, and the packets decoded.
  function Delivered<D>(decode: Decode<D>, scale: int -> int, s: State<D>, n: nat): seq<nat>
    decreases n
  {
    if n == 0 then [] else
      var (t, x) := NextSample(decode, scale, s);
      BytesOf(x) + Delivered(decode, scale, t, n - 1)
  }

  function Taken<D>(decode: Decode<D>, scale: int -> int, s: State<D>, n: nat): seq<Packet>
    decreases n
  {
    if n == 0 then [] else
      Draw(decode, scale, s).taken + Taken(decode, scale, NextSample(decode, scale, s).0, n - 1)
  }

  // Bytes that are decoded but not delivered, because every time of a request was -1, the
  // value the loop takes for "no time yet".
  function LostLength<D>(decode: Decode<D>, scale: int -> int, s: State<D>, n: nat): nat
    decreases n
  {
    if n == 0 then 0 else
      var (t, x) := NextSample(decode, scale, s);
      (if x.NoSample? then |Draw(decode, scale, s).bytes| else 0) + LostLength(decode, scale, t, n - 1)
  }

  lemma PrefixOrLost(bytes: seq<nat>, lost: bool, later: seq<nat>, decoded: seq<nat>, lostLater: nat)
    requires |later| + lostLater == |decoded|
    requires later == decoded <==> lostLater == 0
    ensures var kept := if lost then [] else bytes;
      var dropped := if lost then |bytes| else 0;
      && |kept + later| + dropped + lostLater == |bytes + decoded|
      && (kept + later == bytes + decoded <==> dropped + lostLater == 0)
  {
    var kept := if lost then [] else bytes;
    if kept + later == bytes + decoded && (!lost || bytes == []) {
      assert later == (kept + later)[|kept|..] == (bytes + decoded)[|bytes|..] == decoded;
    }
    if lost { assert [] + later == later; }
  }

  // One request: its sample holds all PCM it decoded, or there is none.
  lemma DrawStep<D>(decode: Decode<D>, scale: int -> int, s: State<D>)
    ensures var (t, x) := NextSample(decode, scale, s);
      var d := Draw(decode, scale, s);
      && d.bytes == AllPcm(decode, s.decoder, d.taken)
      && t.decoder == After(decode, s.decoder, d.taken)
      && (x == NoSample || x == Sample(d.pts, d.bytes))
      && (x.NoSample? <==> d.pts == -1)
  {
    CollectDecodes(decode, scale, s, EMPTY, s.decoder);
  }

  // What the samples of a run lack of the PCM decoded in it is exactly what is lost.
  lemma {:induction false} DeliveredIff<D>(decode: Decode<D>, scale: int -> int, s: State<D>, n: nat)
    ensures |Delivered(decode, scale, s, n)| + LostLength(decode, scale, s, n)
         == |AllPcm(decode, s.decoder, Taken(decode, scale, s, n))|
    ensures Delivered(decode, scale, s, n) == AllPcm(decode, s.decoder, Taken(decode, scale, s, n))
       <==> LostLength(decode, scale, s, n) == 0
    decreases n
  {
    if n > 0 {
      var (t, x) := NextSample(decode, scale, s);
      var d := Draw(decode, scale, s);
      DrawStep(decode, scale, s);
      DeliveredIff(decode, scale, t, n - 1);
      var later, rest, lost := Taken(decode, scale, t, n - 1), Delivered(decode, scale, t, n - 1),
        LostLength(decode, scale, t, n - 1);
      var pcm := AllPcm(decode, t.decoder, later);
      assert |rest| + lost == |pcm| && (rest == pcm <==> lost == 0);
      DecodeAppend(decode, s.decoder, d.taken, later);
      PrefixOrLost(d.bytes, x.NoSample?, rest, pcm, lost);
    }
  }

  // Every packet that gives frames, up to the end of the request, has time -1.
  ghost predicate AllTimesMinusOne<D>(decode: Decode<D>, scale: int -> int, s: State<D>, duration: int)
    decreases |s.source|
  {
    PullDecodes(decode, s.decoder, s.source);
    var r := PullFrom(decode, s.decoder, s.source);
    var t := Advance(decode, s, r);
    var longer := duration + scale(r.duration);
    r.ok ==> (
      && scale(r.pts - t.clock.start) == -1
      && (longer < MIN_DURATION ==> AllTimesMinusOne(decode, scale, t, longer)))
  }

  lemma CollectNext<D>(decode: Decode<D>, scale: int -> int, s: State<D>, d: Draft, r: Pull)
    requires r == PullFrom(decode, s.decoder, s.source)
    ensures var t := Advance(decode, s, r);
      var e := Extend(scale, t.clock, d, r);
      Collect(decode, scale, s, d)
        == if e.ok && e.duration < MIN_DURATION then Collect(decode, scale, t, e) else (t, e)
  {
  }

  // A request ends without a sample exactly when every packet that gave frames in it has time -1.
  lemma {:induction false} NoTimeIff<D>(decode: Decode<D>, scale: int -> int, s: State<D>, d: Draft)
    ensures Collect(decode, scale, s, d).1.pts == -1 <==> d.pts == -1 && AllTimesMinusOne(decode, scale, s, d.duration)
    decreases |s.source|
  {
    PullDecodes(decode, s.decoder, s.source);
    var r := PullFrom(decode, s.decoder, s.source);
    var t := Advance(decode, s, r);
    var e := Extend(scale, t.clock, d, r);
    if e.ok && e.duration < MIN_DURATION { NoTimeIff(decode, scale, t, e); }
  }

  lemma NoSampleIff<D>(decode: Decode<D>, scale: int -> int, s: State<D>)
    ensures NextSample(decode, scale, s).1.NoSample? <==> AllTimesMinusOne(decode, scale, s, 0)
  {
    NoTimeIff(decode, scale, s, EMPTY);
  }

  // No request that finds only times of -1 decodes any PCM.
  ghost predicate Timely<D>(decode: Decode<D>, scale: int -> int, s: State<D>, n: nat)
    decreases n
  {
    n == 0 || (
      && (AllTimesMinusOne(decode, scale, s, 0) ==> Draw(decode, scale, s).bytes == [])
      && Timely(decode, scale, NextSample(decode, scale, s).0, n - 1))
  }

  // The samples of a run are all PCM decoded in it, in order, if and only if no request decodes
  // PCM whose times are all -1.
  lemma {:induction false} AllDeliveredIff<D>(decode: Decode<D>, scale: int -> int, s: State<D>, n: nat)
    ensures Delivered(decode, scale, s, n) == AllPcm(decode, s.decoder, Taken(decode, scale, s, n))
      <==> Timely(decode, scale, s, n)
  {
    DeliveredIff(decode, scale, s, n);
    LostIff(decode, scale, s, n);
  }

  lemma {:induction false} LostIff<D>(decode: Decode<D>, scale: int -> int, s: State<D>, n: nat)
    ensures LostLength(decode, scale, s, n) == 0 <==> Timely(decode, scale, s, n)
    decreases n
  {
    if n > 0 {
      NoSampleIff(decode, scale, s);
      LostIff(decode, scale, NextSample(decode, scale, s).0, n - 1);
    }
  }

  // A decoder of one frame a packet.
  function OneFrame(d: nat, p: Packet): (nat, seq<Frame>) {
    (d, [Frame([7], p.pts, p.duration)])
  }

  // A stream in units of 100 ns whose first frame has time -1 is disabled, its PCM lost.
  lemma MinusOneIsLost()
    ensures var s := State([Got(Packet(-1, MIN_DURATION, 0)), Got(Packet(5, MIN_DURATION, 1))], 0, Unset);
      && NextSample(OneFrame, x => x, s) == (State([], 0, Set(0)), NoSample)
      && Draw(OneFrame, x => x, s).bytes == [7]
  {
    var p := Packet(-1, MIN_DURATION, 0);
    var source := [Got(p), Got(Packet(5, MIN_DURATION, 1))];
    assert Pcm([Frame([7], -1, MIN_DURATION)]) == [7];
    assert PullFrom(OneFrame, 0, source) == Pull(true, source[1..], [p], [7], -1, MIN_DURATION);
    assert After(OneFrame, 0, [p]) == 0;
  }

  // ---------- The provider ----------

  datatype HResult = Ok | False | Fail | Unexpected {
    predicate Succeeded() { Ok? || False? }
  }

  class DataWriter {
    var bytes: seq<nat>

    constructor ()
      ensures bytes == []
    {
      bytes := [];
    }
  }

  class UncompressedAudioSampleProvider<!D> {
    const decode: Decode<D>
    const scale: int -> int
    var source: seq<Read>
    var decoder: D
    var ready: seq<Frame>      // frames the decoder holds
    var frame: Option<Frame>
    var clock: Clock

    constructor (decode: Decode<D>, scale: int -> int, source: seq<Read>, decoder: D)
      ensures this.decode == decode && this.scale == scale
      ensures View() == State(source, decoder, Unset) && Drained()
    {
      this.decode, this.scale, this.source, this.decoder := decode, scale, source, decoder;
      ready, frame, clock := [], None, Unset;
    }

    ghost function View(): State<D>
      reads this
    {
      State(source, decoder, clock)
    }

    // Nothing waits in the decoder, so that the next packet is not refused.
    ghost predicate Drained()
      reads this
    {
      ready == [] && frame.None?
    }

    // The decoder takes no packet while frames wait in it.
    method SendPacket(p: Packet) returns (again: bool)
      modifies this`decoder, this`ready
      ensures again == (old(ready) != [])
      ensures if again then decoder == old(decoder) && ready == old(ready)
        else (decoder, ready) == decode(old(decoder), p)
    {
      again := ready != [];
      if !again {
        var (d, frames) := decode(decoder, p);
        decoder, ready := d, frames;
      }
    }

    method GetFrameFromFFmpegDecoder(packet: Option<Packet>) returns (hr: HResult)
      requires frame.None?
      modifies this`decoder, this`ready, this`frame
      ensures var (d, frames) := if packet.Some? then decode(old(decoder), packet.value)
        else (old(decoder), old(ready));
        if packet.Some? && old(ready) != [] then hr == Unexpected && unchanged(this)
        else
          && decoder == d
          && if frames == [] then hr == False && ready == [] && frame == None
             else hr == Ok && frame == Some(frames[0]) && ready == frames[1..]
    {
      hr := Ok;
      if packet.Some? {
        var again := SendPacket(packet.value);
        if again { hr := Unexpected; }
      }
      if hr.Succeeded() {
        if ready == [] {
          hr := False;
        } else {
          frame, ready := Some(ready[0]), ready[1..];
        }
      }
    }

    method ProcessDecodedFrame(writer: DataWriter)
      requires frame.Some?
      modifies writer, this`frame
      ensures writer.bytes == old(writer.bytes) + old(frame).value.pcm && frame == None
    {
      writer.bytes := writer.bytes + frame.value.pcm;
      frame := None;
    }

    // The packet is sent once, the frames are taken until there are none: the decoder is left
    // drained, and all PCM of the packet written, in order.
    method DecodeAVPacket(writer: DataWriter, packet: Packet) returns (hr: HResult, framePts: int, frameDuration: int)
      requires Drained()
      modifies writer, this`decoder, this`ready, this`frame
      ensures Drained()
      ensures var (d, frames) := decode(old(decoder), packet);
        && decoder == d && writer.bytes == old(writer.bytes) + Pcm(frames)
        && hr == (if frames == [] then False else Ok)
        && (framePts, frameDuration) == FrameTime(frames, packet.pts, packet.duration)
    {
      framePts, frameDuration := packet.pts, packet.duration;
      hr := Ok;
      var gotFrame, toSend := false, Some(packet);
      ghost var frames, n := decode(decoder, packet).1, 0;
      while hr.Succeeded()
        invariant hr.Ok? && frame.None? && 0 <= n <= |frames|
        invariant if toSend.Some? then toSend.value == packet && ready == [] && n == 0 && decoder == old(decoder)
                  else ready == frames[n..] && decoder == decode(old(decoder), packet).0
        invariant gotFrame == (n > 0)
        invariant writer.bytes == old(writer.bytes) + Pcm(frames[..n])
        invariant (framePts, frameDuration) == FrameTime(frames[..n], packet.pts, packet.duration)
        decreases if toSend.Some? then 1 else 0, |frames| - n
      {
        hr := GetFrameFromFFmpegDecoder(toSend);
        toSend := None;
        if hr == False {
          assert frames[..n] == frames;
          if gotFrame { hr := Ok; }
          break;
        }
        if frame.value.pts != NOPTS {
          framePts, frameDuration := frame.value.pts, frame.value.duration;
        }
        gotFrame := true;
        assert frames[..n + 1][..n] == frames[..n];
        n := n + 1;
        ProcessDecodedFrame(writer);
      }
    }

    // One turn of the loop of GetNextPacket: a packet is read and decoded.
    method DecodeNext(writer: DataWriter, ghost origin: D, ghost whole: Pull, ghost taken: seq<Packet>)
      returns (hr: HResult, framePts: int, frameDuration: int, ghost more: seq<Packet>)
      requires Drained() && Skipped(decode, origin, whole, taken, decoder, source)
      modifies writer, this`source, this`decoder, this`ready, this`frame
      ensures Drained()
      ensures if hr.False?
        then
          && |source| < |old(source)| && writer.bytes == old(writer.bytes)
          && Skipped(decode, origin, whole, more, decoder, source)
        else
          && whole.ok == hr.Ok? && Pulled(decode, origin, whole, decoder, source)
          && writer.bytes == old(writer.bytes) + whole.pcm
          && (hr.Ok? ==> (framePts, frameDuration) == (whole.pts, whole.duration))
    {
      more := taken;
      if source == [] || source[0].Failed? {
        SkipFails(decode, origin, whole, taken, decoder, source);
        source := if source == [] then [] else source[1..];
        hr, framePts, frameDuration := Fail, 0, 0;
      } else {
        SkipStep(decode, origin, whole, taken, decoder, source);
        var packet := source[0].p;
        source, more := source[1..], taken + [packet];
        hr, framePts, frameDuration := DecodeAVPacket(writer, packet);
      }
    }

    method GetNextPacket(writer: DataWriter) returns (hr: HResult, pts: int, dur: int)
      requires Drained()
      modifies this, writer
      ensures Drained()
      ensures var r := PullFrom(decode, old(decoder), old(source));
        && hr.Succeeded() == r.ok
        && writer.bytes == old(writer.bytes) + r.pcm
        && View() == Advance(decode, old(View()), r)
        && (r.ok ==> pts == scale(r.pts - clock.start) && dur == scale(r.duration))
    {
      hr, pts, dur := Ok, 0, 0;
      var framePts, frameDuration, complete := 0, 0, false;
      ghost var origin, whole := decoder, PullFrom(decode, decoder, source);
      ghost var taken: seq<Packet> := [];
      while hr.Succeeded() && !complete
        invariant Drained() && clock == old(clock)
        invariant if hr.Succeeded() && !complete
                  then writer.bytes == old(writer.bytes) && Skipped(decode, origin, whole, taken, decoder, source)
                  else
                    && whole.ok == hr.Succeeded() && Pulled(decode, origin, whole, decoder, source)
                    && writer.bytes == old(writer.bytes) + whole.pcm
                    && (hr.Succeeded() ==> (framePts, frameDuration) == (whole.pts, whole.duration))
        decreases if hr.Succeeded() && !complete then 1 + |source| else 0
      {
        hr, framePts, frameDuration, taken := DecodeNext(writer, origin, whole, taken);
        complete := hr == Ok;
      }
      if hr.Succeeded() {
        if clock.Unset? { clock := Set(if framePts < 0 then 0 else framePts); }
        pts, dur := scale(framePts - clock.start), scale(frameDuration);
      }
    }

    // One turn of the loop of GetNextSample: one more packet in the draft.
    method ExtendSample(writer: DataWriter, finalPts: int, finalDur: int, ghost d: Draft)
      returns (hr: HResult, finalPts2: int, finalDur2: int, ghost r: Pull)
      requires Drained() && (d.pts, d.duration) == (finalPts, finalDur) && d.bytes == writer.bytes && d.ok
      modifies this, writer
      ensures Drained() && r == PullFrom(decode, old(decoder), old(source))
      ensures View() == Advance(decode, old(View()), r)
      ensures var e := Extend(scale, clock, d, r);
        e == Draft(finalPts2, finalDur2, writer.bytes, d.taken + r.taken, hr.Succeeded())
    {
      r := PullFrom(decode, decoder, source);
      var pts, dur;
      finalPts2, finalDur2 := finalPts, finalDur;
      hr, pts, dur := GetNextPacket(writer);
      if hr.Succeeded() {
        if finalPts == -1 { finalPts2 := pts; }
        finalDur2 := finalDur + dur;
      }
    }

    method GetNextSample() returns (sample: Sample)
      requires Drained()
      modifies this
      ensures Drained()
      ensures (View(), sample) == NextSample(decode, scale, old(View()))
    {
      var writer := new DataWriter();
      var hr, finalPts, finalDur := Ok, -1, 0;
      ghost var d := EMPTY;
      var more := true;
      while more
        invariant fresh(writer) && Drained()
        invariant d == Draft(finalPts, finalDur, writer.bytes, d.taken, hr.Succeeded()) && (more ==> d.ok)
        invariant Collect(decode, scale, old(View()), EMPTY)
          == if more then Collect(decode, scale, View(), d) else (View(), d)
        decreases |source|, more
      {
        PullDecodes(decode, decoder, source);
        ghost var was, r := View(), PullFrom(decode, decoder, source);
        CollectNext(decode, scale, was, d, r);
        hr, finalPts, finalDur, r := ExtendSample(writer, finalPts, finalDur, d);
        d := Extend(scale, clock, d, r);
        more := hr.Succeeded() && finalDur < MIN_DURATION;
      }
      if finalPts != -1 {
        sample := Sample(finalPts, writer.bytes);
      } else {
        source := [];
        sample := NoSample;
      }
    }
  }
}
