// FFmpegReader and MediaSampleProvider: an audio and a video provider pull packets through
// one demuxer; what one of them reads for the other waits in the other's queue.
module Demux {
  import opened Common

  datatype Packet = Packet(stream: int, serial: nat)

  // What the demuxer answers, one entry for each read; reads after the last fail.
  datatype Read = Got(p: Packet) | Failed

  // How decoding a packet ends: S_OK, S_FALSE (no whole frame yet) or an error.
  datatype Decoded = Complete | Partial | Broken

  datatype Who = Audio | Video

  // Stream numbers, and which providers there are at all.
  datatype Config = Config(audioStream: int, videoStream: int, hasAudio: bool, hasVideo: bool)

  // The packets waiting for one consumer, and those it gave back unused.
  datatype Provider = Provider(queue: seq<Packet>, enabled: bool, discontinuous: bool, released: seq<Packet>)

  // What happened, in order.
  datatype Event = Was(p: Packet) | Popped(who: Who, p: Packet) | Flushed(who: Who) | Switched(who: Who, on: bool)

  datatype System = System(script: seq<Read>, audio: Provider, video: Provider, ignored: seq<Packet>,
                           trace: seq<Event>) {
    function Of(who: Who): Provider {
      if who.Audio? then audio else video
    }
    // A provider changed, by an event.
    function With(who: Who, p: Provider, e: Event): System {
      (if who.Audio? then this.(audio := p) else this.(video := p)).(trace := trace + [e])
    }
  }

  // Which provider a packet is for, if any.
  datatype Route = To(who: Who) | Nobody

  function RouteOf(cfg: Config, packet: Packet): Route {
    if packet.stream == cfg.audioStream && cfg.hasAudio then To(Audio)
    else if packet.stream == cfg.videoStream && cfg.hasVideo then To(Video)
    else Nobody
  }

  // ---------- What the code does ----------

  function Queued(p: Provider, packet: Packet): Provider {
    if p.enabled then p.(queue := p.queue + [packet]) else p.(released := p.released + [packet])
  }

  // FFmpegReader::ReadPacket; the flag is false when the demuxer fails.
  function ReadPacket(cfg: Config, s: System): (System, bool) {
    if s.script == [] then (s, false) else
      var t := s.(script := s.script[1..]);
      match s.script[0]
      case Failed => (t, false)
      case Got(packet) =>
        match RouteOf(cfg, packet)
        case Nobody => (t.(ignored := t.ignored + [packet], trace := t.trace + [Was(packet)]), true)
        case To(who) => (t.With(who, Queued(t.Of(who), packet), Was(packet)), true)
  }

  function Pop(s: System, who: Who): System
    requires s.Of(who).queue != []
  {
    var p := s.Of(who);
    s.With(who, p.(queue := p.queue[1..]), Popped(who, p.queue[0]))
  }

  function Flush(s: System, who: Who): System {
    var p := s.Of(who);
    s.With(who, p.(queue := [], discontinuous := true, released := p.released + p.queue), Flushed(who))
  }

  function Switch(s: System, who: Who, on: bool): System {
    s.With(who, s.Of(who).(enabled := on), Switched(who, on))
  }

  function Disable(s: System, who: Who): System {
    Switch(Flush(s, who), who, false)
  }

  function MarkDiscontinuous(s: System, who: Who, on: bool): System {
    if who.Audio? then s.(audio := s.audio.(discontinuous := on)) else s.(video := s.video.(discontinuous := on))
  }

  // Reads until the provider has a packet or the demuxer fails.
  function Fill(cfg: Config, s: System, who: Who): (r: (System, bool))
    ensures r.1 ==> r.0.Of(who).queue != []
    ensures |r.0.script| + |r.0.Of(who).queue| <= |s.script| + |s.Of(who).queue|
    decreases |s.script|
  {
    if s.Of(who).queue != [] then (s, true) else
      var (t, ok) := ReadPacket(cfg, s);
      if !ok then (t, false) else Fill(cfg, t, who)
  }

  // GetNextPacket: packets are popped and decoded until one completes; up to ten failures are
  // skipped if that is allowed. The flag tells whether a packet completed.
  function NextPacket(cfg: Config, s: System, who: Who, allowSkip: bool, decode: Packet -> Decoded,
                      errors: nat): (System, bool)
    decreases |s.script| + |s.Of(who).queue|
  {
    var (t, ok) := Fill(cfg, s, who);
    if !ok then (t, false) else
      var d := decode(t.Of(who).queue[0]);
      var u := Pop(t, who);
      if d.Complete? then (u, true) else
        var v := MarkDiscontinuous(u, who, true);
        if d.Broken? && !(allowSkip && errors < 10) then (v, false)
        else NextPacket(cfg, v, who, allowSkip, decode, if allowSkip then errors + 1 else errors)
  }

  // GetNextSample of the base class; `written` tells whether the packet could be written out.
  // A provider that gets nothing is disabled.
  function NextSample(cfg: Config, s: System, who: Who, decode: Packet -> Decoded, written: bool): (System, bool) {
    if !s.Of(who).enabled then (s, false) else
      var (t, ok) := NextPacket(cfg, s, who, true, decode, 0);
      if ok && written then (MarkDiscontinuous(t, who, false), true) else (Disable(t, who), false)
  }

  // ---------- What it should do, from the trace alone ----------

  // Whether a provider was enabled last; it starts enabled.
  ghost function On(trace: seq<Event>, who: Who): bool {
    if trace == [] then true else
      match trace[|trace| - 1]
      case Switched(w, on) => if w == who then on else On(trace[..|trace| - 1], who)
      case _ => On(trace[..|trace| - 1], who)
  }

  // The packets of a provider's stream read since its last flush while it was enabled.
  ghost function Due(cfg: Config, trace: seq<Event>, who: Who): seq<Packet> {
    if trace == [] then [] else
      var before := trace[..|trace| - 1];
      match trace[|trace| - 1]
      case Was(p) =>
        Due(cfg, before, who) + (if RouteOf(cfg, p) == To(who) && On(before, who) then [p] else [])
      case Flushed(w) => if w == who then [] else Due(cfg, before, who)
      case _ => Due(cfg, before, who)
  }

  // The packets it popped since then.
  ghost function PoppedSince(trace: seq<Event>, who: Who): seq<Packet> {
    if trace == [] then [] else
      var before := trace[..|trace| - 1];
      match trace[|trace| - 1]
      case Popped(w, p) => if w == who then PoppedSince(before, who) + [p] else PoppedSince(before, who)
      case Flushed(w) => if w == who then [] else PoppedSince(before, who)
      case _ => PoppedSince(before, who)
  }

  ghost function AllRead(trace: seq<Event>): multiset<Packet> {
    if trace == [] then multiset{} else
      var before := AllRead(trace[..|trace| - 1]);
      match trace[|trace| - 1] case Was(p) => before + multiset{p} case _ => before
  }

  ghost function AllPopped(trace: seq<Event>): multiset<Packet> {
    if trace == [] then multiset{} else
      var before := AllPopped(trace[..|trace| - 1]);
      match trace[|trace| - 1] case Popped(_, p) => before + multiset{p} case _ => before
  }

  // Popped, then queued: exactly the packets due, in order; and a disabled provider holds none.
  ghost predicate InOrder(cfg: Config, s: System, who: Who) {
    && PoppedSince(s.trace, who) + s.Of(who).queue == Due(cfg, s.trace, who)
    && s.Of(who).enabled == On(s.trace, who)
    && (!s.Of(who).enabled ==> s.Of(who).queue == [])
  }

  // Every packet read is popped, queued, given back or ignored, and only one of these.
  ghost predicate Accounted(s: System) {
    AllRead(s.trace) == AllPopped(s.trace) + Held(s.audio) + Held(s.video) + multiset(s.ignored)
  }

  // What a provider has queued or given back.
  ghost function Held(p: Provider): multiset<Packet> {
    multiset(p.queue) + multiset(p.released)
  }

  ghost predicate Conserved(cfg: Config, s: System) {
    InOrder(cfg, s, Audio) && InOrder(cfg, s, Video) && Accounted(s)
  }

  lemma TraceStep(cfg: Config, trace: seq<Event>, e: Event, who: Who)
    ensures On(trace + [e], who) == (if e.Switched? && e.who == who then e.on else On(trace, who))
    ensures Due(cfg, trace + [e], who) ==
      (if e.Was? && RouteOf(cfg, e.p) == To(who) && On(trace, who) then Due(cfg, trace, who) + [e.p]
       else if e.Flushed? && e.who == who then [] else Due(cfg, trace, who))
    ensures PoppedSince(trace + [e], who) ==
      (if e.Popped? && e.who == who then PoppedSince(trace, who) + [e.p]
       else if e.Flushed? && e.who == who then [] else PoppedSince(trace, who))
  {
    assert (trace + [e])[..|trace|] == trace;
  }

  lemma TraceCounts(trace: seq<Event>, e: Event)
    ensures AllRead(trace + [e]) == AllRead(trace) + if e.Was? then multiset{e.p} else multiset{}
    ensures AllPopped(trace + [e]) == AllPopped(trace) + if e.Popped? then multiset{e.p} else multiset{}
  {
    assert (trace + [e])[..|trace|] == trace;
  }

  // An event of one provider, or a packet for nobody or the other, leaves a provider in order.
  lemma OtherInOrder(cfg: Config, s: System, t: System, e: Event, who: Who)
    requires InOrder(cfg, s, who) && t.Of(who) == s.Of(who) && t.trace == s.trace + [e]
    requires match e case Was(p) => RouteOf(cfg, p) != To(who) case _ => e.who != who
    ensures InOrder(cfg, t, who)
  {
    TraceStep(cfg, s.trace, e, who);
  }

  lemma QueuedInOrder(cfg: Config, s: System, t: System, packet: Packet, who: Who)
    requires InOrder(cfg, s, who) && RouteOf(cfg, packet) == To(who)
    requires t.Of(who) == Queued(s.Of(who), packet) && t.trace == s.trace + [Was(packet)]
    ensures InOrder(cfg, t, who)
  {
    TraceStep(cfg, s.trace, Was(packet), who);
    var popped, q := PoppedSince(s.trace, who), s.Of(who).queue;
    assert popped + (q + [packet]) == (popped + q) + [packet];
  }

  lemma PoppedInOrder(cfg: Config, s: System, who: Who)
    requires InOrder(cfg, s, who) && s.Of(who).queue != []
    ensures InOrder(cfg, Pop(s, who), who)
  {
    var popped, q := PoppedSince(s.trace, who), s.Of(who).queue;
    TraceStep(cfg, s.trace, Popped(who, q[0]), who);
    assert (popped + [q[0]]) + q[1..] == popped + q;
  }

  function Other(who: Who): Who {
    if who.Audio? then Video else Audio
  }

  lemma QueuedHeld(p: Provider, packet: Packet)
    ensures Held(Queued(p, packet)) == Held(p) + multiset{packet}
  {
  }

  lemma AddToOne(a: multiset<Packet>, b: multiset<Packet>, c: multiset<Packet>, d: multiset<Packet>,
                 x: multiset<Packet>)
    ensures a + (b + x) + c + d == a + b + c + d + x
    ensures a + b + (c + x) + d == a + b + c + d + x
    ensures a + b + c + (d + x) == a + b + c + d + x
    ensures (a + x) + b + c + d == a + b + c + d + x
  {
  }

  // A packet read is accounted for once it is held by one provider or ignored.
  lemma OneMoreAccounted(s: System, t: System, packet: Packet)
    requires Accounted(s) && t.trace == s.trace + [Was(packet)]
    requires var x := multiset{packet};
      || (Held(t.audio) == Held(s.audio) + x && t.video == s.video && t.ignored == s.ignored)
      || (t.audio == s.audio && Held(t.video) == Held(s.video) + x && t.ignored == s.ignored)
      || (t.audio == s.audio && t.video == s.video && t.ignored == s.ignored + [packet])
    ensures Accounted(t)
  {
    TraceCounts(s.trace, Was(packet));
    assert multiset(s.ignored + [packet]) == multiset(s.ignored) + multiset{packet};
    AddToOne(AllPopped(s.trace), Held(s.audio), Held(s.video), multiset(s.ignored), multiset{packet});
  }

  lemma ReadAccounted(cfg: Config, s: System)
    requires Accounted(s) && s.script != [] && s.script[0].Got?
    ensures Accounted(ReadPacket(cfg, s).0)
  {
    var packet := s.script[0].p;
    QueuedHeld(s.audio, packet);
    QueuedHeld(s.video, packet);
    OneMoreAccounted(s, ReadPacket(cfg, s).0, packet);
  }

  lemma ReadConserves(cfg: Config, s: System)
    requires Conserved(cfg, s)
    ensures Conserved(cfg, ReadPacket(cfg, s).0)
  {
    if s.script != [] && s.script[0].Got? {
      var packet, t := s.script[0].p, ReadPacket(cfg, s).0;
      match RouteOf(cfg, packet) {
        case Nobody =>
          OtherInOrder(cfg, s, t, Was(packet), Audio);
          OtherInOrder(cfg, s, t, Was(packet), Video);
        case To(who) =>
          QueuedInOrder(cfg, s, t, packet, who);
          OtherInOrder(cfg, s, t, Was(packet), Other(who));
      }
      ReadAccounted(cfg, s);
    }
  }

  lemma PopAccounted(s: System, who: Who)
    requires Accounted(s) && s.Of(who).queue != []
    ensures Accounted(Pop(s, who))
  {
    var q, after := s.Of(who).queue, Pop(s, who);
    TraceCounts(s.trace, Popped(who, q[0]));
    PoppedHeld(s.Of(who));
    AddToOne(AllPopped(s.trace), Held(after.audio), Held(after.video), multiset(s.ignored), multiset{q[0]});
  }

  lemma PoppedHeld(p: Provider)
    requires p.queue != []
    ensures Held(p) == Held(p.(queue := p.queue[1..])) + multiset{p.queue[0]}
  {
    assert p.queue == [p.queue[0]] + p.queue[1..];
  }

  lemma PopConserves(cfg: Config, s: System, who: Who)
    requires Conserved(cfg, s) && s.Of(who).queue != []
    ensures Conserved(cfg, Pop(s, who))
  {
    PoppedInOrder(cfg, s, who);
    OtherInOrder(cfg, s, Pop(s, who), Popped(who, s.Of(who).queue[0]), Other(who));
    PopAccounted(s, who);
  }

  lemma FlushedInOrder(cfg: Config, s: System, who: Who)
    requires InOrder(cfg, s, who)
    ensures InOrder(cfg, Flush(s, who), who) && Flush(s, who).Of(who).queue == []
  {
    TraceStep(cfg, s.trace, Flushed(who), who);
  }

  lemma FlushAccounted(s: System, who: Who)
    requires Accounted(s)
    ensures Accounted(Flush(s, who))
  {
    TraceCounts(s.trace, Flushed(who));
    assert Held(Flush(s, who).Of(who)) == Held(s.Of(who));
  }

  lemma FlushConserves(cfg: Config, s: System, who: Who)
    requires Conserved(cfg, s)
    ensures Conserved(cfg, Flush(s, who)) && Flush(s, who).Of(who).queue == []
  {
    var t := Flush(s, who);
    FlushedInOrder(cfg, s, who);
    OtherInOrder(cfg, s, t, Flushed(who), Other(who));
    FlushAccounted(s, who);
    assert InOrder(cfg, t, Audio) && InOrder(cfg, t, Video);
  }

  lemma SwitchedInOrder(cfg: Config, s: System, who: Who, on: bool)
    requires InOrder(cfg, s, who) && (!on ==> s.Of(who).queue == [])
    ensures InOrder(cfg, Switch(s, who, on), who)
  {
    TraceStep(cfg, s.trace, Switched(who, on), who);
  }

  lemma SwitchConserves(cfg: Config, s: System, who: Who, on: bool)
    requires Conserved(cfg, s) && (!on ==> s.Of(who).queue == [])
    ensures Conserved(cfg, Switch(s, who, on))
  {
    var t := Switch(s, who, on);
    SwitchedInOrder(cfg, s, who, on);
    OtherInOrder(cfg, s, t, Switched(who, on), Other(who));
    TraceCounts(s.trace, Switched(who, on));
    assert InOrder(cfg, t, Audio) && InOrder(cfg, t, Video);
  }

  lemma DisableConserves(cfg: Config, s: System, who: Who)
    requires Conserved(cfg, s)
    ensures Conserved(cfg, Disable(s, who))
  {
    FlushConserves(cfg, s, who);
    SwitchConserves(cfg, Flush(s, who), who, false);
  }

  lemma {:induction false} FillConserves(cfg: Config, s: System, who: Who)
    requires Conserved(cfg, s)
    ensures Conserved(cfg, Fill(cfg, s, who).0)
    decreases |s.script|
  {
    if s.Of(who).queue == [] {
      var (t, ok) := ReadPacket(cfg, s);
      ReadConserves(cfg, s);
      if ok { FillConserves(cfg, t, who); }
    }
  }

  lemma {:induction false} NextPacketConserves(cfg: Config, s: System, who: Who, allowSkip: bool,
                                               decode: Packet -> Decoded, errors: nat)
    requires Conserved(cfg, s)
    ensures Conserved(cfg, NextPacket(cfg, s, who, allowSkip, decode, errors).0)
    decreases |s.script| + |s.Of(who).queue|
  {
    var (t, ok) := Fill(cfg, s, who);
    FillConserves(cfg, s, who);
    if ok {
      var d := decode(t.Of(who).queue[0]);
      PopConserves(cfg, t, who);
      var v := MarkDiscontinuous(Pop(t, who), who, true);
      MarkConserves(cfg, Pop(t, who), who, true);
      if !d.Complete? && !(d.Broken? && !(allowSkip && errors < 10)) {
        NextPacketConserves(cfg, v, who, allowSkip, decode, if allowSkip then errors + 1 else errors);
      }
    }
  }

  // ---------- Whole runs ----------

  // The requests a media source makes of its providers, in any order. An uncompressed audio
  // provider asks for packets one by one, with or without skipping.
  datatype Request =
    | GetSample(who: Who, decode: Packet -> Decoded, written: bool)
    | GetPacket(who: Who, allowSkip: bool, decode: Packet -> Decoded)
    | FlushStream(who: Who)
    | SwitchOn(who: Who)
    | SwitchOff(who: Who)

  function Serve(cfg: Config, s: System, r: Request): System {
    match r
    case GetSample(who, decode, written) => NextSample(cfg, s, who, decode, written).0
    case GetPacket(who, allowSkip, decode) => NextPacket(cfg, s, who, allowSkip, decode, 0).0
    case FlushStream(who) => Flush(s, who)
    case SwitchOn(who) => Switch(s, who, true)
    case SwitchOff(who) => Disable(s, who)
  }

  function Run(cfg: Config, s: System, rs: seq<Request>): System
    decreases |rs|
  {
    if rs == [] then s else Run(cfg, Serve(cfg, s, rs[0]), rs[1..])
  }

  function Start(script: seq<Read>): System {
    System(script, Provider([], true, false, []), Provider([], true, false, []), [], [])
  }

  lemma SampleConserves(cfg: Config, s: System, who: Who, decode: Packet -> Decoded, written: bool)
    requires Conserved(cfg, s)
    ensures Conserved(cfg, NextSample(cfg, s, who, decode, written).0)
  {
    var t := NextPacket(cfg, s, who, true, decode, 0).0;
    NextPacketConserves(cfg, s, who, true, decode, 0);
    MarkConserves(cfg, t, who, false);
    DisableConserves(cfg, t, who);
  }

  lemma MarkConserves(cfg: Config, s: System, who: Who, on: bool)
    requires Conserved(cfg, s)
    ensures Conserved(cfg, MarkDiscontinuous(s, who, on))
  {
  }

  lemma ServeConserves(cfg: Config, s: System, r: Request)
    requires Conserved(cfg, s)
    ensures Conserved(cfg, Serve(cfg, s, r))
  {
    match r
    case GetSample(who, decode, written) => SampleConserves(cfg, s, who, decode, written);
    case GetPacket(who, allowSkip, decode) => NextPacketConserves(cfg, s, who, allowSkip, decode, 0);
    case FlushStream(who) => FlushConserves(cfg, s, who);
    case SwitchOn(who) => SwitchConserves(cfg, s, who, true);
    case SwitchOff(who) => DisableConserves(cfg, s, who);
  }

  // Under any interleaving of requests nothing is lost, duplicated or reordered.
  lemma {:induction false} RunConserves(cfg: Config, s: System, rs: seq<Request>)
    requires Conserved(cfg, s)
    ensures Conserved(cfg, Run(cfg, s, rs))
    decreases |rs|
  {
    if rs != [] {
      ServeConserves(cfg, s, rs[0]);
      RunConserves(cfg, Serve(cfg, s, rs[0]), rs[1..]);
    }
  }

  // Whatever the demuxer answers, from its first answer on.
  lemma FromStart(cfg: Config, script: seq<Read>, rs: seq<Request>)
    ensures Conserved(cfg, Run(cfg, Start(script), rs))
  {
    RunConserves(cfg, Start(script), rs);
  }

  // ---------- The classes ----------

  class MediaSampleProvider {
    var packetQueue: seq<Packet>
    var isEnabled: bool
    var isDiscontinuous: bool
    ghost var released: seq<Packet>

    constructor ()
      ensures Now() == Provider([], true, false, [])
    {
      packetQueue, isEnabled, isDiscontinuous, released := [], true, false, [];
    }

    ghost function Now(): Provider
      reads this
    {
      Provider(packetQueue, isEnabled, isDiscontinuous, released)
    }

    method QueuePacket(packet: Packet)
      modifies this
      ensures Now() == Queued(old(Now()), packet)
    {
      if isEnabled {
        packetQueue := packetQueue + [packet];
      } else {
        released := released + [packet];
      }
    }

    // The oldest packet, or a blank one.
    method PopPacket() returns (packet: Option<Packet>)
      modifies `packetQueue
      ensures if old(packetQueue) == [] then packet == None && packetQueue == []
        else packet == Some(old(packetQueue)[0]) && packetQueue == old(packetQueue)[1..]
    {
      packet := None;
      if packetQueue != [] {
        packet := Some(packetQueue[0]);
        packetQueue := packetQueue[1..];
      }
    }

    method Flush()
      modifies this
      ensures var p := old(Now()); Now() == p.(queue := [], discontinuous := true, released := p.released + p.queue)
    {
      ghost var all := released + packetQueue;
      while packetQueue != []
        invariant released + packetQueue == all && isEnabled == old(isEnabled)
        decreases |packetQueue|
      {
        assert packetQueue == [packetQueue[0]] + packetQueue[1..];
        var packet := PopPacket();
        released := released + [packet.value];
      }
      isDiscontinuous := true;
    }
  }

  // The reader with its two providers; requests to a provider come with the reader it pulls
  // through.
  class FFmpegReader {
    const cfg: Config
    const audioProvider: MediaSampleProvider
    const videoProvider: MediaSampleProvider
    var script: seq<Read>   // what the demuxer has yet to answer
    ghost var ignored: seq<Packet>
    ghost var trace: seq<Event>

    constructor (cfg: Config, script: seq<Read>)
      ensures Valid() && Now() == Start(script) && this.cfg == cfg
    {
      this.cfg, this.script, ignored, trace := cfg, script, [], [];
      audioProvider := new MediaSampleProvider();
      videoProvider := new MediaSampleProvider();
    }

    ghost predicate Valid() {
      audioProvider != videoProvider
    }

    ghost function Now(): System
      reads this, audioProvider, videoProvider
    {
      System(script, audioProvider.Now(), videoProvider.Now(), ignored, trace)
    }

    function ProviderOf(who: Who): MediaSampleProvider {
      if who.Audio? then audioProvider else videoProvider
    }

    // FFmpegReader::ReadPacket.
    method Read() returns (ok: bool)
      requires Valid()
      modifies this, audioProvider, videoProvider
      ensures (Now(), ok) == ReadPacket(cfg, old(Now()))
    {
      if script == [] {
        return false;
      }
      var answer := script[0];
      script := script[1..];
      if answer.Failed? {
        return false;
      }
      var packet := answer.p;
      if packet.stream == cfg.audioStream && cfg.hasAudio {
        audioProvider.QueuePacket(packet);
      } else if packet.stream == cfg.videoStream && cfg.hasVideo {
        videoProvider.QueuePacket(packet);
      } else {
        ignored := ignored + [packet];
      }
      trace := trace + [Was(packet)];
      ok := true;
    }

    // The inner loop of GetNextPacket.
    method FillQueue(who: Who) returns (ok: bool)
      requires Valid()
      modifies this, audioProvider, videoProvider
      ensures (Now(), ok) == Fill(cfg, old(Now()), who)
    {
      ghost var s := Now();
      while ProviderOf(who).packetQueue == []
        invariant Fill(cfg, Now(), who) == Fill(cfg, s, who)
        decreases |script|
      {
        ghost var n := |script|;
        var read := Read();
        if !read {
          return false;
        }
      }
      ok := true;
    }

    // GetNextPacket, up to the writing out of the packet.
    method GetNextPacket(who: Who, allowSkip: bool, decode: Packet -> Decoded) returns (ok: bool)
      requires Valid()
      modifies this, audioProvider, videoProvider
      ensures (Now(), ok) == NextPacket(cfg, old(Now()), who, allowSkip, decode, 0)
    {
      ghost var s := Now();
      var provider, errorCount := ProviderOf(who), 0;
      while true
        invariant NextPacket(cfg, Now(), who, allowSkip, decode, errorCount)
          == NextPacket(cfg, s, who, allowSkip, decode, 0)
        decreases |script| + |ProviderOf(who).packetQueue|
      {
        var filled := FillQueue(who);
        if !filled {
          return false;
        }
        var packet := provider.PopPacket();
        trace := trace + [Popped(who, packet.value)];
        var decoded := decode(packet.value);
        if decoded.Complete? {
          return true;
        }
        provider.isDiscontinuous := true;
        if allowSkip {
          errorCount := errorCount + 1;
        }
        if decoded.Broken? && !(allowSkip && errorCount <= 10) {
          return false;
        }
      }
    }

    method FlushProvider(who: Who)
      requires Valid()
      modifies `trace, ProviderOf(who)
      ensures Now() == Flush(old(Now()), who)
    {
      ProviderOf(who).Flush();
      trace := trace + [Flushed(who)];
    }

    method DisableStream(who: Who)
      requires Valid()
      modifies `trace, ProviderOf(who)
      ensures Now() == Disable(old(Now()), who)
    {
      FlushProvider(who);
      ProviderOf(who).isEnabled := false;
      trace := trace + [Switched(who, false)];
    }

    method EnableStream(who: Who)
      requires Valid()
      modifies `trace, ProviderOf(who)
      ensures Now() == Switch(old(Now()), who, true)
    {
      ProviderOf(who).isEnabled := true;
      trace := trace + [Switched(who, true)];
    }

    // GetNextSample of the base class; `written` tells whether the packet can be written out.
    method GetNextSample(who: Who, decode: Packet -> Decoded, written: bool) returns (sample: bool)
      requires Valid()
      modifies this, audioProvider, videoProvider
      ensures (Now(), sample) == NextSample(cfg, old(Now()), who, decode, written)
    {
      if !ProviderOf(who).isEnabled {
        return false;
      }
      var ok := GetNextPacket(who, true, decode);
      if ok && written {
        ProviderOf(who).isDiscontinuous := false;
        return true;
      }
      DisableStream(who);
      sample := false;
    }
  }
}
