// Which packets reach which provider, and when a request for a packet succeeds, by the streams of
// the packets alone.
module DemuxRoutes {
  import opened Common
  import opened Demux

  // The packet is of the provider's stream; a stream that both want goes to the audio.
  predicate Ours(cfg: Config, who: Who, p: Packet) {
    match who
    case Audio => cfg.hasAudio && p.stream == cfg.audioStream
    case Video => cfg.hasVideo && p.stream == cfg.videoStream && !(cfg.hasAudio && p.stream == cfg.audioStream)
  }

  // The packets of the provider's stream read since its last flush while it was enabled.
  ghost function Own(cfg: Config, trace: seq<Event>, who: Who): (r: seq<Packet>)
    ensures forall k :: 0 <= k < |r| ==> Ours(cfg, who, r[k])
  {
    if trace == [] then [] else
      var before := trace[..|trace| - 1];
      match trace[|trace| - 1]
      case Was(p) => Own(cfg, before, who) + (if Ours(cfg, who, p) && On(before, who) then [p] else [])
      case Flushed(w) => if w == who then [] else Own(cfg, before, who)
      case _ => Own(cfg, before, who)
  }

  lemma {:induction false} OwnIsDue(cfg: Config, trace: seq<Event>, who: Who)
    ensures Own(cfg, trace, who) == Due(cfg, trace, who)
  {
    if trace != [] { OwnIsDue(cfg, trace[..|trace| - 1], who); }
  }

  // Over every run: what a provider popped, then what it has queued, are exactly the packets of its
  // own stream, in order.
  lemma RunDeliversOwn(cfg: Config, script: seq<Read>, rs: seq<Request>, who: Who)
    ensures var s := Run(cfg, Start(script), rs);
      PoppedSince(s.trace, who) + s.Of(who).queue == Own(cfg, s.trace, who)
  {
    var s := Run(cfg, Start(script), rs);
    FromStart(cfg, script, rs);
    OwnIsDue(cfg, s.trace, who);
    assert InOrder(cfg, s, Audio) && InOrder(cfg, s, Video);
  }

  // ---------- When a request succeeds ----------

  // The packets of its stream the demuxer gives before it next fails.
  function Upcoming(cfg: Config, script: seq<Read>, who: Who, enabled: bool): seq<Packet> {
    if script == [] || script[0].Failed? then []
    else
      (if enabled && Ours(cfg, who, script[0].p) then [script[0].p] else [])
        + Upcoming(cfg, script[1..], who, enabled)
  }

  // Those waiting, and those to come.
  function Ahead(cfg: Config, s: System, who: Who): seq<Packet> {
    s.Of(who).queue + Upcoming(cfg, s.script, who, s.Of(who).enabled)
  }

  lemma ReadAhead(cfg: Config, s: System, who: Who)
    requires s.Of(who).queue == []
    ensures var (t, ok) := ReadPacket(cfg, s);
      && (ok <==> s.script != [] && s.script[0].Got?)
      && (ok ==> Ahead(cfg, t, who) == Ahead(cfg, s, who))
      && (!ok ==> Ahead(cfg, s, who) == [])
      && t.Of(who).enabled == s.Of(who).enabled && t.Of(who).discontinuous == s.Of(who).discontinuous
  {
  }

  // Reading on goes as far as the next packet for the provider.
  lemma {:induction false} FillAhead(cfg: Config, s: System, who: Who)
    ensures var (t, ok) := Fill(cfg, s, who);
      && (ok <==> Ahead(cfg, s, who) != []) && (ok ==> Ahead(cfg, t, who) == Ahead(cfg, s, who))
      && t.Of(who).enabled == s.Of(who).enabled && t.Of(who).discontinuous == s.Of(who).discontinuous
    decreases |s.script|
  {
    if s.Of(who).queue == [] {
      var (t, ok) := ReadPacket(cfg, s);
      ReadAhead(cfg, s, who);
      if ok { FillAhead(cfg, t, who); }
    }
  }

  // A packet that does not complete is passed over: a partial one always, a broken one only as one
  // of the first ten, and only if that is allowed.
  predicate PassedOver(d: Decoded, allowSkip: bool, before: nat) {
    d.Partial? || (d.Broken? && allowSkip && before < 10)
  }

  // Packet k is the first to complete, and all before it are passed over.
  predicate CompletesAt(decode: Packet -> Decoded, u: seq<Packet>, allowSkip: bool, before: nat, k: nat) {
    && k < |u| && decode(u[k]).Complete?
    && forall i :: 0 <= i < k ==> PassedOver(decode(u[i]), allowSkip, before + i)
  }

  lemma PopAhead(cfg: Config, s: System, who: Who)
    requires s.Of(who).queue != []
    ensures Ahead(cfg, s, who) != [] && Ahead(cfg, s, who)[0] == s.Of(who).queue[0]
    ensures Ahead(cfg, Pop(s, who), who) == Ahead(cfg, s, who)[1..]
    ensures Ahead(cfg, MarkDiscontinuous(Pop(s, who), who, true), who) == Ahead(cfg, s, who)[1..]
  {
  }

  lemma CompletesLater(decode: Packet -> Decoded, u: seq<Packet>, allowSkip: bool, before: nat, k: nat)
    requires u != [] && PassedOver(decode(u[0]), allowSkip, before)
    ensures CompletesAt(decode, u, allowSkip, before, k + 1) <==> CompletesAt(decode, u[1..], allowSkip, before + 1, k)
  {
    if CompletesAt(decode, u[1..], allowSkip, before + 1, k) {
      forall i | 0 <= i < k + 1 ensures PassedOver(decode(u[i]), allowSkip, before + i) {
        if i > 0 { assert PassedOver(decode(u[1..][i - 1]), allowSkip, before + 1 + (i - 1)); }
      }
    }
    if CompletesAt(decode, u, allowSkip, before, k + 1) {
      forall i | 0 <= i < k ensures PassedOver(decode(u[1..][i]), allowSkip, before + 1 + i) {
        assert PassedOver(decode(u[i + 1]), allowSkip, before + (i + 1));
      }
    }
  }

  // A request succeeds exactly if one of the packets ahead completes and all before it are passed
  // over; then the packets after it are still ahead, and
  // the next sample counts as discontinuous if any was passed over.
  lemma {:induction false} NextPacketIff(cfg: Config, s: System, who: Who, allowSkip: bool, decode: Packet -> Decoded,
                                         errors: nat)
    requires !allowSkip ==> errors == 0
    ensures var (t, ok) := NextPacket(cfg, s, who, allowSkip, decode, errors);
      && (ok <==> exists k: nat :: CompletesAt(decode, Ahead(cfg, s, who), allowSkip, errors, k))
      && (ok ==> exists k: nat :: CompletesAt(decode, Ahead(cfg, s, who), allowSkip, errors, k)
                                  && Ahead(cfg, t, who) == Ahead(cfg, s, who)[k + 1..]
                                  && (t.Of(who).discontinuous <==> s.Of(who).discontinuous || k > 0))
      && t.Of(who).enabled == s.Of(who).enabled
    decreases |s.script| + |s.Of(who).queue|
  {
    var u := Ahead(cfg, s, who);
    var (t, ok) := Fill(cfg, s, who);
    FillAhead(cfg, s, who);
    if ok {
      PopAhead(cfg, t, who);
      var v := MarkDiscontinuous(Pop(t, who), who, true);
      var n := if allowSkip then errors + 1 else errors;
      if decode(u[0]).Complete? {
        assert CompletesAt(decode, u, allowSkip, errors, 0);
      } else if PassedOver(decode(u[0]), allowSkip, errors) {
        NextPacketIff(cfg, v, who, allowSkip, decode, n);
        PassedFirst(decode, u, allowSkip, errors, n);
        if NextPacket(cfg, v, who, allowSkip, decode, n).1 {
          var k: nat :| CompletesAt(decode, u[1..], allowSkip, n, k)
            && Ahead(cfg, NextPacket(cfg, v, who, allowSkip, decode, n).0, who) == u[1..][k + 1..]
            && NextPacket(cfg, v, who, allowSkip, decode, n).0.Of(who).discontinuous;
          PassedAt(decode, u, allowSkip, errors, n, k);
          assert u[1..][k + 1..] == u[k + 1 + 1..];
        }
      } else {
        StopsAtFirst(decode, u, allowSkip, errors);
      }
    }
  }

  lemma StopsAtFirst(decode: Packet -> Decoded, u: seq<Packet>, allowSkip: bool, before: nat)
    requires u != [] && !decode(u[0]).Complete? && !PassedOver(decode(u[0]), allowSkip, before)
    ensures !exists k: nat :: CompletesAt(decode, u, allowSkip, before, k)
  {
    assert before + 0 == before;
  }

  lemma PassedAt(decode: Packet -> Decoded, u: seq<Packet>, allowSkip: bool, before: nat, n: nat, k: nat)
    requires u != [] && PassedOver(decode(u[0]), allowSkip, before)
    requires if allowSkip then n == before + 1 else n == before
    ensures CompletesAt(decode, u, allowSkip, before, k + 1) <==> CompletesAt(decode, u[1..], allowSkip, n, k)
  {
    CompletesLater(decode, u, allowSkip, before, k);
  }

  lemma PassedFirst(decode: Packet -> Decoded, u: seq<Packet>, allowSkip: bool, before: nat, n: nat)
    requires u != [] && !decode(u[0]).Complete? && PassedOver(decode(u[0]), allowSkip, before)
    requires if allowSkip then n == before + 1 else n == before
    ensures (exists k: nat :: CompletesAt(decode, u, allowSkip, before, k))
      <==> (exists k: nat :: CompletesAt(decode, u[1..], allowSkip, n, k))
  {
    if k: nat :| CompletesAt(decode, u, allowSkip, before, k) {
      PassedAt(decode, u, allowSkip, before, n, k - 1);
    }
    if k: nat :| CompletesAt(decode, u[1..], allowSkip, n, k) {
      PassedAt(decode, u, allowSkip, before, n, k);
    }
  }

  // A sample is given exactly if the provider is enabled, a packet completes and can be written out;
  // otherwise an enabled provider is disabled, with nothing queued.
  lemma SampleIff(cfg: Config, s: System, who: Who, decode: Packet -> Decoded, written: bool)
    ensures var (t, ok) := NextSample(cfg, s, who, decode, written);
      && (ok <==> s.Of(who).enabled && written
                  && exists k: nat :: CompletesAt(decode, Ahead(cfg, s, who), true, 0, k))
      && (ok ==> t.Of(who).enabled && !t.Of(who).discontinuous)
      && (!ok && s.Of(who).enabled ==> !t.Of(who).enabled && t.Of(who).queue == [] && t.Of(who).discontinuous)
      && (!s.Of(who).enabled ==> t == s)
  {
    NextPacketIff(cfg, s, who, true, decode, 0);
  }
}
