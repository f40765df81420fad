// What the transform answers to valid calls, in terms of the run before.
module MftResults {
  import opened Common
  import opened Passage
  import opened Mft
  import opened MftDecoder

  // A decoder that gives another output type was opened, and the caller was not told yet.
  ghost predicate StreamChangeDue(codec: Codec, events: seq<Event>) {
    exists k: nat :: SetSince(codec, ChangeDue, events, k, |events|)
  }

  lemma DueIff(codec: Codec, events: seq<Event>)
    ensures StreamChangeDue(codec, events) <==> Run(codec, START, events).state.ctx.change
  {
    assert events[..|events|] == events;
    FlagIff(codec, ChangeDue, events, |events|);
    assert On(ChangeDue, At(codec, events, |events|)) <==> Run(codec, START, events).state.ctx.change;
  }

  // The samples still queued are those made that did not leave.
  lemma QueueIs(codec: Codec, events: seq<Event>)
    ensures var h := Run(codec, START, events);
      |h.done| <= |h.decoded| && h.state.ctx.queue == h.decoded[|h.done|..]
  {
    var h := Run(codec, START, events);
    RunConserves(codec, START, events);
    assert [] + h.decoded == h.decoded;
  }

  // What a call to ProcessOutput says of the queue.
  lemma OutputResult(codec: Codec, s: State, o: OutputCall)
    requires ValidOutput(o) && Allowed(s, TakeOutput(o))
    ensures var f := Step(codec, s, TakeOutput(o));
      && (f.hr.StreamChange? <==> s.ctx.change)
      && (f.hr.NeedMoreInput? <==> !s.ctx.change && s.ctx.queue == [])
      && (f.hr.Ok? <==> !s.ctx.change && s.ctx.queue != [] && (o.ours || o.copied))
      && (f.hr.Fail? <==> !s.ctx.change && s.ctx.queue != [] && !o.ours && !o.copied)
      && f.done == (if f.hr.Ok? then [Out(s.ctx.queue[0], Delivered)]
                    else if f.hr.Fail? then [Out(s.ctx.queue[0], CopyFailed)] else [])
      && f.next.input == s.input && f.next.output == (if f.hr.StreamChange? then None else s.output)
      && !f.next.ctx.change
  {
  }

  // Over whole runs, for every valid ProcessOutput call whose effect is defined: the caller is told
  // of a stream change exactly if one is due (and must set the output type again), asked for input
  // exactly if all samples made have left, and otherwise gets the oldest one left, unless its copy
  // fails.
  lemma OutputAnswers(codec: Codec, events: seq<Event>, o: OutputCall)
    requires ValidOutput(o) && Allowed(Run(codec, START, events).state, TakeOutput(o))
    ensures var h := Run(codec, START, events);
      var f, due := Step(codec, h.state, TakeOutput(o)), StreamChangeDue(codec, events);
      && (f.hr.StreamChange? <==> due)
      && (f.hr.NeedMoreInput? <==> !due && |h.done| == |h.decoded|)
      && (f.hr.Ok? <==> |h.done| < |h.decoded| && f.done == [Out(h.decoded[|h.done|], Delivered)])
      && (f.hr.Fail? <==> |h.done| < |h.decoded| && f.done == [Out(h.decoded[|h.done|], CopyFailed)])
      && (f.hr.Ok? || f.hr.Fail? || f.done == [])
      && (f.hr.Fail? ==> !o.ours && !o.copied)
      && f.next.output == (if due then None else h.state.output) && !f.next.ctx.change
  {
    DueIff(codec, events);
    QueueIs(codec, events);
    OutputResult(codec, Run(codec, START, events).state, o);
  }

  // ---------- Input ----------

  predicate ValidInput(i: InputCall) {
    i.sample && i.stream == 0 && i.flags == 0 && i.buffers > 0 && i.packet.Some?
  }

  // The packets a decoder was given since it was opened.
  function Packets(c: Context): seq<nat> {
    c.fed + match c.slot case None => [] case Some(p) => [p]
  }

  // What decoding says of the packet.
  lemma DecodedResult(codec: Codec, c: Context, packet: nat, outcome: Outcome)
    ensures var d := Decoded(codec, c, packet, outcome);
      && (d.hr.Ok? <==> d.decoded != [])
      && (d.hr.Ok? <==> exists f :: d.gone == [Out(f, Queued)])
      && (d.hr.False? <==> Packets(d.ctx) == Packets(c) + [packet] && d.gone == [] && !outcome.ReceiveFails?)
      && (d.hr.Ok? ==> Packets(d.ctx) == Packets(c) + [packet] && |d.decoded| == 1)
      && (d.hr.NotAccepting? || d.hr.Unexpected? ==> d.ctx == c && d.owed == [])
  {
    var d := Decoded(codec, c, packet, outcome);
    if d.ctx == c {
      assert |Packets(c)| != |Packets(c) + [packet]|;
    } else if c.pending == [] {
      assert c.slot.None? ==> Packets(c) == c.fed;
    }
    if d.hr.Ok? { assert d.gone == [Out(d.gone[0].item, Queued)]; }
  }

  // The context decoded in holds the packets and the samples of the one before.
  lemma OpenedKeeps(s: State, i: InputCall)
    requires Consistent(s)
    ensures Packets(Opened(s, i)) == Packets(s.ctx) && Opened(s, i).queue == s.ctx.queue
  {
  }

  lemma InputResult(codec: Codec, s: State, i: InputCall)
    requires ValidInput(i) && Consistent(s)
    ensures var f := Step(codec, s, GiveInput(i));
      if Reaches(s, i) then
        var d := Decoded(codec, Opened(s, i), i.packet.value, i.outcome);
        f.hr == d.hr && f.next.ctx == d.ctx && f.gone == d.gone && f.decoded == d.decoded
      else
        && !f.hr.Ok? && !f.hr.False? && !f.hr.Unexpected? && f.decoded == [] && f.gone == []
        && f.next.ctx.queue == s.ctx.queue
        && Packets(f.next.ctx) == Packets(s.ctx)
  {
    OpenedKeeps(s, i);
  }

  // Over whole runs, for every valid ProcessInput call: Ok exactly if one sample was made and queued,
  // False exactly if the decoder took the packet and has no frame to give.
  lemma InputAnswers(codec: Codec, events: seq<Event>, i: InputCall)
    requires ValidInput(i)
    ensures var s := Run(codec, START, events).state;
      var f := Step(codec, s, GiveInput(i));
      && (f.hr.Ok? <==> |f.decoded| == 1)
      && (f.hr.Ok? ==> f.next.ctx.queue == s.ctx.queue + f.decoded)
      && (!f.hr.Ok? ==> f.next.ctx.queue == s.ctx.queue)
      && (f.hr.False? <==> Packets(f.next.ctx) == Packets(s.ctx) + [i.packet.value] && f.gone == []
                           && !i.outcome.ReceiveFails?)
  {
    var s := Run(codec, START, events).state;
    RunConsistent(codec, START, events);
    InputResult(codec, s, i);
    OpenedKeeps(s, i);
    DecodedResult(codec, Opened(s, i), i.packet.value, i.outcome);
    DecodedJoins(codec, Opened(s, i), i.packet.value, i.outcome);
    assert |Packets(s.ctx)| != |Packets(s.ctx) + [i.packet.value]|;
  }

  // When the other answers are given: after a shutdown, without types, and when opening, sending,
  // receiving or converting fails.
  lemma OtherAnswersIff(codec: Codec, s: State, i: InputCall)
    requires ValidInput(i) && Consistent(s)
    ensures var f := Step(codec, s, GiveInput(i));
      var live := !s.shutdown && !s.draining && !s.formatChange;
      var c := Opened(s, i);
      var frames := c.pending != [] || codec.decode(c.input, c.fed, i.packet.value) != [];
      && (f.hr.ShutDown? <==> s.shutdown)
      && (f.hr.Pointer? <==> live && !s.ctx.initialized && (s.input.None? || s.output.None?))
      && (f.hr.Fail? <==>
           || (live && !s.ctx.initialized && s.input.Some? && s.output.Some? && !i.init.InitDone?)
           || (Reaches(s, i) && c.slot.None?
               && (i.outcome.SendFails? || if frames then !i.outcome.Fine? else i.outcome.ReceiveFails?)))
  {
  }

  // ---------- Types and messages ----------

  // The request can be met: a type is cleared, or a valid one is given.
  predicate Meets(t: TypeCall) {
    t.stream == 0 && (t.kind.None? || t.valid)
  }

  // A request that is only a test, or fails, changes nothing; any other has its type set, and asks
  // for a new decoder exactly if it gives a type.
  lemma TypeAnswers(codec: Codec, s: State, t: TypeCall, input: bool)
    ensures var f := Step(codec, s, if input then ChangeInputType(t) else ChangeOutputType(t));
      var kind := if input then f.next.input else f.next.output;
      && (f.hr.Ok? <==> Meets(t) && (input || s.input.Some?))
      && (f.hr.TypeNotSet? <==> !input && t.stream == 0 && s.input.None?)
      && (f.hr.InvalidStream? <==> t.stream != 0)
      && (f.hr.Ok? && (t.kind.None? || !t.testOnly) ==>
            kind == t.kind && (f.next.formatChange <==> s.formatChange || t.kind.Some?))
      && (!f.hr.Ok? || (t.kind.Some? && t.testOnly) ==> f.next == s)
      && f.next.ctx == s.ctx && (if input then f.next.output == s.output else f.next.input == s.input)
  {
  }

  // A drain stops input until the queue is empty, if there is a decoder to drain; the end of a stream
  // ends streaming, its start begins it.
  lemma MessageAnswers(codec: Codec, s: State, reset: bool, stream: nat)
    requires !s.shutdown
    ensures var f := Step(codec, s, Drain(reset));
      && (f.next.draining <==> s.draining || s.ctx.initialized) && (f.hr.Fail? <==> s.ctx.initialized && !reset)
      && (f.hr.Ok? || f.hr.Fail?) && f.next.ctx.queue == s.ctx.queue
    ensures var f := Step(codec, s, EndOfStream(stream));
      && (f.hr.InvalidStream? <==> stream != 0) && (f.hr.Ok? <==> stream == 0)
      && (f.next.streaming <==> s.streaming && stream != 0)
    ensures var f := Step(codec, s, StartOfStream); f.hr.Ok? && f.next.streaming && f.next.ctx.queue == []
  {
  }

  // Nothing of the packets before is left in the decoder.
  predicate Anew(c: Context) {
    Packets(c) == [] && c.pending == []
  }

  // After a drain, a flush or the start of a stream the decoder begins anew, with the same types; a
  // shutdown, which can happen once, drops the types and all samples as well.
  lemma BeginsAnew(codec: Codec, s: State, reset: bool)
    requires Consistent(s)
    ensures !s.shutdown ==> forall e :: e in {Drain(reset), Flush, StartOfStream} ==>
      var t := Step(codec, s, e).next;
      Anew(t.ctx) && t.ctx.initialized == s.ctx.initialized && t.input == s.input && t.output == s.output
      && t.ctx.queue == if e.Drain? then s.ctx.queue else []
    ensures var f := Step(codec, s, Close);
      && (f.hr.Ok? <==> !s.shutdown) && (f.hr.ShutDown? <==> s.shutdown) && f.next.shutdown
      && (!s.shutdown ==> f.next.input.None? && f.next.output.None? && f.next.ctx == FRESH)
  {
  }

  // Calls that are not in order change nothing, and say why.
  lemma InvalidCalls(codec: Codec, s: State, i: InputCall, o: OutputCall)
    ensures !i.sample || i.stream != 0 || i.flags != 0 || i.buffers == 0 ==>
      var f := Step(codec, s, GiveInput(i));
      && f.next == s && f.decoded == []
      && (f.hr.Pointer? <==> !i.sample) && (f.hr.InvalidStream? <==> i.sample && i.stream != 0)
      && (f.hr.InvalidArg? <==> i.sample && i.stream == 0 && i.flags != 0)
      && (f.hr.Ok? <==> i.sample && i.stream == 0 && i.flags == 0)
    ensures !ValidOutput(o) ==>
      var f := Step(codec, s, TakeOutput(o));
      && f.next == s && f.done == []
      && (f.hr.Pointer? <==> !o.pointers) && (f.hr.InvalidArg? <==> o.pointers && o.buffers == 0)
      && (f.hr.InvalidStream? <==> o.pointers && o.buffers > 0 && o.stream != 0)
  {
  }

  // A sample that gives no packet is never accepted.
  lemma NoPacketFails(codec: Codec, s: State, i: InputCall)
    requires i.packet.None? && i.sample && i.stream == 0 && i.flags == 0 && i.buffers > 0
    ensures var f := Step(codec, s, GiveInput(i));
      !f.hr.Succeeded() && f.decoded == [] && f.owed == [] && f.next.ctx.queue == s.ctx.queue
  {
  }
}
