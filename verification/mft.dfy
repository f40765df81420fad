// FFmpegDecoderMFT, with the parts of FFmpegContext and DecoderBase it stands on: a transform
// that takes compressed samples, queues what they decode to, and hands the queue out, under
// drain, flush, stream start, type change and shutdown.
module Mft {
  import opened Common
  import opened Passage

  // Media types are compared only; a sample remembers the input type it was decoded under.
  datatype Sample = Sample(frame: nat, input: nat)

  datatype HResult =
    | Ok | False | Pointer | InvalidArg | InvalidStream | Fail | Unexpected
    | NotAccepting | ShutDown | StreamChange | NeedMoreInput | TypeNotSet
    | Undefined   // a null output type, or a context that was disposed of, is used
  {
    predicate Succeeded() { Ok? || False? }
  }

  // ---------- What the environment answers ----------

  // A codec is known by the frames it gives for a packet, and by those it still owes at the end of
  // a stream, both for an input type and the packets before. Packets and frames are numbers.
  datatype Codec = Codec(decode: (nat, seq<nat>, nat) -> seq<nat>, held: (nat, seq<nat>) -> seq<nat>)

  // FFmpegContext.Initialize: a failure before the transform helper exists leaves the context
  // uninitialised; a failure of the helper does not.
  datatype Init = InitFailed | HelperFailed(change: bool) | InitDone(change: bool)

  // Where decoding fails: on sending, on receiving a frame, or on making a sample of it.
  datatype Outcome = Fine | SendFails | ReceiveFails | ConvertFails

  datatype InputCall =
    InputCall(sample: bool, stream: nat, flags: nat, buffers: nat, packet: Option<nat>, init: Init, outcome: Outcome)

  // `ours`: the transform allocates the sample; otherwise it is copied, which may fail.
  datatype OutputCall = OutputCall(pointers: bool, buffers: nat, stream: nat, ours: bool, copied: bool)

  datatype TypeCall = TypeCall(stream: nat, kind: Option<nat>, valid: bool, testOnly: bool)

  datatype Event =
    | GiveInput(i: InputCall)
    | TakeOutput(o: OutputCall)
    | StartOfStream
    | EndOfStream(stream: nat)
    | Drain(reset: bool)
    | Flush
    | OtherMessage
    | ChangeInputType(t: TypeCall)
    | ChangeOutputType(t: TypeCall)
    | Close

  // ---------- Specification ----------

  // The queue holds the oldest sample first. Of the decoder: the packets decoded since it was
  // opened, their frames not yet received, and the one packet it takes before those are.
  datatype Context = Context(
    initialized: bool, change: bool, input: nat, fed: seq<nat>, pending: seq<nat>, slot: Option<nat>,
    queue: seq<Sample>)

  const FRESH: Context := Context(false, false, 0, [], [], None, [])

  datatype State = State(
    input: Option<nat>, output: Option<nat>,
    draining: bool, streaming: bool, formatChange: bool, shutdown: bool, ctx: Context)

  const START: State := State(None, None, false, false, false, false, FRESH)

  // How a decoded sample left the queue.
  datatype Fate = Delivered | CopyFailed | FlushedOut | ShutDownWith
  type Done = Out<Sample, Fate>

  // How a frame left the decoder.
  datatype Way = Queued | NotQueued | Discarded
  type Gone = Out<nat, Way>

  // `owed`: the frames of the packet accepted, or those a decoder closed was still holding back.
  datatype Effect = Effect(
    next: State, hr: HResult, owed: seq<nat>, gone: seq<Gone>, decoded: seq<Sample>, done: seq<Done>)

  // A call that moves no frame and no sample.
  function Quiet(s: State, hr: HResult): Effect {
    Effect(s, hr, [], [], [], [])
  }

  // The frames of accepted packets that are still in the decoder.
  function Inside(codec: Codec, c: Context): seq<nat> {
    c.pending + match c.slot case None => [] case Some(p) => codec.decode(c.input, c.fed, p)
  }

  // The frames an open decoder would give at the end of the stream, after those.
  function Held(codec: Codec, c: Context): seq<nat> {
    if c.initialized then codec.held(c.input, c.fed + match c.slot case None => [] case Some(p) => [p]) else []
  }

  // What is lost when the decoder is closed.
  function Lost(codec: Codec, c: Context): seq<nat> {
    Inside(codec, c) + Held(codec, c)
  }

  function Reopened(c: Context): Context {
    c.(fed := [], pending := [], slot := None)
  }

  // Initialize, if it is due.
  function Initialized(c: Context, input: Option<nat>, output: Option<nat>, init: Init): (Context, HResult) {
    if c.initialized then (c, Ok)
    else if input.None? || output.None? then (c, Pointer)
    else match init
      case InitFailed => (c, Fail)
      case HelperFailed(change) => (c.(initialized := true, change := change, input := input.value), Fail)
      case InitDone(change) => (c.(initialized := true, change := change, input := input.value), Ok)
  }

  datatype Answer = Taken | Again | Failed

  // avcodec_send_packet: a packet joins those decoded when all their frames were received, and
  // waits in the slot otherwise; with the slot taken it is refused.
  function Sent(codec: Codec, c: Context, packet: nat): Context {
    if c.pending == [] then c.(fed := c.fed + [packet], pending := codec.decode(c.input, c.fed, packet))
    else c.(slot := Some(packet))
  }

  datatype Decoding = Decoding(ctx: Context, hr: HResult, owed: seq<nat>, gone: seq<Gone>, decoded: seq<Sample>)

  // One packet is sent, one frame received.
  function Decoded(codec: Codec, c: Context, packet: nat, outcome: Outcome): Decoding {
    if c.change then Decoding(c, NotAccepting, [], [], [])
    else if c.slot.Some? then Decoding(c, Unexpected, [], [], [])
    else if outcome.SendFails? then Decoding(c, Fail, [], [], [])
    else
      var owed, t := codec.decode(c.input, c.fed, packet), Sent(codec, c, packet);
      if t.pending == [] then Decoding(t, if outcome.ReceiveFails? then Fail else False, owed, [], [])
      else
        var f, u := t.pending[0], t.(pending := t.pending[1..]);
        if outcome.Fine? then
          var x := Sample(f, c.input);
          Decoding(u.(queue := u.queue + [x]), Ok, owed, [Out(f, Queued)], [x])
        else Decoding(u, Fail, owed, [Out(f, NotQueued)], [])
  }

  function Input(codec: Codec, s: State, i: InputCall): Effect {
    if !i.sample then Quiet(s, Pointer)
    else if i.stream != 0 then Quiet(s, InvalidStream)
    else if i.flags != 0 then Quiet(s, InvalidArg)
    else if i.buffers == 0 then Quiet(s, Ok)
    else if s.shutdown then Quiet(s, ShutDown)
    else if s.draining || s.formatChange then Quiet(s, NotAccepting)
    else
      var (ctx, hr) := Initialized(s.ctx, s.input, s.output, i.init);
      if !hr.Succeeded() then Quiet(s.(ctx := ctx), hr)
      else if i.packet.None? then Quiet(s.(ctx := ctx), Fail)
      else
        var d := Decoded(codec, ctx, i.packet.value, i.outcome);
        Effect(s.(ctx := d.ctx), d.hr, d.owed, d.gone, d.decoded, [])
  }

  predicate ValidOutput(o: OutputCall) {
    o.pointers && o.buffers >= 1 && o.stream == 0
  }

  // Draining ends, and the context is rebuilt, only with an empty queue.
  function Settled(codec: Codec, s: State, hr: HResult, done: seq<Done>): Effect {
    if s.ctx.queue != [] then Effect(s, hr, [], [], [], done)
    else if !s.formatChange then Effect(s.(draining := false), hr, [], [], [], done)
    else
      Effect(s.(draining := false, formatChange := false, ctx := FRESH), hr, Held(codec, s.ctx),
             Mark(Lost(codec, s.ctx), Discarded), [], done)
  }

  function Output(codec: Codec, s: State, o: OutputCall): Effect {
    if !o.pointers then Quiet(s, Pointer)
    else if o.buffers < 1 then Quiet(s, InvalidArg)
    else if o.stream != 0 then Quiet(s, InvalidStream)
    else if s.ctx.change then Quiet(s.(ctx := s.ctx.(change := false), output := None), StreamChange)
    else if s.ctx.queue == [] then Settled(codec, s, NeedMoreInput, [])
    else
      var kept := o.ours || o.copied;
      Settled(codec, s.(ctx := s.ctx.(queue := s.ctx.queue[1..])), if kept then Ok else Fail,
              [Out(s.ctx.queue[0], if kept then Delivered else CopyFailed)])
  }

  // FFmpegContext.Flush: the queue is emptied and the decoder opened anew.
  function Flushed(codec: Codec, s: State): Effect {
    Effect(s.(ctx := Reopened(s.ctx).(queue := [])), Ok, Held(codec, s.ctx), Mark(Lost(codec, s.ctx), Discarded), [],
           Mark(s.ctx.queue, FlushedOut))
  }

  function InputTyped(s: State, t: TypeCall): Effect {
    if t.stream != 0 then Quiet(s, InvalidStream)
    else if t.kind.None? then Quiet(s.(input := None), Ok)
    else if !t.valid then Quiet(s, Fail)
    else if t.testOnly then Quiet(s, Ok)
    else Quiet(s.(input := t.kind, formatChange := true), Ok)
  }

  function OutputTyped(s: State, t: TypeCall): Effect {
    if t.stream != 0 then Quiet(s, InvalidStream)
    else if s.input.None? then Quiet(s, TypeNotSet)
    else if t.kind.None? then Quiet(s.(output := None), Ok)
    else if !t.valid then Quiet(s, Fail)
    else if t.testOnly then Quiet(s, Ok)
    else Quiet(s.(output := t.kind, formatChange := true), Ok)
  }

  // Calls whose effect the source defines: a context is disposed of at shutdown, and a stream
  // change copies the output type.
  predicate Allowed(s: State, e: Event) {
    match e
    case TakeOutput(o) => ValidOutput(o) ==> !s.shutdown && (s.ctx.change ==> s.output.Some?)
    case StartOfStream => !s.shutdown
    case Drain(_) => !s.shutdown
    case Flush => !s.shutdown
    case _ => true
  }

  function Step(codec: Codec, s: State, e: Event): Effect {
    if !Allowed(s, e) then Quiet(s, Undefined)
    else match e
      case GiveInput(i) => Input(codec, s, i)
      case TakeOutput(o) => Output(codec, s, o)
      case StartOfStream =>
        var f := Flushed(codec, s);
        f.(next := f.next.(streaming := true))
      case EndOfStream(stream) =>
        if stream == 0 then Quiet(s.(streaming := false), Ok) else Quiet(s, InvalidStream)
      case Drain(reset) =>
        if !s.ctx.initialized then Quiet(s, Ok)
        else
          Effect(s.(draining := true, ctx := Reopened(s.ctx)), if reset then Ok else Fail, Held(codec, s.ctx),
                 Mark(Lost(codec, s.ctx), Discarded), [], [])
      case Flush => if s.ctx.initialized then Flushed(codec, s) else Quiet(s, Ok)
      case OtherMessage => Quiet(s, Ok)
      case ChangeInputType(t) => InputTyped(s, t)
      case ChangeOutputType(t) => OutputTyped(s, t)
      case Close =>
        if s.shutdown then Quiet(s, ShutDown)
        else
          Effect(s.(input := None, output := None, shutdown := true, ctx := FRESH), Ok, Held(codec, s.ctx),
                 Mark(Lost(codec, s.ctx), Discarded), [], Mark(s.ctx.queue, ShutDownWith))
  }

  // ---------- Whole runs ----------

  datatype History = History(
    state: State, owed: seq<nat>, gone: seq<Gone>, decoded: seq<Sample>, done: seq<Done>)

  function Run(codec: Codec, s: State, events: seq<Event>): History
    decreases |events|, s
  {
    if events == [] then History(s, [], [], [], [])
    else
      var h := Run(codec, s, events[..|events| - 1]);
      var f := Step(codec, h.state, events[|events| - 1]);
      History(f.next, h.owed + f.owed, h.gone + f.gone, h.decoded + f.decoded, h.done + f.done)
  }

  lemma OutputConserves(codec: Codec, s: State, o: OutputCall)
    ensures var f := Output(codec, s, o);
      f.decoded == [] && s.ctx.queue == Items(f.done) + f.next.ctx.queue
  {
    var f := Output(codec, s, o);
    if f.done != [] {
      assert Items(f.done) == [s.ctx.queue[0]];
    }
  }

  // A sample that is made joins the end of the queue, under the input type of the context.
  lemma DecodedJoins(codec: Codec, c: Context, packet: nat, outcome: Outcome)
    ensures var d := Decoded(codec, c, packet, outcome);
      && d.ctx.queue == c.queue + d.decoded && d.ctx.input == c.input
      && d.ctx.initialized == c.initialized && d.ctx.change == c.change
      && forall k :: 0 <= k < |d.decoded| ==> d.decoded[k].input == c.input
  {
  }

  lemma InputConserves(codec: Codec, s: State, i: InputCall)
    ensures var f := Input(codec, s, i);
      f.done == [] && s.ctx.queue + f.decoded == f.next.ctx.queue
  {
    var ctx := Initialized(s.ctx, s.input, s.output, i.init).0;
    assert ctx.queue == s.ctx.queue;
    if i.packet.Some? { DecodedJoins(codec, ctx, i.packet.value, i.outcome); }
  }

  // One call puts at the back of the queue what it decodes and takes what it is done with from
  // the front; so a rebuilt context never had samples.
  lemma StepConserves(codec: Codec, s: State, e: Event)
    ensures var f := Step(codec, s, e);
      s.ctx.queue + f.decoded == Items(f.done) + f.next.ctx.queue
  {
    match e
    case GiveInput(i) => InputConserves(codec, s, i);
    case TakeOutput(o) => OutputConserves(codec, s, o);
    case Close => MarkedItems(s.ctx.queue, ShutDownWith);
    case StartOfStream => MarkedItems(s.ctx.queue, FlushedOut);
    case Flush => MarkedItems(s.ctx.queue, FlushedOut);
    case _ =>
  }

  // The samples decoded in a run are, in order, those that left the queue and those in it.
  lemma {:induction false} RunConserves(codec: Codec, s: State, events: seq<Event>)
    ensures var h := Run(codec, s, events);
      s.ctx.queue + h.decoded == Items(h.done) + h.state.ctx.queue
  {
    if events != [] {
      var h, last := Run(codec, s, events[..|events| - 1]), events[|events| - 1];
      var f := Step(codec, h.state, last);
      RunConserves(codec, s, events[..|events| - 1]);
      StepConserves(codec, h.state, last);
      ItemsAppend(h.done, f.done);
      Through(s.ctx.queue, h.decoded, Items(h.done), h.state.ctx.queue,
              f.decoded, Items(f.done), f.next.ctx.queue);
    }
  }

  // A call that throws samples away: it empties a queue that holds some, or its copy fails.
  predicate Loses(s: State, e: Event) {
    && Allowed(s, e) && s.ctx.queue != []
    && match e
       case StartOfStream => true
       case Flush => s.ctx.initialized
       case Close => !s.shutdown
       case TakeOutput(o) => ValidOutput(o) && !s.ctx.change && !o.ours && !o.copied
       case _ => false
  }

  // Call k loses none.
  predicate Keeps(codec: Codec, s: State, events: seq<Event>, k: nat) {
    k < |events| ==> !Loses(Run(codec, s, events[..k]).state, events[k])
  }

  ghost predicate NoLoss(codec: Codec, s: State, events: seq<Event>) {
    forall k: nat {:trigger Keeps(codec, s, events, k)} :: Keeps(codec, s, events, k)
  }

  lemma StepLosesIff(codec: Codec, s: State, e: Event)
    ensures Loses(s, e) <==> !AllLeftBy(Step(codec, s, e).done, Delivered)
  {
    var f := Step(codec, s, e);
    if Loses(s, e) {
      assert !f.done[0].way.Delivered?;
    }
  }

  lemma KeepsPrefix(codec: Codec, s: State, events: seq<Event>, n: nat, k: nat)
    requires k < n <= |events|
    ensures Keeps(codec, s, events[..n], k) == Keeps(codec, s, events, k)
  {
    assert events[..n][..k] == events[..k] && events[..n][k] == events[k];
  }

  lemma NoLossPrefix(codec: Codec, s: State, events: seq<Event>, n: nat)
    requires n <= |events| && NoLoss(codec, s, events)
    ensures NoLoss(codec, s, events[..n])
  {
    forall k: nat ensures Keeps(codec, s, events[..n], k) {
      if k < n {
        KeepsPrefix(codec, s, events, n, k);
        assert Keeps(codec, s, events, k);
      }
    }
  }

  lemma NoLossStep(codec: Codec, s: State, events: seq<Event>)
    requires events != []
    ensures var init := events[..|events| - 1];
      NoLoss(codec, s, events) <==> NoLoss(codec, s, init) && !Loses(Run(codec, s, init).state, events[|events| - 1])
  {
    var n := |events| - 1;
    var init := events[..n];
    if NoLoss(codec, s, events) {
      NoLossPrefix(codec, s, events, n);
      assert Keeps(codec, s, events, n);
    }
    if NoLoss(codec, s, init) && !Loses(Run(codec, s, init).state, events[n]) {
      forall k: nat ensures Keeps(codec, s, events, k) {
        if k < n {
          KeepsPrefix(codec, s, events, n, k);
          assert Keeps(codec, s, init, k);
        }
      }
    }
  }

  lemma {:induction false} NoLossIff(codec: Codec, s: State, events: seq<Event>)
    ensures NoLoss(codec, s, events) <==> AllLeftBy(Run(codec, s, events).done, Delivered)
  {
    if events != [] {
      var init, last := events[..|events| - 1], events[|events| - 1];
      NoLossIff(codec, s, init);
      NoLossStep(codec, s, events);
      StepLosesIff(codec, Run(codec, s, init).state, last);
      AllLeftByAppend(Run(codec, s, init).done, Step(codec, Run(codec, s, init).state, last).done, Delivered);
    }
  }

  // The samples delivered are exactly those that left the queue, in the order decoded, if and
  // only if no call of the run loses any.
  lemma LosslessIff(codec: Codec, s: State, events: seq<Event>)
    ensures var h := Run(codec, s, events);
      NoLoss(codec, s, events) <==> LeftBy(h.done, Delivered) == Items(h.done)
  {
    NoLossIff(codec, s, events);
    AllLeftByIff(Run(codec, s, events).done, Delivered);
  }

  // First in, first out, nothing lost: from an empty queue, a run without a losing call has
  // delivered what it decoded, up to what is still queued.
  lemma DeliveredInOrder(codec: Codec, s: State, events: seq<Event>)
    requires s.ctx.queue == [] && NoLoss(codec, s, events)
    ensures var h := Run(codec, s, events);
      h.decoded == LeftBy(h.done, Delivered) + h.state.ctx.queue
  {
    var h := Run(codec, s, events);
    LosslessIff(codec, s, events);
    RunConserves(codec, s, events);
    assert [] + h.decoded == h.decoded;
  }

  // ---------- Types ----------

  ghost predicate Uniform(q: seq<Sample>, input: nat) {
    forall k :: 0 <= k < |q| ==> q[k].input == input
  }

  // Queued samples were all decoded under the input type of the context; if that is not the
  // input type set, the rebuild is pending.
  ghost predicate Consistent(s: State) {
    && (!s.ctx.initialized ==> s.ctx == FRESH)
    && Uniform(s.ctx.queue, s.ctx.input)
    && (s.ctx.initialized && s.input.Some? && s.ctx.input != s.input.value ==> s.formatChange)
    && (s.shutdown ==> s.ctx == FRESH)
  }

  lemma InitializedConsistent(s: State, init: Init)
    requires Consistent(s) && !s.shutdown
    ensures var ctx := Initialized(s.ctx, s.input, s.output, init).0;
      Consistent(s.(ctx := ctx)) && ctx.queue == s.ctx.queue
  {
  }

  lemma InputConsistent(codec: Codec, s: State, i: InputCall)
    requires Consistent(s)
    ensures Consistent(Input(codec, s, i).next)
  {
    if !s.shutdown {
      var ctx := Initialized(s.ctx, s.input, s.output, i.init).0;
      InitializedConsistent(s, i.init);
      if i.packet.Some? { DecodedJoins(codec, ctx, i.packet.value, i.outcome); }
    }
  }

  lemma OutputConsistent(codec: Codec, s: State, o: OutputCall)
    requires Consistent(s) && !s.shutdown
    ensures Consistent(Output(codec, s, o).next)
  {
  }

  lemma StepConsistent(codec: Codec, s: State, e: Event)
    requires Consistent(s)
    ensures Consistent(Step(codec, s, e).next)
  {
    match e
    case GiveInput(i) => InputConsistent(codec, s, i);
    case TakeOutput(o) => if !s.shutdown { OutputConsistent(codec, s, o); }
    case _ =>
  }

  lemma {:induction false} RunConsistent(codec: Codec, s: State, events: seq<Event>)
    requires Consistent(s)
    ensures Consistent(Run(codec, s, events).state)
  {
    if events != [] {
      RunConsistent(codec, s, events[..|events| - 1]);
      StepConsistent(codec, Run(codec, s, events[..|events| - 1]).state, events[|events| - 1]);
    }
  }

  // A sample is taken only while no type change is pending, so under the input type set last.
  lemma DecodedUnderCurrentType(codec: Codec, events: seq<Event>, e: Event)
    ensures var s := Run(codec, START, events).state;
      forall k :: 0 <= k < |Step(codec, s, e).decoded| && s.input.Some? ==>
        Step(codec, s, e).decoded[k].input == s.input.value
  {
    RunConsistent(codec, START, events);
  }

  // ---------- Progress ----------

  // Input is turned away.
  predicate Busy(s: State) {
    s.draining || s.formatChange || s.ctx.change
  }

  // How many valid ProcessOutput calls end that.
  function CallsToSettle(s: State): nat {
    (if s.ctx.change then 1 else 0) +
    (if s.draining || s.formatChange then (if |s.ctx.queue| <= 1 then 1 else |s.ctx.queue|) else 0)
  }

  ghost predicate TakesOnly(events: seq<Event>) {
    forall k :: 0 <= k < |events| ==> events[k].TakeOutput? && ValidOutput(events[k].o)
  }

  // Exactly that many valid ProcessOutput calls, whether or not their copies fail, make the
  // transform take input again.
  lemma {:induction false} SettlesIff(codec: Codec, s: State, events: seq<Event>)
    requires !s.shutdown && (s.ctx.change ==> s.output.Some?)
    requires TakesOnly(events)
    ensures var t := Run(codec, s, events).state;
      && (!Busy(t) <==> |events| >= CallsToSettle(s))
      && CallsToSettle(t) == (if |events| >= CallsToSettle(s) then 0 else CallsToSettle(s) - |events|)
      && !t.shutdown && (t.ctx.change ==> t.output.Some?)
  {
    if events != [] {
      SettlesIff(codec, s, events[..|events| - 1]);
    }
  }

  // Valid input is turned away exactly when busy, or when its own Initialize finds a new size.
  lemma NotAcceptingIff(codec: Codec, s: State, i: InputCall)
    requires Consistent(s)
    requires i.sample && i.stream == 0 && i.flags == 0 && i.buffers > 0 && i.packet.Some? && !s.shutdown
    ensures Input(codec, s, i).hr.NotAccepting? <==>
      || Busy(s)
      || (!s.ctx.initialized && s.input.Some? && s.output.Some? && i.init.InitDone? && i.init.change)
  {
  }

  // ---------- FFmpegContext ----------

  function Reversed<T>(q: seq<T>): (r: seq<T>)
    ensures |r| == |q| && forall k :: 0 <= k < |q| ==> r[k] == q[|q| - 1 - k]
  {
    seq(|q|, k requires 0 <= k < |q| => q[|q| - 1 - k])
  }

  class FFmpegContext {
    const codec: Codec
    var initialized: bool
    var change: bool
    var input: nat
    var fed: seq<nat>        // the decoder: see Context
    var pending: seq<nat>
    var slot: Option<nat>
    var queue: seq<Sample>   // new samples at the head, the oldest at the tail

    constructor (codec: Codec)
      ensures View() == FRESH && this.codec == codec
    {
      this.codec := codec;
      initialized, change, input, queue := false, false, 0, [];
      fed, pending, slot := [], [], None;
    }

    ghost function View(): Context
      reads this
    {
      Context(initialized, change, input, fed, pending, slot, Reversed(queue))
    }

    method Initialize(inputType: Option<nat>, outputType: Option<nat>, init: Init) returns (hr: HResult)
      requires !initialized
      modifies this`initialized, this`change, this`input
      ensures (View(), hr) == Initialized(old(View()), inputType, outputType, init)
    {
      if inputType.None? || outputType.None? { return Pointer; }
      if init.InitFailed? { return Fail; }
      initialized, change, input := true, init.change, inputType.value;
      hr := if init.InitDone? then Ok else Fail;
    }

    method QueueOutput(x: Sample)
      modifies this`queue
      ensures View() == old(View()).(queue := old(View()).queue + [x])
    {
      queue := [x] + queue;
      assert Reversed(queue) == Reversed(old(queue)) + [x];
    }

    // avcodec_send_packet: asks to be called again only while a packet is in the slot.
    method SendPacket(packet: nat, fails: bool) returns (answer: Answer)
      modifies this`fed, this`pending, this`slot
      ensures answer == if old(slot.Some?) then Again else if fails then Failed else Taken
      ensures View() == if answer.Taken? then Sent(codec, old(View()), packet) else old(View())
    {
      if slot.Some? { return Again; }
      if fails { return Failed; }
      if pending == [] {
        pending := codec.decode(input, fed, packet);
        fed := fed + [packet];
      } else {
        slot := Some(packet);
      }
      answer := Taken;
    }

    // avcodec_receive_frame, right after a packet was taken: the next frame, or none as all were
    // received.
    method ReceiveFrame() returns (frame: Option<nat>)
      modifies this`pending
      ensures var c := old(View());
        if c.pending == [] then frame == None && View() == c
        else frame == Some(c.pending[0]) && View() == c.(pending := c.pending[1..])
    {
      frame := None;
      if pending != [] {
        frame := Some(pending[0]);
        pending := pending[1..];
      }
    }

    method Decode(packet: nat, outcome: Outcome) returns (hr: HResult)
      modifies this`fed, this`pending, this`slot, this`queue
      ensures var d := Decoded(codec, old(View()), packet, outcome);
        View() == d.ctx && hr == d.hr
    {
      if change { return NotAccepting; }
      var answer := SendPacket(packet, outcome.SendFails?);
      if answer.Again? { return Unexpected; }
      if answer.Failed? { return Fail; }
      var frame := ReceiveFrame();
      if outcome.ReceiveFails? { return Fail; }
      if frame.None? { return False; }
      if outcome.ConvertFails? { return Fail; }
      QueueOutput(Sample(frame.value, input));
      hr := Ok;
    }

    method GetNextSample() returns (hr: HResult, x: Option<Sample>)
      modifies this`queue
      ensures var c := old(View());
        if c.queue == [] then hr == NeedMoreInput && x == None && View() == c
        else hr == Ok && x == Some(c.queue[0]) && View() == c.(queue := c.queue[1..])
    {
      if queue == [] { return NeedMoreInput, None; }
      hr, x := Ok, Some(queue[|queue| - 1]);
      queue := queue[..|queue| - 1];
      assert Reversed(queue) == Reversed(old(queue))[1..];
    }

    method HasFormatChange() returns (result: bool)
      modifies this`change
      ensures result == old(change) && View() == old(View()).(change := false)
    {
      result := change;
      change := false;
    }

    // The decoder is closed and opened anew, without taking the frames it still has.
    method FlushInput()
      modifies this`fed, this`pending, this`slot
      ensures View() == Reopened(old(View()))
    {
      fed, pending, slot := [], [], None;
    }

    // The samples are released one by one, the newest first.
    method Flush()
      modifies this`queue, this`fed, this`pending, this`slot
      ensures View() == Reopened(old(View())).(queue := [])
    {
      while queue != []
        decreases |queue|
      {
        queue := queue[1..];
      }
      assert Reversed(queue) == [];
      FlushInput();
    }
  }

  // ---------- FFmpegDecoderMFT ----------

  class FFmpegDecoderMFT {
    const codec: Codec
    var inputType: Option<nat>
    var outputType: Option<nat>
    var draining: bool
    var streaming: bool
    var formatChange: bool
    var shutdown: bool
    var context: FFmpegContext?

    ghost predicate Valid()
      reads this
    {
      && (context == null <==> shutdown)
      && (context != null ==> context.codec == codec)
    }

    ghost function View(): State
      reads this, context
    {
      State(inputType, outputType, draining, streaming, formatChange, shutdown,
            if context == null then FRESH else context.View())
    }

    constructor (codec: Codec)
      ensures Valid() && View() == START && fresh(context) && this.codec == codec
    {
      this.codec := codec;
      inputType, outputType := None, None;
      draining, streaming, formatChange, shutdown := false, false, false, false;
      context := new FFmpegContext(codec);
    }

    method ProcessInput(i: InputCall) returns (hr: HResult)
      requires Valid()
      modifies context
      ensures Valid()
      ensures var f := Step(codec, old(View()), GiveInput(i));
        View() == f.next && hr == f.hr
    {
      if !i.sample { return Pointer; }
      if i.stream != 0 { return InvalidStream; }
      if i.flags != 0 { return InvalidArg; }
      if i.buffers == 0 { return Ok; }
      if shutdown { return ShutDown; }
      hr := if draining || formatChange then NotAccepting else Ok;
      if hr.Succeeded() {
        if !context.initialized {
          hr := context.Initialize(inputType, outputType, i.init);
        }
      }
      if hr.Succeeded() {
        hr := if i.packet.Some? then Ok else Fail;
        if hr.Succeeded() {
          hr := context.Decode(i.packet.value, i.outcome);
        }
      }
    }

    method StartStream() returns (hr: HResult)
      requires Valid()
      modifies this`streaming, context
      ensures Valid()
      ensures var f := Step(codec, old(View()), StartOfStream);
        View() == f.next && hr == f.hr
    {
      if context == null { return Undefined; }
      context.Flush();
      streaming := true;
      hr := Ok;
    }

    method ProcessMessage(e: Event) returns (hr: HResult)
      requires Valid()
      requires e.StartOfStream? || e.EndOfStream? || e.Drain? || e.Flush? || e.OtherMessage?
      modifies this`streaming, this`draining, context
      ensures Valid()
      ensures var f := Step(codec, old(View()), e);
        View() == f.next && hr == f.hr
    {
      hr := Ok;
      match e
      case StartOfStream => hr := StartStream();
      case EndOfStream(stream) =>
        if stream == 0 {
          if streaming { streaming := false; }
        } else {
          hr := InvalidStream;
        }
      case Drain(reset) =>
        if context == null { return Undefined; }
        if context.initialized {
          context.FlushInput();
          hr := if reset then Ok else Fail;
          draining := true;
        }
      case Flush =>
        if context == null { return Undefined; }
        if context.initialized { context.Flush(); }
      case _ =>
    }

    // What ProcessOutput does once the call is in order and no format change is reported.
    method DeliverSample(o: OutputCall) returns (hr: HResult, sample: Option<Sample>)
      requires Valid() && context != null && !View().shutdown && !View().ctx.change
      requires o.pointers && o.buffers >= 1 && o.stream == 0
      modifies this, context
      ensures Valid() && (context == old(context) || fresh(context))
      ensures var f := Step(codec, old(View()), TakeOutput(o));
        && View() == f.next && hr == f.hr
        && sample == if |f.done| == 1 && f.done[0].way.Delivered? then Some(f.done[0].item) else None
    {
      sample := None;
      var x;
      hr, x := context.GetNextSample();
      if hr.Succeeded() {
        if o.ours || o.copied {
          sample := x;
        } else {
          hr := Fail;
        }
      }
      Settle();
    }

    // An empty queue ends a drain, and a rebuild that was put off takes place.
    method Settle()
      requires Valid() && context != null && !View().shutdown
      modifies this
      ensures Valid() && (context == old(context) || fresh(context))
      ensures View() == Settled(codec, old(View()), Ok, []).next
    {
      if draining && context.queue == [] { draining := false; }
      if formatChange && context.queue == [] {
        context := new FFmpegContext(codec);
        formatChange := false;
      }
    }

    method ProcessOutput(o: OutputCall) returns (hr: HResult, sample: Option<Sample>)
      requires Valid()
      modifies this, context
      ensures Valid() && (context == old(context) || fresh(context))
      ensures var f := Step(codec, old(View()), TakeOutput(o));
        && View() == f.next && hr == f.hr
        && sample == if |f.done| == 1 && f.done[0].way.Delivered? then Some(f.done[0].item) else None
    {
      sample := None;
      hr := if o.pointers then Ok else Pointer;
      if hr.Succeeded() {
        if o.buffers < 1 { hr := InvalidArg; }
        else if o.stream != 0 { hr := InvalidStream; }
      }
      if hr.Succeeded() {
        if context == null || (context.change && outputType.None?) { return Undefined, None; }
        var changed := context.HasFormatChange();
        if changed {
          outputType := None;
          return StreamChange, None;
        }
        hr, sample := DeliverSample(o);
      }
    }

    method SetInputType(t: TypeCall) returns (hr: HResult)
      requires Valid()
      modifies this`inputType, this`formatChange
      ensures Valid()
      ensures var f := Step(codec, old(View()), ChangeInputType(t));
        View() == f.next && hr == f.hr
    {
      if t.stream != 0 { return InvalidStream; }
      if t.kind.None? {
        inputType := None;
        return Ok;
      }
      if !t.valid { return Fail; }
      hr := Ok;
      if !t.testOnly {
        inputType, formatChange := t.kind, true;
      }
    }

    method SetOutputType(t: TypeCall) returns (hr: HResult)
      requires Valid()
      modifies this`outputType, this`formatChange
      ensures Valid()
      ensures var f := Step(codec, old(View()), ChangeOutputType(t));
        View() == f.next && hr == f.hr
    {
      if t.stream != 0 { return InvalidStream; }
      if inputType.None? { return TypeNotSet; }
      if t.kind.None? {
        outputType := None;
        return Ok;
      }
      if !t.valid { return Fail; }
      hr := Ok;
      if !t.testOnly {
        outputType, formatChange := t.kind, true;
      }
    }

    method Shutdown() returns (hr: HResult)
      requires Valid()
      modifies this
      ensures Valid()
      ensures var f := Step(codec, old(View()), Close);
        View() == f.next && hr == f.hr
    {
      if shutdown { return ShutDown; }
      shutdown := true;
      inputType, outputType := None, None;
      context := null;
      hr := Ok;
    }
  }
}
