// What becomes of the frames a decoder owes for the packets it has accepted: the transform takes
// one frame after each packet, and closes the decoder without asking for the rest.
module MftDecoder {
  import opened Common
  import opened Passage
  import opened Mft

  // ---------- Frames are conserved ----------

  lemma DecodedFrames(codec: Codec, c: Context, packet: nat, outcome: Outcome)
    ensures var d := Decoded(codec, c, packet, outcome);
      Inside(codec, c) + d.owed == Items(d.gone) + Inside(codec, d.ctx)
  {
    var d := Decoded(codec, c, packet, outcome);
    if d.gone != [] {
      var t := Sent(codec, c, packet);
      SentFrames(codec, c, packet);
      assert t.pending == [t.pending[0]] + t.pending[1..];
      assert Items(d.gone) == [t.pending[0]];
    }
  }

  lemma SentFrames(codec: Codec, c: Context, packet: nat)
    requires c.slot.None?
    ensures Inside(codec, c) + codec.decode(c.input, c.fed, packet) == Inside(codec, Sent(codec, c, packet))
  {
  }

  // The context an input call decodes in.
  function Opened(s: State, i: InputCall): Context {
    Initialized(s.ctx, s.input, s.output, i.init).0
  }

  // The call gets as far as the decoder.
  predicate Reaches(s: State, i: InputCall) {
    && i.sample && i.stream == 0 && i.flags == 0 && i.buffers > 0 && i.packet.Some?
    && !s.shutdown && !s.draining && !s.formatChange
    && Initialized(s.ctx, s.input, s.output, i.init).1.Succeeded() && !Opened(s, i).change
  }

  predicate Accepted(s: State, e: Event) {
    e.GiveInput? && Reaches(s, e.i) && Opened(s, e.i).slot.None? && !e.i.outcome.SendFails?
  }

  // The frames the codec gives for the packet.
  function Given(codec: Codec, s: State, i: InputCall): seq<nat>
    requires i.packet.Some?
  {
    codec.decode(Opened(s, i).input, Opened(s, i).fed, i.packet.value)
  }

  // The call closes the decoder.
  predicate Closes(s: State, e: Event) {
    && Allowed(s, e)
    && match e
       case StartOfStream => true
       case Drain(_) => s.ctx.initialized
       case Flush => s.ctx.initialized
       case Close => !s.shutdown
       case TakeOutput(o) => ValidOutput(o) && !s.ctx.change && s.formatChange && |s.ctx.queue| <= 1
       case _ => false
  }

  lemma ClosesStep(codec: Codec, s: State, e: Event)
    requires Consistent(s) && Closes(s, e)
    ensures var f := Step(codec, s, e);
      f.owed == Held(codec, s.ctx) && f.gone == Mark(Lost(codec, s.ctx), Discarded) && f.decoded == []
      && Inside(codec, f.next.ctx) == []
  {
  }

  // Nothing moves in the decoder, and no sample is made.
  ghost predicate Idle(codec: Codec, s: State, f: Effect) {
    && f.owed == [] && f.gone == [] && f.decoded == []
    && f.next.ctx.slot == s.ctx.slot && f.next.ctx.pending == s.ctx.pending
    && Inside(codec, f.next.ctx) == Inside(codec, s.ctx)
  }

  lemma IdleInput(codec: Codec, s: State, i: InputCall)
    requires Consistent(s) && !Accepted(s, GiveInput(i))
    ensures Idle(codec, s, Input(codec, s, i))
  {
  }

  lemma IdleOutput(codec: Codec, s: State, o: OutputCall)
    requires !Closes(s, TakeOutput(o)) && Allowed(s, TakeOutput(o))
    ensures Idle(codec, s, Output(codec, s, o))
  {
  }

  lemma OtherStep(codec: Codec, s: State, e: Event)
    requires Consistent(s) && !Accepted(s, e) && !Closes(s, e)
    ensures Idle(codec, s, Step(codec, s, e))
  {
    match e
    case GiveInput(i) => IdleInput(codec, s, i);
    case TakeOutput(o) => if Allowed(s, e) { IdleOutput(codec, s, o); }
    case _ =>
  }

  lemma AcceptedFrames(codec: Codec, s: State, e: Event)
    requires Consistent(s) && Accepted(s, e)
    ensures var f := Step(codec, s, e);
      Inside(codec, s.ctx) + f.owed == Items(f.gone) + Inside(codec, f.next.ctx)
  {
    DecodedFrames(codec, Opened(s, e.i), e.i.packet.value, e.i.outcome);
  }

  // What a call adds to the frames owed leaves the decoder in order or stays in it.
  lemma StepFrames(codec: Codec, s: State, e: Event)
    requires Consistent(s)
    ensures var f := Step(codec, s, e);
      Inside(codec, s.ctx) + f.owed == Items(f.gone) + Inside(codec, f.next.ctx)
  {
    if Closes(s, e) {
      ClosesStep(codec, s, e);
      MarkedItems(Lost(codec, s.ctx), Discarded);
    } else if Accepted(s, e) {
      AcceptedFrames(codec, s, e);
    } else {
      OtherStep(codec, s, e);
    }
  }

  // Over whole runs the frames owed are, in order, those that left the decoder, queued or lost,
  // and those still in it.
  lemma {:induction false} RunFrames(codec: Codec, s: State, events: seq<Event>)
    requires Consistent(s)
    ensures var h := Run(codec, s, events);
      Inside(codec, s.ctx) + h.owed == Items(h.gone) + Inside(codec, h.state.ctx)
  {
    if events != [] {
      var init, last := events[..|events| - 1], events[|events| - 1];
      var h := Run(codec, s, init);
      var f := Step(codec, h.state, last);
      RunFrames(codec, s, init);
      RunConsistent(codec, s, init);
      StepFrames(codec, h.state, last);
      ItemsAppend(h.gone, f.gone);
      Through(Inside(codec, s.ctx), h.owed, Items(h.gone), Inside(codec, h.state.ctx),
              f.owed, Items(f.gone), Inside(codec, f.next.ctx));
    }
  }

  // A packet with a second frame, to a decoder that has none left.
  predicate Leaves(codec: Codec, s: State, e: Event) {
    Accepted(s, e) && Opened(s, e.i).pending == [] && |Given(codec, s, e.i)| >= 2
  }

  predicate Behind(s: State) {
    s.ctx.pending != [] || s.ctx.slot.Some?
  }

  // The state before call k.
  function At(codec: Codec, events: seq<Event>, k: nat): State
    requires k <= |events|
  {
    Run(codec, START, events[..k]).state
  }

  lemma AtNext(codec: Codec, events: seq<Event>, k: nat)
    requires k < |events|
    ensures Consistent(At(codec, events, k)) && At(codec, events, 0) == START
    ensures At(codec, events, k + 1) == Step(codec, At(codec, events, k), events[k]).next
  {
    assert events[..k + 1][..k] == events[..k];
    RunConsistent(codec, START, events[..k]);
  }

  // ---------- Flags ----------

  // What calls set and later calls clear.
  datatype Flag = LeftBehind | SlotTaken | TypeMissing | OutputWanted | ChangeDue

  predicate On(f: Flag, s: State) {
    match f
    case LeftBehind => Behind(s)
    case SlotTaken => s.ctx.slot.Some?
    case TypeMissing => s.ctx.change && s.output.None?
    case OutputWanted => s.draining || s.formatChange
    case ChangeDue => s.ctx.change
  }

  predicate SetBy(codec: Codec, f: Flag, s: State, e: Event) {
    match f
    case LeftBehind => Leaves(codec, s, e)
    case SlotTaken => Accepted(s, e) && Behind(s)
    case TypeMissing => s.ctx.change && ClearsOutput(s, e)
    case OutputWanted => Asks(s, e)
    case ChangeDue => FindsChange(s, e)
  }

  predicate ClearedBy(f: Flag, s: State, e: Event) {
    match f
    case LeftBehind => Closes(s, e)
    case SlotTaken => Closes(s, e)
    case TypeMissing => Averts(s, e)
    case OutputWanted => TakesLast(s, e)
    case ChangeDue => Reports(s, e) || (e.Close? && !s.shutdown)
  }

  predicate ClearsOutput(s: State, e: Event) {
    e.ChangeOutputType? && e.t.stream == 0 && s.input.Some? && e.t.kind.None?
  }

  predicate SetsOutput(s: State, e: Event) {
    e.ChangeOutputType? && e.t.stream == 0 && s.input.Some? && e.t.kind.Some? && e.t.valid && !e.t.testOnly
  }

  predicate SetsInput(e: Event) {
    e.ChangeInputType? && e.t.stream == 0 && e.t.kind.Some? && e.t.valid && !e.t.testOnly
  }

  // An output type is set, or the transform shut down.
  predicate Averts(s: State, e: Event) {
    SetsOutput(s, e) || (e.Close? && !s.shutdown)
  }

  // The call asks the caller to take the output first.
  predicate Asks(s: State, e: Event) {
    (e.Drain? && !s.shutdown && s.ctx.initialized) || SetsInput(e) || SetsOutput(s, e)
  }

  // The call takes the last sample, or finds none.
  predicate TakesLast(s: State, e: Event) {
    e.TakeOutput? && ValidOutput(e.o) && !s.shutdown && !s.ctx.change && |s.ctx.queue| <= 1
  }

  // The call opens a decoder that will give another output type than the one set.
  predicate FindsChange(s: State, e: Event) {
    && e.GiveInput? && e.i.sample && e.i.stream == 0 && e.i.flags == 0 && e.i.buffers > 0
    && !s.shutdown && !s.draining && !s.formatChange && !s.ctx.initialized && s.input.Some? && s.output.Some?
    && !e.i.init.InitFailed? && e.i.init.change
  }

  // A valid ProcessOutput call with a type to copy answers with the stream change first.
  predicate Reports(s: State, e: Event) {
    e.TakeOutput? && ValidOutput(e.o) && !s.shutdown && s.output.Some?
  }

  lemma ClosedStep(codec: Codec, s: State, e: Event)
    requires Consistent(s) && Closes(s, e)
    ensures !Behind(Step(codec, s, e).next)
  {
  }

  // What one packet leaves in the decoder.
  lemma LeftBehindBy(codec: Codec, c: Context, packet: nat, outcome: Outcome)
    requires !c.change && c.slot.None? && !outcome.SendFails?
    ensures var d := Decoded(codec, c, packet, outcome);
      && (d.ctx.slot.Some? <==> c.pending != [])
      && (d.ctx.pending != [] || d.ctx.slot.Some?
          <==> c.pending != [] || |codec.decode(c.input, c.fed, packet)| >= 2)
  {
  }

  lemma AcceptedLeaves(codec: Codec, s: State, e: Event)
    requires Consistent(s) && Accepted(s, e)
    ensures var t := Step(codec, s, e).next;
      && (t.ctx.slot.Some? <==> Behind(s))
      && (Behind(t) <==> Behind(s) || Leaves(codec, s, e))
  {
    LeftBehindBy(codec, Opened(s, e.i), e.i.packet.value, e.i.outcome);
  }

  // Once behind, the decoder stays behind until it is closed.
  lemma BehindStep(codec: Codec, s: State, e: Event)
    requires Consistent(s)
    ensures Behind(Step(codec, s, e).next) <==> Leaves(codec, s, e) || (Behind(s) && !Closes(s, e))
  {
    if Closes(s, e) {
      ClosedStep(codec, s, e);
    } else if Accepted(s, e) {
      AcceptedLeaves(codec, s, e);
    } else {
      OtherStep(codec, s, e);
    }
  }

  lemma SlotStep(codec: Codec, s: State, e: Event)
    requires Consistent(s)
    ensures Step(codec, s, e).next.ctx.slot.Some?
      <==> (Accepted(s, e) && Behind(s)) || (s.ctx.slot.Some? && !Closes(s, e))
  {
    if Closes(s, e) {
      ClosedStep(codec, s, e);
    } else if Accepted(s, e) {
      AcceptedLeaves(codec, s, e);
    } else {
      OtherStep(codec, s, e);
    }
  }

  lemma MissingStep(codec: Codec, s: State, e: Event)
    requires Consistent(s)
    ensures On(TypeMissing, Step(codec, s, e).next)
      <==> SetBy(codec, TypeMissing, s, e) || (On(TypeMissing, s) && !ClearedBy(TypeMissing, s, e))
  {
    match e
    case GiveInput(i) => MissingInput(codec, s, i);
    case TakeOutput(o) => if Allowed(s, e) { MissingOutput(codec, s, o); }
    case _ =>
  }

  // Initialising needs an output type.
  lemma MissingInput(codec: Codec, s: State, i: InputCall)
    requires Consistent(s)
    ensures var t := Input(codec, s, i).next;
      t.output == s.output && (t.ctx.change <==> s.ctx.change || (t.ctx.change && s.output.Some?))
  {
  }

  lemma MissingOutput(codec: Codec, s: State, o: OutputCall)
    requires Consistent(s) && Allowed(s, TakeOutput(o))
    ensures On(TypeMissing, Output(codec, s, o).next) <==> On(TypeMissing, s)
  {
  }

  lemma WantedStep(codec: Codec, s: State, e: Event)
    requires Consistent(s)
    ensures On(OutputWanted, Step(codec, s, e).next)
      <==> SetBy(codec, OutputWanted, s, e) || (On(OutputWanted, s) && !ClearedBy(OutputWanted, s, e))
  {
  }

  lemma FlagStep(codec: Codec, f: Flag, s: State, e: Event)
    requires Consistent(s)
    ensures On(f, Step(codec, s, e).next) <==> SetBy(codec, f, s, e) || (On(f, s) && !ClearedBy(f, s, e))
  {
    match f
    case LeftBehind => BehindStep(codec, s, e);
    case SlotTaken => SlotStep(codec, s, e);
    case TypeMissing => MissingStep(codec, s, e);
    case OutputWanted => WantedStep(codec, s, e);
    case ChangeDue => ChangeStep(codec, s, e);
  }

  lemma ChangeStep(codec: Codec, s: State, e: Event)
    requires Consistent(s)
    ensures Step(codec, s, e).next.ctx.change
      <==> FindsChange(s, e) || (s.ctx.change && !Reports(s, e) && !(e.Close? && !s.shutdown))
  {
    if e.GiveInput? { ChangeInput(codec, s, e.i); }
  }

  lemma ChangeInput(codec: Codec, s: State, i: InputCall)
    requires Consistent(s)
    ensures Input(codec, s, i).next.ctx.change <==> FindsChange(s, GiveInput(i)) || s.ctx.change
  {
  }

  // Call k set the flag, and none up to call n cleared it.
  ghost predicate SetSince(codec: Codec, f: Flag, events: seq<Event>, k: nat, n: nat)
    requires n <= |events|
  {
    && k < n && SetBy(codec, f, At(codec, events, k), events[k])
    && forall m: nat :: k < m < n ==> !ClearedBy(f, At(codec, events, m), events[m])
  }

  lemma {:induction false} Latched(on: seq<bool>, sets: seq<bool>, clears: seq<bool>, n: nat)
    requires |on| > n && |sets| >= n && |clears| >= n && !on[0]
    requires forall k :: 0 <= k < n ==> on[k + 1] == (sets[k] || (on[k] && !clears[k]))
    ensures on[n] <==> exists k: nat :: k < n && sets[k] && forall m :: k < m < n ==> !clears[m]
  {
    if n > 0 {
      Latched(on, sets, clears, n - 1);
      if on[n] && !sets[n - 1] {
        var k: nat :| k < n - 1 && sets[k] && forall m :: k < m < n - 1 ==> !clears[m];
      }
    }
  }

  // A flag is on exactly if a call set it and none since has cleared it.
  lemma FlagIff(codec: Codec, f: Flag, events: seq<Event>, n: nat)
    requires n <= |events|
    ensures On(f, At(codec, events, n)) <==> exists k: nat :: SetSince(codec, f, events, k, n)
  {
    var on := seq(n + 1, k requires 0 <= k <= n => On(f, At(codec, events, k)));
    var sets := seq(n, k requires 0 <= k < n => SetBy(codec, f, At(codec, events, k), events[k]));
    var clears := seq(n, k requires 0 <= k < n => ClearedBy(f, At(codec, events, k), events[k]));
    forall k: nat | k < n ensures on[k + 1] == (sets[k] || (on[k] && !clears[k])) {
      AtNext(codec, events, k);
      FlagStep(codec, f, At(codec, events, k), events[k]);
    }
    assert At(codec, events, 0) == START;
    Latched(on, sets, clears, n);
    forall k: nat | k < n
      ensures SetSince(codec, f, events, k, n) <==> sets[k] && forall m :: k < m < n ==> !clears[m]
    {
      assert forall m :: k < m < n ==> clears[m] == ClearedBy(f, At(codec, events, m), events[m]);
    }
  }

  // ---------- When a packet is refused ----------

  lemma RefusedStep(codec: Codec, s: State, i: InputCall)
    requires Consistent(s)
    ensures Input(codec, s, i).hr.Unexpected? <==> Reaches(s, i) && s.ctx.slot.Some?
  {
  }

  // Since the decoder was last opened, call k left frames in it, and call m had another packet
  // accepted.
  ghost predicate TakenBehind(codec: Codec, events: seq<Event>, k: nat, m: nat) {
    && k < m < |events| && SetSince(codec, LeftBehind, events, k, |events|)
    && Accepted(At(codec, events, m), events[m])
  }

  lemma TakenHas(codec: Codec, events: seq<Event>) returns (k: nat, m: nat)
    requires At(codec, events, |events|).ctx.slot.Some?
    ensures TakenBehind(codec, events, k, m)
  {
    var n := |events|;
    assert On(SlotTaken, At(codec, events, n));
    FlagIff(codec, SlotTaken, events, n);
    m :| SetSince(codec, SlotTaken, events, m, n);
    assert On(LeftBehind, At(codec, events, m));
    FlagIff(codec, LeftBehind, events, m);
    k :| SetSince(codec, LeftBehind, events, k, m);
    NoneBetween(codec, events, k, m, n);
  }

  // A call that has a packet accepted closes nothing.
  lemma NoneBetween(codec: Codec, events: seq<Event>, k: nat, m: nat, n: nat)
    requires n <= |events| && SetSince(codec, SlotTaken, events, m, n) && SetSince(codec, LeftBehind, events, k, m)
    ensures SetSince(codec, LeftBehind, events, k, n)
  {
    forall r: nat | k < r < n ensures !ClearedBy(LeftBehind, At(codec, events, r), events[r]) {
      if r > m { assert !ClearedBy(SlotTaken, At(codec, events, r), events[r]); }
    }
  }

  lemma TakenWhen(codec: Codec, events: seq<Event>, k: nat, m: nat)
    requires TakenBehind(codec, events, k, m)
    ensures At(codec, events, |events|).ctx.slot.Some?
  {
    var n := |events|;
    assert SetSince(codec, LeftBehind, events, k, m);
    FlagIff(codec, LeftBehind, events, m);
    assert On(LeftBehind, At(codec, events, m));
    forall r: nat | m < r < n ensures !ClearedBy(SlotTaken, At(codec, events, r), events[r]) {
      assert !ClearedBy(LeftBehind, At(codec, events, r), events[r]);
    }
    assert SetSince(codec, SlotTaken, events, m, n);
    FlagIff(codec, SlotTaken, events, n);
    assert On(SlotTaken, At(codec, events, n));
  }

  // The exact condition, over whole runs, for a packet that reaches the decoder to be refused.
  lemma RefusedIff(codec: Codec, events: seq<Event>, i: InputCall)
    ensures var s := Run(codec, START, events).state;
      Input(codec, s, i).hr.Unexpected? <==> Reaches(s, i) && exists k: nat, m: nat :: TakenBehind(codec, events, k, m)
  {
    RunConsistent(codec, START, events);
    RefusedStep(codec, Run(codec, START, events).state, i);
    assert events[..|events|] == events;
    if At(codec, events, |events|).ctx.slot.Some? {
      var k, m := TakenHas(codec, events);
    }
    if k: nat, m: nat :| TakenBehind(codec, events, k, m) {
      TakenWhen(codec, events, k, m);
    }
  }

  // ---------- When every frame is queued at once ----------

  function FramesOf(q: seq<Sample>): (r: seq<nat>)
    ensures |r| == |q|
  {
    seq(|q|, k requires 0 <= k < |q| => q[k].frame)
  }

  lemma DecodedQueues(codec: Codec, c: Context, packet: nat, outcome: Outcome)
    ensures var d := Decoded(codec, c, packet, outcome);
      FramesOf(d.decoded) == LeftBy(d.gone, Queued)
  {
    var d := Decoded(codec, c, packet, outcome);
    if |d.gone| == 1 { assert d.gone[..0] == []; }
  }

  lemma StepQueues(codec: Codec, s: State, e: Event)
    requires Consistent(s)
    ensures FramesOf(Step(codec, s, e).decoded) == LeftBy(Step(codec, s, e).gone, Queued)
  {
    if Closes(s, e) {
      ClosesStep(codec, s, e);
      NoneLeftBy(Lost(codec, s.ctx), Queued, Discarded);
    } else if Accepted(s, e) {
      DecodedQueues(codec, Opened(s, e.i), e.i.packet.value, e.i.outcome);
    } else {
      OtherStep(codec, s, e);
    }
  }

  lemma QueuesAppend(q: seq<Sample>, gone: seq<Gone>, more: seq<Sample>, moreGone: seq<Gone>)
    requires FramesOf(q) == LeftBy(gone, Queued) && FramesOf(more) == LeftBy(moreGone, Queued)
    ensures FramesOf(q + more) == LeftBy(gone + moreGone, Queued)
  {
    LeftByAppend(gone, moreGone, Queued);
  }

  // The samples made are, in order, the frames that left the decoder for the queue.
  lemma {:induction false} RunQueues(codec: Codec, s: State, events: seq<Event>)
    requires Consistent(s)
    ensures FramesOf(Run(codec, s, events).decoded) == LeftBy(Run(codec, s, events).gone, Queued)
  {
    if events != [] {
      var init, last := events[..|events| - 1], events[|events| - 1];
      var h := Run(codec, s, init);
      var f := Step(codec, h.state, last);
      RunQueues(codec, s, init);
      RunConsistent(codec, s, init);
      StepQueues(codec, h.state, last);
      QueuesAppend(h.decoded, h.gone, f.decoded, f.gone);
    }
  }

  // Nothing was lost and nothing is left inside.
  ghost predicate Caught(codec: Codec, h: History) {
    AllLeftBy(h.gone, Queued) && Inside(codec, h.state.ctx) == []
  }

  lemma CaughtIff(codec: Codec, events: seq<Event>)
    ensures var h := Run(codec, START, events);
      Caught(codec, h) <==> FramesOf(h.decoded) == h.owed
  {
    var h := Run(codec, START, events);
    RunFrames(codec, START, events);
    RunQueues(codec, START, events);
    AllLeftByIff(h.gone, Queued);
    assert h.owed == Items(h.gone) + Inside(codec, h.state.ctx);
  }

  // An accepted packet gives at most one frame, and that becomes a sample; a decoder that is
  // closed owes nothing.
  predicate Clean(codec: Codec, s: State, e: Event) {
    && (Accepted(s, e) ==> |Given(codec, s, e.i)| == 0 || (|Given(codec, s, e.i)| == 1 && e.i.outcome.Fine?))
    && (Closes(s, e) ==> Lost(codec, s.ctx) == [])
  }

  lemma FirstFrame(codec: Codec, c: Context, packet: nat, outcome: Outcome)
    requires !c.change && c.slot.None? && c.pending == [] && !outcome.SendFails?
    ensures var d := Decoded(codec, c, packet, outcome);
      var n := |codec.decode(c.input, c.fed, packet)|;
      AllLeftBy(d.gone, Queued) && Inside(codec, d.ctx) == [] <==> n == 0 || (n == 1 && outcome.Fine?)
  {
    var d, frames := Decoded(codec, c, packet, outcome), codec.decode(c.input, c.fed, packet);
    if frames != [] {
      assert |Inside(codec, d.ctx)| == |frames| - 1;
      assert d.gone[0].way.Queued? <==> outcome.Fine?;
    }
  }

  lemma AcceptedStep(codec: Codec, s: State, e: Event)
    requires Consistent(s) && Accepted(s, e) && Inside(codec, s.ctx) == []
    ensures var f := Step(codec, s, e);
      var n := |Given(codec, s, e.i)|;
      AllLeftBy(f.gone, Queued) && Inside(codec, f.next.ctx) == [] <==> n == 0 || (n == 1 && e.i.outcome.Fine?)
  {
    FirstFrame(codec, Opened(s, e.i), e.i.packet.value, e.i.outcome);
  }

  lemma CleanStep(codec: Codec, s: State, e: Event)
    requires Consistent(s) && Inside(codec, s.ctx) == []
    ensures var f := Step(codec, s, e);
      Clean(codec, s, e) <==> AllLeftBy(f.gone, Queued) && Inside(codec, f.next.ctx) == []
  {
    if Closes(s, e) {
      ClosesStep(codec, s, e);
      if Lost(codec, s.ctx) != [] { assert !Mark(Lost(codec, s.ctx), Discarded)[0].way.Queued?; }
    } else if Accepted(s, e) {
      AcceptedStep(codec, s, e);
    } else {
      OtherStep(codec, s, e);
    }
  }

  ghost predicate AllClean(codec: Codec, events: seq<Event>) {
    forall k: nat {:trigger events[k]} :: k < |events| ==> Clean(codec, At(codec, events, k), events[k])
  }

  // After every call of the run the samples made are exactly the frames owed so far.
  ghost predicate Prompt(codec: Codec, events: seq<Event>) {
    forall n: nat :: n <= |events| ==> CaughtUp(Run(codec, START, events[..n]))
  }

  predicate CaughtUp(h: History) {
    FramesOf(h.decoded) == h.owed
  }

  // One call more: what was caught up stays so exactly if the call is clean.
  lemma CaughtUpStep(codec: Codec, events: seq<Event>, n: nat)
    requires n < |events| && CaughtUp(Run(codec, START, events[..n]))
    ensures CaughtUp(Run(codec, START, events[..n + 1])) <==> Clean(codec, At(codec, events, n), events[n])
  {
    var h := Run(codec, START, events[..n]);
    CaughtIff(codec, events[..n]);
    CaughtIff(codec, events[..n + 1]);
    assert events[..n + 1][..n] == events[..n];
    AtNext(codec, events, n);
    CleanStep(codec, h.state, events[n]);
    AllLeftByAppend(h.gone, Step(codec, h.state, events[n]).gone, Queued);
  }

  lemma {:induction false} CleanCatchesUp(codec: Codec, events: seq<Event>, n: nat)
    requires n <= |events| && AllClean(codec, events)
    ensures CaughtUp(Run(codec, START, events[..n]))
    decreases n
  {
    if n > 0 {
      CleanCatchesUp(codec, events, n - 1);
      CaughtUpStep(codec, events, n - 1);
    }
  }

  // After every call all frames owed are queued if and only if no accepted packet gives a second
  // frame or fails with its first, and the decoder is closed only when it owes nothing.
  lemma PromptIff(codec: Codec, events: seq<Event>)
    ensures Prompt(codec, events) <==> AllClean(codec, events)
  {
    if AllClean(codec, events) {
      forall n: nat | n <= |events| ensures CaughtUp(Run(codec, START, events[..n])) {
        CleanCatchesUp(codec, events, n);
      }
    }
    if Prompt(codec, events) {
      forall k: nat | k < |events| ensures Clean(codec, At(codec, events, k), events[k]) {
        CaughtUpStep(codec, events, k);
      }
    }
  }

  // ---------- From packets to the caller ----------

  // Every frame owed so far was delivered or is still queued, in order.
  predicate Reached(h: History) {
    FramesOf(LeftBy(h.done, Delivered) + h.state.ctx.queue) == h.owed
  }

  lemma ReachedIff(codec: Codec, events: seq<Event>)
    ensures var h := Run(codec, START, events);
      Reached(h) <==> CaughtUp(h) && AllLeftBy(h.done, Delivered)
  {
    var h := Run(codec, START, events);
    RunConserves(codec, START, events);
    assert h.decoded == Items(h.done) + h.state.ctx.queue;
    AllLeftByIff(h.done, Delivered);
    RunFrames(codec, START, events);
    RunQueues(codec, START, events);
    AllLeftByIff(h.gone, Queued);
    assert |h.owed| == |h.gone| + |Inside(codec, h.state.ctx)|;
    CaughtIff(codec, events);
  }

  // After every call all frames owed have been delivered or are queued, in order, if and only if
  // every call is clean and none throws queued samples away.
  lemma AllReachedIff(codec: Codec, events: seq<Event>)
    ensures (forall n: nat :: n <= |events| ==> Reached(Run(codec, START, events[..n])))
      <==> AllClean(codec, events) && NoLoss(codec, START, events)
  {
    PromptIff(codec, events);
    forall n: nat | n <= |events|
      ensures Reached(Run(codec, START, events[..n]))
        <==> CaughtUp(Run(codec, START, events[..n])) && NoLoss(codec, START, events[..n])
    {
      ReachedIff(codec, events[..n]);
      NoLossIff(codec, START, events[..n]);
    }
    assert events[..|events|] == events;
    if NoLoss(codec, START, events) {
      forall n: nat | n <= |events| ensures NoLoss(codec, START, events[..n]) {
        NoLossPrefix(codec, START, events, n);
      }
    }
  }

  // ---------- When a null output type is used ----------

  // Over whole runs: a valid ProcessOutput call on a live transform uses a null output type exactly
  // if the output type was cleared while a stream change was due, and not set again since.
  lemma NullTypeIff(codec: Codec, events: seq<Event>, o: OutputCall)
    requires ValidOutput(o) && !Run(codec, START, events).state.shutdown
    ensures Step(codec, Run(codec, START, events).state, TakeOutput(o)).hr.Undefined?
      <==> exists k: nat :: SetSince(codec, TypeMissing, events, k, |events|)
  {
    assert events[..|events|] == events;
    FlagIff(codec, TypeMissing, events, |events|);
    assert On(TypeMissing, At(codec, events, |events|)) <==>
      Step(codec, Run(codec, START, events).state, TakeOutput(o)).hr.Undefined?;
  }

  // ---------- When input is turned away ----------

  // Over whole runs: valid input is turned away exactly if a drain or a new type came since the last
  // sample was taken, a stream change is due, or initialising finds one.
  lemma TurnedAwayIff(codec: Codec, events: seq<Event>, i: InputCall)
    requires i.sample && i.stream == 0 && i.flags == 0 && i.buffers > 0 && i.packet.Some?
    requires !Run(codec, START, events).state.shutdown
    ensures var s := Run(codec, START, events).state;
      Input(codec, s, i).hr.NotAccepting? <==>
        || (exists k: nat :: SetSince(codec, OutputWanted, events, k, |events|))
        || s.ctx.change
        || (!s.ctx.initialized && s.input.Some? && s.output.Some? && i.init.InitDone? && i.init.change)
  {
    assert events[..|events|] == events;
    RunConsistent(codec, START, events);
    NotAcceptingIff(codec, Run(codec, START, events).state, i);
    FlagIff(codec, OutputWanted, events, |events|);
    assert On(OutputWanted, At(codec, events, |events|)) <==>
      At(codec, events, |events|).draining || At(codec, events, |events|).formatChange;
  }

  // ---------- Concrete runs ----------

  lemma RunThen(codec: Codec, s: State, events: seq<Event>, e: Event)
    ensures var h := Run(codec, s, events);
      var f := Step(codec, h.state, e);
      Run(codec, s, events + [e])
        == History(f.next, h.owed + f.owed, h.gone + f.gone, h.decoded + f.decoded, h.done + f.done)
  {
    assert (events + [e])[..|events|] == events;
  }

  function Give(packet: nat): Event {
    GiveInput(InputCall(true, 0, 0, 1, Some(packet), InitDone(false), Fine))
  }

  // Both types are set, and one output call rebuilds the context.
  function Setup(): seq<Event> {
    [ChangeInputType(TypeCall(0, Some(1), true, false))] + [ChangeOutputType(TypeCall(0, Some(2), true, false))]
      + [TakeOutput(OutputCall(true, 1, 0, true, true))]
  }

  function Ready(): State {
    START.(input := Some(1), output := Some(2))
  }

  lemma SetUp(codec: Codec)
    ensures Run(codec, START, Setup()) == History(Ready(), [], [], [], [])
  {
    var a := ChangeInputType(TypeCall(0, Some(1), true, false));
    var b := ChangeOutputType(TypeCall(0, Some(2), true, false));
    var none: seq<Event> := [];
    assert none + [a] == [a];
    RunThen(codec, START, none, a);
    RunThen(codec, START, [a], b);
    RunThen(codec, START, [a] + [b], TakeOutput(OutputCall(true, 1, 0, true, true)));
  }

  // Every packet gives its number twice.
  function Doubling(): Codec {
    Codec((input, fed, packet) => [packet, packet], (input, fed) => [])
  }

  // Every packet gives the number of the one before.
  function Delaying(): Codec {
    Codec((input, fed, packet) => Last(fed), (input, fed) => Last(fed))
  }

  function Last(fed: seq<nat>): seq<nat> {
    if fed == [] then [] else [fed[|fed| - 1]]
  }

  lemma DoubledSteps()
    ensures var x := Sample(7, 1);
      var s := Ready().(ctx := Context(true, false, 1, [7], [7], None, [x]));
      && Step(Doubling(), Ready(), Give(7)) == Effect(s, Ok, [7, 7], [Out(7, Queued)], [x], [])
      && Step(Doubling(), s, Give(8))
         == Effect(s.(ctx := Context(true, false, 1, [7], [], Some(8), [x, x])), Ok, [8, 8], [Out(7, Queued)], [x], [])
  {
  }

  lemma OneGiven()
    ensures var x := Sample(7, 1);
      Run(Doubling(), START, Setup() + [Give(7)])
        == History(Ready().(ctx := Context(true, false, 1, [7], [7], None, [x])), [7, 7], [Out(7, Queued)], [x], [])
  {
    var codec, none := Doubling(), [];
    SetUp(codec);
    DoubledSteps();
    RunThen(codec, START, Setup(), Give(7));
    assert none + [7, 7] == [7, 7];
  }

  lemma TwoGiven() returns (h: History)
    ensures h == Run(Doubling(), START, Setup() + [Give(7)] + [Give(8)])
    ensures h.owed == [7, 7, 8, 8] && h.decoded == [Sample(7, 1), Sample(7, 1)]
    ensures h.state.ctx == Context(true, false, 1, [7], [], Some(8), h.decoded)
    ensures !h.state.draining && !h.state.formatChange && !h.state.shutdown
  {
    OneGiven();
    DoubledSteps();
    RunThen(Doubling(), START, Setup() + [Give(7)], Give(8));
    h := Run(Doubling(), START, Setup() + [Give(7)] + [Give(8)]);
  }

  lemma GiveIsRefused(codec: Codec, s: State, packet: nat)
    requires s.ctx.initialized && !s.ctx.change && s.ctx.slot.Some?
    requires !s.draining && !s.formatChange && !s.shutdown
    ensures Step(codec, s, Give(packet)) == Quiet(s, Unexpected)
  {
  }

  // Two frames for the first packet: the second is accepted behind them, the third refused, and
  // the caller never sees what the second holds.
  lemma ThirdPacketIsRefused()
    ensures var h := Run(Doubling(), START, Setup() + [Give(7)] + [Give(8)]);
      && h.owed == [7, 7, 8, 8] && FramesOf(h.decoded) == [7, 7]
      && Step(Doubling(), h.state, Give(9)) == Quiet(h.state, Unexpected)
  {
    var h := TwoGiven();
    GiveIsRefused(Doubling(), h.state, 9);
  }

  lemma DelayedSteps()
    ensures var c := Context(true, false, 1, [7], [], None, []);
      && Step(Delaying(), Ready(), Give(7)) == Quiet(Ready().(ctx := c), False)
      && Lost(Delaying(), c) == Held(Delaying(), c) == [7]
  {
    assert [7] + [] == [7] && [] + [7] == [7];
  }

  lemma DrainDiscards(codec: Codec, s: State)
    requires s.ctx.initialized && !s.shutdown
    ensures Step(codec, s, Drain(true)) == Effect(
      s.(draining := true, ctx := Reopened(s.ctx)), Ok, Held(codec, s.ctx), Mark(Lost(codec, s.ctx), Discarded), [], [])
  {
  }

  // Draining, which is to bring out what is left, closes the decoder over the frame it holds.
  lemma DrainLosesFrame()
    ensures var h := Run(Delaying(), START, Setup() + [Give(7)] + [Drain(true)]);
      h.owed == [7] && h.gone == [Out(7, Discarded)] && h.decoded == [] && h.state.ctx.queue == []
  {
    var codec, before := Delaying(), Setup() + [Give(7)];
    SetUp(codec);
    DelayedSteps();
    RunThen(codec, START, Setup(), Give(7));
    var s := Run(codec, START, before).state;
    DrainDiscards(codec, s);
    RunThen(codec, START, before, Drain(true));
  }
}
