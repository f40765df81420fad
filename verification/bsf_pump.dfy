// output_packet: a packet, or the end of the stream, is pushed through the chain of bitstream
// filters of one output stream until every filter is drained.
module BsfPump {

  // What is sent to a filter. The source signals the end with a null packet.
  datatype Item<P> = Packet(p: P) | Eof

  // What receiving from a filter answers.
  datatype Received<P> = Got(p: P) | Again | End

  // A filter is a transducer: one item in, finitely many packets out. The state of a filter
  // says which filter it is, so one step function serves the whole chain.
  type Step<!S, !P> = (S, Item<P>) -> (S, seq<P>)

  function Items<P>(ps: seq<P>): (r: seq<Item<P>>)
    ensures |r| == |ps| && forall i :: 0 <= i < |ps| ==> r[i] == Packet(ps[i])
  {
    seq(|ps|, i requires 0 <= i < |ps| => Packet(ps[i]))
  }

  // What a filter passes on for one item: its packets, and the end if it was told the end.
  function PassedOn<S, P>(step: Step<S, P>, s: S, item: Item<P>): seq<Item<P>> {
    Items(step(s, item).1) + if item.Eof? then [Eof] else []
  }

  // ---------- One filter after the other ----------

  // A whole run of one filter over a list of items.
  datatype Stage<S, P> = Stage(state: S, out: seq<Item<P>>)

  function RunStage<S, P>(step: Step<S, P>, s: S, items: seq<Item<P>>): Stage<S, P> {
    if items == [] then Stage(s, []) else
      var rest := RunStage(step, step(s, items[0]).0, items[1..]);
      Stage(rest.state, PassedOn(step, s, items[0]) + rest.out)
  }

  // The packets among some items.
  function Packets<P>(items: seq<Item<P>>): seq<P> {
    if items == [] then []
    else (if items[0].Packet? then [items[0].p] else []) + Packets(items[1..])
  }

  // The composed filters k, k+1, ...: the whole output of one is the whole input of the next.
  function Composed<S, P>(step: Step<S, P>, states: seq<S>, k: nat, items: seq<Item<P>>): seq<P>
    requires k <= |states|
    decreases |states| - k
  {
    if k == |states| then Packets(items)
    else Composed(step, states, k + 1, RunStage(step, states[k], items).out)
  }

  // ---------- One packet after the other ----------

  // What is left when each item is carried through to the muxer before the next one is taken:
  // the filters' states, the packets written and an upper bound on the rounds of the pump.
  datatype Outcome<S, P> = Outcome(states: seq<S>, written: seq<P>, rounds: nat) {
    function Then(later: Outcome<S, P>): Outcome<S, P> {
      Outcome(later.states, written + later.written, rounds + later.rounds)
    }
  }

  function Feed<S, P>(step: Step<S, P>, states: seq<S>, k: nat, items: seq<Item<P>>): (r: Outcome<S, P>)
    requires k <= |states|
    ensures |r.states| == |states| && r.states[..k] == states[..k]
    decreases |states| - k, |items|
  {
    if items == [] then Outcome(states, [], 0) else
      var one := FeedOne(step, states, k, items[0]);
      one.Then(Feed(step, one.states, k, items[1..]))
  }

  function FeedOne<S, P>(step: Step<S, P>, states: seq<S>, k: nat, item: Item<P>): (r: Outcome<S, P>)
    requires k <= |states|
    ensures |r.states| == |states| && r.states[..k] == states[..k]
    ensures k < |states| ==> r.states[k] == step(states[k], item).0
    decreases |states| - k, 0
  {
    if k == |states| then
      Outcome(states, if item.Packet? then [item.p] else [], 1)
    else
      var inner := Feed(step, states[k := step(states[k], item).0], k + 1, PassedOn(step, states[k], item));
      assert inner.states[k] == inner.states[..k + 1][k];
      Outcome(inner.states, inner.written, inner.rounds + 2)
  }

  lemma {:induction false} FeedAppend<S, P>(step: Step<S, P>, states: seq<S>, k: nat, a: seq<Item<P>>, b: seq<Item<P>>)
    requires k <= |states|
    ensures Feed(step, states, k, a + b)
      == Feed(step, states, k, a).Then(Feed(step, Feed(step, states, k, a).states, k, b))
    decreases |a|
  {
    if a == [] {
      assert a + b == b;
    } else {
      assert (a + b)[0] == a[0] && (a + b)[1..] == a[1..] + b;
      FeedAppend(step, FeedOne(step, states, k, a[0]).states, k, a[1..], b);
    }
  }

  // Filters above k do not look at filter j < k.
  lemma {:induction false} FeedFrame<S, P>(step: Step<S, P>, states: seq<S>, k: nat, items: seq<Item<P>>, j: nat, s: S)
    requires j < k <= |states|
    ensures var r := Feed(step, states, k, items);
      Feed(step, states[j := s], k, items) == Outcome(r.states[j := s], r.written, r.rounds)
    decreases |states| - k, |items|
  {
    if items != [] {
      FeedOneFrame(step, states, k, items[0], j, s);
      FeedFrame(step, FeedOne(step, states, k, items[0]).states, k, items[1..], j, s);
    }
  }

  lemma {:induction false} FeedOneFrame<S, P>(step: Step<S, P>, states: seq<S>, k: nat, item: Item<P>, j: nat, s: S)
    requires j < k <= |states|
    ensures var r := FeedOne(step, states, k, item);
      FeedOne(step, states[j := s], k, item) == Outcome(r.states[j := s], r.written, r.rounds)
    decreases |states| - k, 0
  {
    if k < |states| {
      var next := step(states[k], item).0;
      FeedFrame(step, states[k := next], k + 1, PassedOn(step, states[k], item), j, s);
      assert states[j := s][k := next] == states[k := next][j := s];
    }
  }

  // Same filters and same packets written, whatever the number of rounds.
  ghost predicate Agree<S, P>(a: Outcome<S, P>, b: Outcome<S, P>) {
    a.states == b.states && a.written == b.written
  }

  // Carrying single items through the chain is the same as running filter k to its end first.
  lemma {:induction false} StageFirst<S, P>(step: Step<S, P>, states: seq<S>, k: nat, items: seq<Item<P>>)
    requires k < |states|
    ensures var stage := RunStage(step, states[k], items);
      Agree(Feed(step, states, k, items), Feed(step, states[k := stage.state], k + 1, stage.out))
    decreases |items|
  {
    var stage := RunStage(step, states[k], items);
    if items == [] {
      assert states[k := stage.state] == states;
    } else {
      StageFirst(step, FeedOne(step, states, k, items[0]).states, k, items[1..]);
      StageFirstStep(step, states, k, items[0], RunStage(step, step(states[k], items[0]).0, items[1..]));
    }
  }

  lemma StageFirstStep<S, P>(step: Step<S, P>, states: seq<S>, k: nat, item: Item<P>, rest: Stage<S, P>)
    requires k < |states|
    ensures var one := FeedOne(step, states, k, item);
      Agree(one.Then(Feed(step, one.states[k := rest.state], k + 1, rest.out)),
            Feed(step, states[k := rest.state], k + 1, PassedOn(step, states[k], item) + rest.out))
  {
    var next, passed := step(states[k], item).0, PassedOn(step, states[k], item);
    FeedFrame(step, states[k := next], k + 1, passed, k, rest.state);
    assert states[k := next][k := rest.state] == states[k := rest.state];
    FeedAppend(step, states[k := rest.state], k + 1, passed, rest.out);
  }

  // The pump's depth-first order writes exactly what the composed filters produce.
  lemma {:induction false} FeedIsComposition<S, P>(step: Step<S, P>, states: seq<S>, k: nat, items: seq<Item<P>>)
    requires k <= |states|
    ensures Feed(step, states, k, items).written == Composed(step, states, k, items)
    decreases |states| - k
  {
    if k == |states| {
      FeedAtMuxer(step, states, items);
    } else {
      var stage := RunStage(step, states[k], items);
      StageFirst(step, states, k, items);
      FeedIsComposition(step, states[k := stage.state], k + 1, stage.out);
      ComposedFrame(step, states, k + 1, stage.out, k, stage.state);
    }
  }

  lemma {:induction false} FeedAtMuxer<S, P>(step: Step<S, P>, states: seq<S>, items: seq<Item<P>>)
    ensures Feed(step, states, |states|, items).written == Packets(items)
    decreases |items|
  {
    if items != [] { FeedAtMuxer(step, states, items[1..]); }
  }

  lemma {:induction false} ComposedFrame<S, P>(step: Step<S, P>, states: seq<S>, k: nat, items: seq<Item<P>>, j: nat,
                                               s: S)
    requires j < k <= |states|
    ensures Composed(step, states[j := s], k, items) == Composed(step, states, k, items)
    decreases |states| - k
  {
    if k < |states| {
      ComposedFrame(step, states, k + 1, RunStage(step, states[k], items).out, j, s);
    }
  }

  // What a run of calls writes, one call for each item.
  function Calls<S, P>(step: Step<S, P>, states: seq<S>, items: seq<Item<P>>): seq<P>
    decreases |items|
  {
    if items == [] then []
    else Composed(step, states, 0, [items[0]]) + Calls(step, Feed(step, states, 0, [items[0]]).states, items[1..])
  }

  // Over a whole stream the calls together write what the composed filters make of it.
  lemma {:induction false} CallsAreComposition<S, P>(step: Step<S, P>, states: seq<S>, items: seq<Item<P>>)
    ensures Calls(step, states, items) == Composed(step, states, 0, items)
    decreases |items|
  {
    FeedIsComposition(step, states, 0, items);
    if items != [] {
      var one := Feed(step, states, 0, [items[0]]);
      assert items == [items[0]] + items[1..];
      FeedAppend(step, states, 0, [items[0]], items[1..]);
      FeedIsComposition(step, states, 0, [items[0]]);
      FeedIsComposition(step, one.states, 0, items[1..]);
      CallsAreComposition(step, one.states, items[1..]);
    }
  }

  // ---------- What the pump still owes ----------

  // What filter j has yet to hand on: its pending packets, then the end unless that was passed on.
  function Due<P>(pending: seq<seq<P>>, ended: seq<bool>, j: nat): seq<Item<P>>
    requires j < |pending| == |ended|
  {
    Items(pending[j]) + if ended[j] && (j + 1 == |ended| || !ended[j + 1]) then [Eof] else []
  }

  // What the rounds from filter idx - 1 downwards still bring about.
  function Remaining<S, P>(step: Step<S, P>, states: seq<S>, pending: seq<seq<P>>, ended: seq<bool>,
                           idx: nat): (r: Outcome<S, P>)
    requires idx <= |states| == |pending| == |ended|
    decreases idx, states
  {
    if idx == 0 then Outcome(states, [], 0) else
      var now := Feed(step, states, idx, Due(pending, ended, idx - 1));
      var below := Remaining(step, now.states, pending, ended, idx - 1);
      now.Then(below).(rounds := now.rounds + below.rounds + 1)
  }

  // Filters from idx on are drained; a filter that saw the end has a drained predecessor that
  // saw it too.
  ghost predicate Orderly<P>(pending: seq<seq<P>>, ended: seq<bool>, idx: nat) {
    && |pending| == |ended| && idx <= |pending|
    && (forall j :: idx <= j < |pending| ==> pending[j] == [] && !ended[j])
    && (forall j :: 0 < j < |ended| && ended[j] ==> ended[j - 1] && pending[j - 1] == [])
  }

  // The lower filters do not see changes above them.
  lemma {:induction false} RemainingFrame<S, P>(step: Step<S, P>, states: seq<S>, p: seq<seq<P>>, e: seq<bool>,
                                                q: seq<seq<P>>, d: seq<bool>, idx: nat)
    requires idx <= |states| == |p| == |e| == |q| == |d|
    requires forall j :: 0 <= j < idx ==> Due(p, e, j) == Due(q, d, j)
    ensures Remaining(step, states, p, e, idx) == Remaining(step, states, q, d, idx)
    decreases idx
  {
    if idx > 0 {
      RemainingFrame(step, Feed(step, states, idx, Due(p, e, idx - 1)).states, p, e, q, d, idx - 1);
    }
  }

  // Once the last filter has handed on the end nothing is owed any more.
  lemma {:induction false} NothingOwed<S, P>(step: Step<S, P>, states: seq<S>, pending: seq<seq<P>>, ended: seq<bool>,
                                             idx: nat)
    requires idx <= |states| == |pending| == |ended|
    requires forall j :: 0 <= j < idx ==> Due(pending, ended, j) == []
    ensures var r := Remaining(step, states, pending, ended, idx); r.states == states && r.written == []
    decreases idx
  {
    if idx > 0 { NothingOwed(step, states, pending, ended, idx - 1); }
  }

  lemma ThenAssociative<S, P>(a: Outcome<S, P>, b: Outcome<S, P>, c: Outcome<S, P>)
    ensures a.Then(b).Then(c) == a.Then(b.Then(c))
  {
    assert (a.written + b.written) + c.written == a.written + (b.written + c.written);
  }

  // Remaining, with the round itself and the rounds below it apart.
  lemma RemainingStep<S, P>(step: Step<S, P>, states: seq<S>, p: seq<seq<P>>, e: seq<bool>, idx: nat, item: Item<P>,
                            rest: seq<Item<P>>)
    requires 0 < idx <= |states| == |p| == |e| && Due(p, e, idx - 1) == [item] + rest
    ensures var one := FeedOne(step, states, idx, item);
      var now := Feed(step, one.states, idx, rest);
      var below := Remaining(step, now.states, p, e, idx - 1);
      var all := one.Then(now.Then(below));
      Remaining(step, states, p, e, idx) == all.(rounds := all.rounds + 1)
  {
    var due := Due(p, e, idx - 1);
    assert due[0] == item && due[1..] == rest;
    var one := FeedOne(step, states, idx, item);
    var now := Feed(step, one.states, idx, rest);
    ThenAssociative(one, now, Remaining(step, now.states, p, e, idx - 1));
  }

  function RoundsMore<S, P>(o: Outcome<S, P>): Outcome<S, P> {
    o.(rounds := o.rounds + 1)
  }

  lemma OneThrough<S, P>(one: Outcome<S, P>, passed: Outcome<S, P>, all: Outcome<S, P>)
    requires one == passed.(rounds := passed.rounds + 2)
    ensures RoundsMore(one.Then(all)) == RoundsMore(RoundsMore(passed.Then(RoundsMore(all))))
  {
  }

  // One round of the pump that hands an item from filter idx - 1 down to filter idx.
  lemma HandDown<S, P>(step: Step<S, P>, states: seq<S>, p: seq<seq<P>>, e: seq<bool>, q: seq<seq<P>>, d: seq<bool>,
                       idx: nat, item: Item<P>)
    requires 0 < idx < |states| == |p| == |e| == |q| == |d|
    requires Due(p, e, idx - 1) == [item] + Due(q, d, idx - 1)
    requires Due(q, d, idx) == PassedOn(step, states[idx], item)
    requires forall j :: 0 <= j < idx - 1 ==> Due(q, d, j) == Due(p, e, j)
    ensures var before := Remaining(step, states, p, e, idx);
      var after := Remaining(step, states[idx := step(states[idx], item).0], q, d, idx + 1);
      before == after.(rounds := after.rounds + 1)
  {
    var rest, one := Due(q, d, idx - 1), FeedOne(step, states, idx, item);
    var now := Feed(step, one.states, idx, rest);
    var below, given := Remaining(step, now.states, p, e, idx - 1), states[idx := step(states[idx], item).0];
    RemainingStep(step, states, p, e, idx, item, rest);
    RemainingBelow(step, one.states, p, e, q, d, idx, now, below);
    var passed := Feed(step, given, idx + 1, Due(q, d, idx));
    RemainingBelow(step, given, q, d, q, d, idx + 1, passed, RoundsMore(now.Then(below)));
    OneThrough(one, passed, now.Then(below));
  }

  // What is owed from idx on, in terms of what is owed below before the round.
  lemma RemainingBelow<S, P>(step: Step<S, P>, states: seq<S>, p: seq<seq<P>>, e: seq<bool>, q: seq<seq<P>>,
                             d: seq<bool>, idx: nat, now: Outcome<S, P>, below: Outcome<S, P>)
    requires 0 < idx <= |states| == |p| == |e| == |q| == |d|
    requires forall j :: 0 <= j < idx - 1 ==> Due(q, d, j) == Due(p, e, j)
    requires now == Feed(step, states, idx, Due(q, d, idx - 1))
    requires below == Remaining(step, now.states, p, e, idx - 1)
    ensures Remaining(step, states, q, d, idx) == RoundsMore(now.Then(below))
  {
    RemainingAt(step, states, q, d, idx, now);
    RemainingFrame(step, now.states, p, e, q, d, idx - 1);
    assert below == Remaining(step, now.states, q, d, idx - 1);
  }

  lemma RemainingAt<S, P>(step: Step<S, P>, states: seq<S>, q: seq<seq<P>>, d: seq<bool>, idx: nat, now: Outcome<S, P>)
    requires 0 < idx <= |states| == |q| == |d| && now == Feed(step, states, idx, Due(q, d, idx - 1))
    ensures Remaining(step, states, q, d, idx)
      == RoundsMore(now.Then(Remaining(step, now.states, q, d, idx - 1)))
  {
  }

  lemma OneFirst<S, P>(one: Outcome<S, P>, all: Outcome<S, P>)
    ensures RoundsMore(one.Then(all)) == Outcome(all.states, one.written + all.written, all.rounds + one.rounds + 1)
  {
  }

  lemma FeedOut<S, P>(step: Step<S, P>, states: seq<S>, packet: P)
    ensures FeedOne(step, states, |states|, Packet(packet)) == Outcome(states, [packet], 1)
  {
  }

  // One round that writes a packet of the last filter.
  lemma HandOut<S, P>(step: Step<S, P>, states: seq<S>, p: seq<seq<P>>, e: seq<bool>, q: seq<seq<P>>, n: nat, packet: P)
    requires 0 < n == |states| == |p| == |e| == |q|
    requires Due(p, e, n - 1) == [Packet(packet)] + Due(q, e, n - 1)
    requires forall j :: 0 <= j < n - 1 ==> Due(q, e, j) == Due(p, e, j)
    ensures var before, after := Remaining(step, states, p, e, n), Remaining(step, states, q, e, n);
      before == Outcome(after.states, [packet] + after.written, after.rounds + 1)
  {
    var rest, one := Due(q, e, n - 1), Outcome(states, [packet], 1);
    var now := Feed(step, states, n, rest);
    var below := Remaining(step, now.states, p, e, n - 1);
    FeedOut(step, states, packet);
    RemainingStep(step, states, p, e, n, Packet(packet), rest);
    assert Remaining(step, states, p, e, n) == RoundsMore(one.Then(now.Then(below)));
    RemainingBelow(step, states, p, e, q, e, n, now, below);
    OneFirst(one, now.Then(below));
  }

  lemma PacketGoesDown<P>(p: seq<seq<P>>, e: seq<bool>, idx: nat, out: seq<P>)
    requires 0 < idx < |p| && Orderly(p, e, idx) && p[idx - 1] != []
    ensures var q, d := p[idx - 1 := p[idx - 1][1..]][idx := out], e[idx := false];
      && Orderly(q, d, idx + 1)
      && Due(p, e, idx - 1) == [Packet(p[idx - 1][0])] + Due(q, d, idx - 1)
      && Due(q, d, idx) == Items(out)
      && forall j :: 0 <= j < idx - 1 ==> Due(q, d, j) == Due(p, e, j)
  {
  }

  lemma EndGoesDown<P>(p: seq<seq<P>>, e: seq<bool>, idx: nat, out: seq<P>)
    requires 0 < idx < |p| && Orderly(p, e, idx) && p[idx - 1] == [] && e[idx - 1]
    ensures var q, d := p[idx := out], e[idx := true];
      && Orderly(q, d, idx + 1)
      && Due(p, e, idx - 1) == [Eof] + Due(q, d, idx - 1)
      && Due(q, d, idx) == Items(out) + [Eof]
      && forall j :: 0 <= j < idx - 1 ==> Due(q, d, j) == Due(p, e, j)
  {
    assert Items(p[idx - 1]) == [];
  }

  lemma PacketGoesOut<P>(p: seq<seq<P>>, e: seq<bool>, n: nat)
    requires 0 < n == |p| && Orderly(p, e, n) && p[n - 1] != []
    ensures var q := p[n - 1 := p[n - 1][1..]];
      && Orderly(q, e, n)
      && Due(p, e, n - 1) == [Packet(p[n - 1][0])] + Due(q, e, n - 1)
      && forall j :: 0 <= j < n - 1 ==> Due(q, e, j) == Due(p, e, j)
  {
  }

  lemma {:induction false} EndReachesAll<P>(pending: seq<seq<P>>, ended: seq<bool>, j: nat)
    requires Orderly(pending, ended, |pending|) && j < |ended| && ended[j]
    ensures forall i :: 0 <= i <= j ==> ended[i]
    ensures forall i :: 0 <= i < j ==> pending[i] == []
  {
    if j > 0 { EndReachesAll(pending, ended, j - 1); }
  }

  // The loop head of the pump: everything from idx on is drained, and the rounds from idx - 1
  // downwards bring filters and muxer to the given end.
  ghost predicate Pumping<S, P>(step: Step<S, P>, states: seq<S>, p: seq<seq<P>>, e: seq<bool>, written: seq<P>,
                                idx: nat, end: Outcome<S, P>)
  {
    && |states| == |p| == |e| && idx <= |states| && Orderly(p, e, idx)
    && Remaining(step, states, p, e, idx).states == end.states
    && written + Remaining(step, states, p, e, idx).written == end.written
  }

  // A filter with nothing to hand on gives the turn back to the one before it.
  lemma TurnBack<S, P>(step: Step<S, P>, states: seq<S>, p: seq<seq<P>>, e: seq<bool>, written: seq<P>, idx: nat,
                       end: Outcome<S, P>)
    requires 0 < idx && Pumping(step, states, p, e, written, idx, end) && p[idx - 1] == [] && !e[idx - 1]
    ensures Pumping(step, states, p, e, written, idx - 1, end)
    ensures Remaining(step, states, p, e, idx - 1).rounds < Remaining(step, states, p, e, idx).rounds
  {
    assert Due(p, e, idx - 1) == [];
    var below := Remaining(step, states, p, e, idx - 1);
    assert [] + below.written == below.written;
  }

  lemma AllDone<S, P>(step: Step<S, P>, states: seq<S>, p: seq<seq<P>>, e: seq<bool>, written: seq<P>,
                      end: Outcome<S, P>)
    requires Pumping(step, states, p, e, written, 0, end)
    ensures states == end.states && written == end.written && forall j :: 0 <= j < |p| ==> p[j] == []
  {
    assert written + [] == written;
  }

  // When the last filter has handed on the end, nothing is owed.
  lemma EndIsLast<S, P>(step: Step<S, P>, states: seq<S>, p: seq<seq<P>>, e: seq<bool>, written: seq<P>, n: nat,
                        end: Outcome<S, P>)
    requires 0 < n == |states| && Pumping(step, states, p, e, written, n, end) && p[n - 1] == [] && e[n - 1]
    ensures states == end.states && written == end.written
    ensures forall j :: 0 <= j < n ==> p[j] == [] && e[j]
  {
    EndReachesAll(p, e, n - 1);
    assert Due(p, e, n - 1) == [] + [Eof];
    RemainingStep(step, states, p, e, n, Eof, []);
    assert FeedOne(step, states, n, Eof) == Outcome(states, [], 1);
    NothingOwed(step, states, p, e, n - 1);
    assert written + [] == written;
  }

  lemma FeedSingle<S, P>(step: Step<S, P>, states: seq<S>, item: Item<P>)
    ensures var one := FeedOne(step, states, 0, item);
      Feed(step, states, 0, [item]) == Outcome(one.states, one.written, one.rounds)
  {
    var one := FeedOne(step, states, 0, item);
    assert [item][1..] == [];
    assert one.written + [] == one.written;
  }

  lemma OwesOneFilter<S, P>(step: Step<S, P>, states: seq<S>, q: seq<seq<P>>, d: seq<bool>)
    requires 0 < |states| == |q| == |d|
    ensures Remaining(step, states, q, d, 1).states == Feed(step, states, 1, Due(q, d, 0)).states
    ensures Remaining(step, states, q, d, 1).written == Feed(step, states, 1, Due(q, d, 0)).written
  {
    var now := Feed(step, states, 1, Due(q, d, 0));
    assert now.written + [] == now.written;
  }

  // After filter 0 took an item of a drained chain, the pump owes what the item feeds.
  lemma FirstRound<S, P>(step: Step<S, P>, states: seq<S>, item: Item<P>, p: seq<seq<P>>, e: seq<bool>)
    requires 0 < |states| == |p| == |e| && Orderly(p, e, 0)
    ensures var q, d := p[0 := step(states[0], item).1], e[0 := item.Eof?];
      var rest := Remaining(step, states[0 := step(states[0], item).0], q, d, 1);
      && Orderly(q, d, 1)
      && rest.states == Feed(step, states, 0, [item]).states && rest.written == Feed(step, states, 0, [item]).written
  {
    var q, d := p[0 := step(states[0], item).1], e[0 := item.Eof?];
    assert Due(q, d, 0) == PassedOn(step, states[0], item);
    OwesOneFilter(step, states[0 := step(states[0], item).0], q, d);
    FeedSingle(step, states, item);
  }

  class OutputStream<S, P> {
    const step: Step<S, P>
    var states: seq<S>           // of the bitstream filters, first filter first
    var pending: seq<seq<P>>     // packets each filter has ready
    var ended: seq<bool>         // filters that were told the end
    var written: seq<P>          // packets handed to write_packet

    constructor (step: Step<S, P>, states: seq<S>)
      ensures Drained() && this.step == step && this.states == states && written == []
    {
      this.step, this.states := step, states;
      pending := seq(|states|, i => []);
      ended := seq(|states|, i => false);
      written := [];
    }

    ghost predicate Valid()
      reads this
    {
      |states| == |pending| == |ended|
    }

    // No filter has packets ready and none was told the end.
    ghost predicate Drained()
      reads this
    {
      Valid() && Orderly(pending, ended, 0)
    }

    // av_bsf_send_packet: a filter takes an item only when it is drained.
    method SendPacket(k: nat, item: Item<P>)
      requires Valid() && k < |states| && pending[k] == [] && !ended[k]
      modifies this
      ensures Valid() && written == old(written)
      ensures states == old(states)[k := step(old(states)[k], item).0]
      ensures pending == old(pending)[k := step(old(states)[k], item).1] && ended == old(ended)[k := item.Eof?]
    {
      var (s, out) := step(states[k], item);
      states, pending, ended := states[k := s], pending[k := out], ended[k := item.Eof?];
    }

    // av_bsf_receive_packet.
    method ReceivePacket(k: nat) returns (r: Received<P>)
      requires Valid() && k < |states|
      modifies `pending
      ensures Valid()
      ensures old(pending)[k] == [] ==> pending == old(pending) && r == if ended[k] then End else Again
      ensures old(pending)[k] != [] ==>
        r == Got(old(pending)[k][0]) && pending == old(pending)[k := old(pending)[k][1..]]
    {
      if pending[k] == [] {
        r := if ended[k] then End else Again;
      } else {
        r := Got(pending[k][0]);
        pending := pending[k := pending[k][1..]];
      }
    }

    // The item received from filter idx - 1, where p was pending before, goes to filter idx.
    method SendDown(idx: nat, r: Received<P>, ghost p: seq<seq<P>>, ghost end: Outcome<S, P>)
      requires 0 < idx < |states| && Pumping(step, states, p, ended, written, idx, end)
      requires if p[idx - 1] == [] then r.End? && ended[idx - 1] && pending == p
        else r == Got(p[idx - 1][0]) && pending == p[idx - 1 := p[idx - 1][1..]]
      modifies this
      ensures Pumping(step, states, pending, ended, written, idx + 1, end) && |states| == old(|states|)
      ensures Remaining(step, states, pending, ended, idx + 1).rounds
        < Remaining(step, old(states), p, old(ended), idx).rounds
      ensures ended == old(ended)[idx := r.End?]
    {
      ghost var e, s := ended, states;
      ghost var item := if r.End? then Eof else Packet(r.p);
      if r.End? {
        EndGoesDown(p, e, idx, step(s[idx], item).1);
      } else {
        PacketGoesDown(p, e, idx, step(s[idx], item).1);
      }
      SendPacket(idx, if r.End? then Eof else Packet(r.p));
      HandDown(step, s, p, e, pending, ended, idx, item);
    }

    // A packet received from the last filter is written.
    method WritePacket(idx: nat, pkt: P, ghost p: seq<seq<P>>, ghost end: Outcome<S, P>)
      requires 0 < idx == |states| && Pumping(step, states, p, ended, written, idx, end) && p[idx - 1] != []
      requires pkt == p[idx - 1][0] && pending == p[idx - 1 := p[idx - 1][1..]]
      modifies `written
      ensures Pumping(step, states, pending, ended, written, idx, end)
      ensures Remaining(step, states, pending, ended, idx).rounds < Remaining(step, states, p, ended, idx).rounds
    {
      PacketGoesOut(p, ended, idx);
      HandOut(step, states, p, ended, pending, idx, pkt);
      ghost var rest := Remaining(step, states, pending, ended, idx).written;
      assert (written + [pkt]) + rest == written + ([pkt] + rest);
      written := written + [pkt];
    }

    ghost predicate Finished(end: Outcome<S, P>, atEnd: bool)
      reads this
    {
      && Valid() && states == end.states && written == end.written
      && forall j :: 0 <= j < |pending| ==> pending[j] == [] && ended[j] == atEnd
    }

    // One round of the loop.
    method Round(idx: nat, ghost end: Outcome<S, P>, ghost atEnd: bool) returns (next: nat, done: bool)
      requires idx > 0 && Pumping(step, states, pending, ended, written, idx, end) && ended[0] == atEnd
      modifies this
      ensures if done then Finished(end, atEnd) else
        && |states| == old(|states|) && Pumping(step, states, pending, ended, written, next, end) && ended[0] == atEnd
        && Remaining(step, states, pending, ended, next).rounds
          < old(Remaining(step, states, pending, ended, idx).rounds)
    {
      next, done := idx, false;
      var eof := false;
      ghost var p := pending;
      var r := ReceivePacket(idx - 1);
      if r.Again? {
        TurnBack(step, states, pending, ended, written, idx, end);
        return idx - 1, false;
      } else if r.End? {
        eof := true;
      }
      if idx < |states| {
        SendDown(idx, r, p, end);
        return idx + 1, false;
      } else if eof {
        EndIsLast(step, states, pending, ended, written, idx, end);
        return idx, true;
      }
      WritePacket(idx, r.p, p, end);
    }

    // The loop of output_packet, after filter 0 took the item.
    method Pump(ghost end: Outcome<S, P>, ghost atEnd: bool)
      requires |states| > 0 && Pumping(step, states, pending, ended, written, 1, end) && ended[0] == atEnd
      modifies this
      ensures Valid() && states == end.states && written == end.written
      ensures forall j :: 0 <= j < |pending| ==> pending[j] == [] && ended[j] == atEnd
    {
      var idx: nat := 1;
      while idx > 0
        invariant |states| > 0 && Pumping(step, states, pending, ended, written, idx, end) && ended[0] == atEnd
        decreases Remaining(step, states, pending, ended, idx).rounds
      {
        var next, done := Round(idx, end, atEnd);
        if done { return; }
        idx := next;
      }
      AllDone(step, states, pending, ended, written, end);
    }

    // output_packet: writes what the composed filters make of the packet, or of the end, and
    // leaves every filter drained.
    method OutputPacket(pkt: P, atEnd: bool)
      requires Drained()
      modifies this
      ensures Valid() && states == Feed(step, old(states), 0, [if atEnd then Eof else Packet(pkt)]).states
      ensures written == old(written) + Composed(step, old(states), 0, [if atEnd then Eof else Packet(pkt)])
      ensures forall j :: 0 <= j < |pending| ==> pending[j] == [] && ended[j] == atEnd
    {
      ghost var item := if atEnd then Eof else Packet(pkt);
      FeedIsComposition(step, states, 0, [item]);
      assert [item][1..] == [];
      if |states| > 0 {
        ghost var fed := Feed(step, states, 0, [item]);
        ghost var end := Outcome(fed.states, written + fed.written, 0);
        FirstRound(step, states, item, pending, ended);
        SendPacket(0, if atEnd then Eof else Packet(pkt));
        Pump(end, atEnd);
      } else if !atEnd {
        written := written + [pkt];
      }
    }
  }
}
