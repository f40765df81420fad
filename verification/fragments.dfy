// The "cfrm" branch of decode_frame in 4xm.c: inter frames arrive in fragments, collected by
// frame id in a table of 100 slots until a frame is whole.
module Fragments {

  const SLOTS: nat := 100                 // CFRAME_BUFFER_COUNT
  const UINT_MAX: int := 0xFFFF_FFFF
  const PADDING: int := 64                // AV_INPUT_BUFFER_PADDING_SIZE

  // A slot with the bytes collected so far; a slot without bytes counts as free.
  datatype Slot = Slot(id: int, data: seq<nat>)

  datatype Fragment = Fragment(id: int, whole: int, payload: seq<nat>)

  // Complete carries the assembled frame. NoSlot is the case in which the source would use
  // index -1 of the table.
  datatype Answer = Invalid | NoSlot | Stored | Complete(data: seq<nat>)

  // ---------- The table ----------

  // The first slot with the id, or SLOTS.
  function SlotOf(slots: seq<Slot>, id: int, from: nat): (i: nat)
    requires from <= |slots|
    ensures from <= i <= |slots| && (i < |slots| ==> slots[i].id == id)
    ensures forall k :: from <= k < i ==> slots[k].id != id
    decreases |slots| - from
  {
    if from == |slots| || slots[from].id == id then from else SlotOf(slots, id, from + 1)
  }

  // The last free slot, or -1.
  function FreeSlot(slots: seq<Slot>): (i: int)
    ensures -1 <= i < |slots| && (i >= 0 ==> slots[i].data == [])
    ensures i == -1 ==> forall k :: 0 <= k < |slots| ==> slots[k].data != []
  {
    if slots == [] then -1
    else if slots[|slots| - 1].data == [] then |slots| - 1
    else FreeSlot(slots[..|slots| - 1])
  }

  // What one fragment does to the table.
  function Step(slots: seq<Slot>, f: Fragment): (seq<Slot>, Answer) {
    if f.whole < 0 then (slots, Invalid) else
      var found := SlotOf(slots, f.id, 0);
      var i := if found < |slots| then found else FreeSlot(slots);
      if i < 0 then (slots, NoSlot) else
        var had := slots[i].data;
        if |f.payload| > UINT_MAX - |had| - PADDING then (slots[i := Slot(f.id, had)], Invalid)
        else if |had| + |f.payload| >= f.whole then (slots[i := Slot(0, [])], Complete(had + f.payload))
        else (slots[i := Slot(f.id, had + f.payload)], Stored)
  }

  // ---------- What the table means ----------

  // The bytes held for an id, over all slots.
  ghost function Held(slots: seq<Slot>, id: int): (bytes: seq<nat>)
    ensures bytes != [] ==> exists i :: 0 <= i < |slots| && slots[i] == Slot(id, bytes)
    ensures bytes == [] ==> forall i :: 0 <= i < |slots| && slots[i].id == id ==> slots[i].data == []
  {
    if slots == [] then []
    else if slots[0].id == id && slots[0].data != [] then slots[0].data
    else Held(slots[1..], id)
  }

  // No two slots have the same id, except that many may have id 0 while at most one of those
  // holds bytes.
  ghost predicate Tidy(slots: seq<Slot>) {
    && (forall i, k :: 0 <= i < k < |slots| && slots[i].id != 0 ==> slots[i].id != slots[k].id)
    && (forall i, k :: 0 <= i < k < |slots| && slots[i].id == slots[k].id == 0
         ==> slots[i].data == [] || slots[k].data == [])
  }

  // Of the slots with id 0 only the first may hold bytes.
  ghost predicate ZeroFirst(slots: seq<Slot>) {
    forall i, k :: 0 <= i < k < |slots| && slots[i].id == slots[k].id == 0 ==> slots[k].data == []
  }

  // What a fragment should answer, given what is held for its id.
  ghost function Expected(held: seq<nat>, f: Fragment): Answer {
    if f.whole < 0 || |f.payload| > UINT_MAX - |held| - PADDING then Invalid
    else if |held| + |f.payload| >= f.whole then Complete(held + f.payload)
    else Stored
  }

  ghost function HeldAfter(held: seq<nat>, f: Fragment): seq<nat> {
    match Expected(held, f)
    case Complete(_) => []
    case Stored => held + f.payload
    case _ => held
  }

  // The fragment was treated as if there were one buffer per id.
  ghost predicate Faithful(slots: seq<Slot>, f: Fragment) {
    var (after, answer) := Step(slots, f);
    && answer == Expected(Held(slots, f.id), f)
    && forall id :: Held(after, id) == if id == f.id then HeldAfter(Held(slots, id), f) else Held(slots, id)
  }

  lemma HeldIs(slots: seq<Slot>, i: nat)
    requires Tidy(slots) && i < |slots| && slots[i].data != []
    ensures Held(slots, slots[i].id) == slots[i].data
  {
    var id, bytes := slots[i].id, Held(slots, slots[i].id);
    assert bytes != [];
    var k: nat :| k < |slots| && slots[k] == Slot(id, bytes);
    assert k == i;
  }

  lemma HeldNothing(slots: seq<Slot>, id: int)
    requires forall i :: 0 <= i < |slots| && slots[i].id == id ==> slots[i].data == []
    ensures Held(slots, id) == []
  {
  }

  // Changing a slot that held `had` for no other id changes what is held for this id only.
  lemma HeldUpdate(slots: seq<Slot>, i: nat, s: Slot, id: int)
    requires Tidy(slots) && i < |slots| && Tidy(slots[i := s])
    requires slots[i].data == [] || slots[i].id != id
    requires s.data == [] || s.id != id
    ensures Held(slots[i := s], id) == Held(slots, id)
  {
    var after := slots[i := s];
    var bytes := Held(slots, id);
    if bytes != [] {
      var k :| 0 <= k < |slots| && slots[k] == Slot(id, bytes);
      assert after[k] == slots[k];
      HeldIs(after, k);
    } else {
      HeldNothing(after, id);
    }
  }

  // ---------- One fragment ----------

  // A fragment finds no slot exactly when its id is not in the table and all slots hold bytes.
  lemma NoSlotIff(slots: seq<Slot>, f: Fragment)
    ensures Step(slots, f).1.NoSlot? <==>
      f.whole >= 0 && forall i :: 0 <= i < |slots| ==> slots[i].id != f.id && slots[i].data != []
  {
  }

  // The slot a fragment goes to.
  ghost function Target(slots: seq<Slot>, id: int): int {
    var found := SlotOf(slots, id, 0);
    if found < |slots| then found else FreeSlot(slots)
  }

  // The table stays tidy when the target slot holds what is held for the id.
  lemma StepKeepsTidy(slots: seq<Slot>, f: Fragment)
    requires Tidy(slots) && (f.id != 0 || ZeroFirst(slots))
    ensures Tidy(Step(slots, f).0)
  {
  }

  lemma TargetHolds(slots: seq<Slot>, id: int)
    requires Tidy(slots) && (id != 0 || ZeroFirst(slots)) && Target(slots, id) >= 0
    ensures slots[Target(slots, id)].data == Held(slots, id)
    ensures slots[Target(slots, id)].id == id || slots[Target(slots, id)].data == []
  {
    var i := Target(slots, id);
    if slots[i].id == id && slots[i].data != [] {
      HeldIs(slots, i);
    } else {
      HeldNothing(slots, id);
    }
  }

  // One buffer per id: a fragment of another id than 0, or of id 0 while its bytes lie in the
  // first slot with that id, is answered faithfully.
  lemma FaithfulStep(slots: seq<Slot>, f: Fragment)
    requires Tidy(slots) && (f.id != 0 || ZeroFirst(slots)) && !Step(slots, f).1.NoSlot?
    ensures Faithful(slots, f)
  {
    StepKeepsTidy(slots, f);
    if f.whole >= 0 {
      TargetHolds(slots, f.id);
      forall id: int
        ensures Held(Step(slots, f).0, id) == if id == f.id then HeldAfter(Held(slots, id), f) else Held(slots, id)
      {
        if id == f.id { OwnHeld(slots, f); } else { OtherHeld(slots, f, id); }
      }
    }
  }

  // What one step does to the table: the slot the fragment goes to is replaced, or nothing.
  lemma TargetReplaced(slots: seq<Slot>, f: Fragment) returns (i: nat, x: Slot)
    requires Tidy(slots) && (f.id != 0 || ZeroFirst(slots)) && f.whole >= 0 && !Step(slots, f).1.NoSlot?
    ensures i < |slots| && i == Target(slots, f.id) && Step(slots, f).0 == slots[i := x]
    ensures x.data == [] || x.id == f.id
    ensures x.data == HeldAfter(slots[i].data, f)
  {
    i := Target(slots, f.id);
    x := Step(slots, f).0[i];
  }

  lemma OtherHeld(slots: seq<Slot>, f: Fragment, id: int)
    requires Tidy(slots) && (f.id != 0 || ZeroFirst(slots)) && f.whole >= 0 && !Step(slots, f).1.NoSlot? && id != f.id
    ensures Held(Step(slots, f).0, id) == Held(slots, id)
  {
    StepKeepsTidy(slots, f);
    TargetHolds(slots, f.id);
    var i, x := TargetReplaced(slots, f);
    HeldUpdate(slots, i, x, id);
  }

  lemma OwnHeld(slots: seq<Slot>, f: Fragment)
    requires Tidy(slots) && (f.id != 0 || ZeroFirst(slots)) && f.whole >= 0 && !Step(slots, f).1.NoSlot?
    ensures Held(Step(slots, f).0, f.id) == HeldAfter(Held(slots, f.id), f)
  {
    StepKeepsTidy(slots, f);
    TargetHolds(slots, f.id);
    var i, x := TargetReplaced(slots, f);
    if x.data != [] { HeldIs(slots[i := x], i); } else { HeldNothing(slots[i := x], f.id); }
  }

  // With the bytes of id 0 behind an empty slot of that id, a fragment of id 0 starts afresh
  // there, and is faithful only if that makes no difference.
  lemma ZeroIdIff(slots: seq<Slot>, f: Fragment)
    requires Tidy(slots) && f.id == 0 && !ZeroFirst(slots) && f.whole < 0x8000_0000
    ensures Faithful(slots, f) <==>
      f.whole < 0 || |f.payload| > UINT_MAX - PADDING || (f.payload == [] && f.whole > |Held(slots, 0)|)
  {
    var i := FirstZeroIsFree(slots);
    var held := Held(slots, 0);
    if f.whole < 0 || |f.payload| > UINT_MAX - PADDING {
      assert Step(slots, f).0 == slots;
    } else {
      StartsAfresh(slots, f, i);
      assert |held + f.payload| > |f.payload|;
      if |f.payload| < f.whole && f.payload == [] {
        assert slots[i := Slot(0, f.payload)] == slots;
        assert held + f.payload == held;
      } else if |f.payload| < f.whole {
        FirstZeroIsHeld(slots[i := Slot(0, f.payload)], i);
      }
    }
  }

  lemma StartsAfresh(slots: seq<Slot>, f: Fragment, i: nat)
    requires f.id == 0 && f.whole >= 0 && |f.payload| <= UINT_MAX - PADDING
    requires i < |slots| && i == SlotOf(slots, 0, 0) && slots[i] == Slot(0, [])
    ensures Step(slots, f) == if |f.payload| >= f.whole
      then (slots[i := Slot(0, [])], Complete(f.payload)) else (slots[i := Slot(0, f.payload)], Stored)
  {
    assert [] + f.payload == f.payload;
  }

  lemma FirstZeroIsFree(slots: seq<Slot>) returns (i: nat)
    requires Tidy(slots) && !ZeroFirst(slots)
    ensures i < |slots| && i == SlotOf(slots, 0, 0) && slots[i] == Slot(0, []) && Held(slots, 0) != []
  {
    var a: nat, k: nat :| a < k < |slots| && slots[a].id == slots[k].id == 0 && slots[k].data != [];
    HeldIs(slots, k);
    i := SlotOf(slots, 0, 0);
  }

  lemma {:induction false} FirstZeroIsHeld(slots: seq<Slot>, i: nat)
    requires i < |slots| && slots[i].id == 0 && slots[i].data != []
    requires forall k :: 0 <= k < i ==> slots[k].id != 0
    ensures Held(slots, 0) == slots[i].data
  {
    if i > 0 { FirstZeroIsHeld(slots[1..], i - 1); }
  }

  // What a caller can see before the fragment is added: its id is not 0, or the bytes of id 0 lie
  // where they are found, or it is refused, or it adds nothing.
  ghost predicate Harmless(slots: seq<Slot>, f: Fragment) {
    || f.id != 0 || ZeroFirst(slots)
    || f.whole < 0 || |f.payload| > UINT_MAX - PADDING || (f.payload == [] && f.whole > |Held(slots, 0)|)
  }

  // A fragment is handled faithfully exactly when its id is not 0, or when id 0 does no harm.
  lemma FaithfulIff(slots: seq<Slot>, f: Fragment)
    requires Tidy(slots) && !Step(slots, f).1.NoSlot? && f.whole < 0x8000_0000
    ensures Faithful(slots, f) <==> Harmless(slots, f)
  {
    if f.id != 0 || ZeroFirst(slots) { FaithfulStep(slots, f); } else { ZeroIdIff(slots, f); }
  }

  // A harmless fragment leaves the table tidy.
  lemma HarmlessKeepsTidy(slots: seq<Slot>, f: Fragment)
    requires Tidy(slots) && Harmless(slots, f)
    ensures Tidy(Step(slots, f).0)
  {
    if f.id != 0 || ZeroFirst(slots) {
      StepKeepsTidy(slots, f);
    } else {
      var i := FirstZeroIsFree(slots);
      assert f.payload == [] ==> [] + f.payload == [];
      assert Step(slots, f).0 == slots;
    }
  }

  // ---------- Whole streams ----------

  // The bytes of one id since its last whole frame, by the fragments alone.
  ghost function Since(fs: seq<Fragment>, id: int): seq<nat> {
    if fs == [] then [] else
      var before := Since(fs[..|fs| - 1], id);
      if fs[|fs| - 1].id == id then HeldAfter(before, fs[|fs| - 1]) else before
  }

  ghost function Empty(): seq<Slot> {
    seq(SLOTS, i => Slot(0, []))
  }

  ghost function Table(fs: seq<Fragment>): seq<Slot> {
    if fs == [] then Empty() else Step(Table(fs[..|fs| - 1]), fs[|fs| - 1]).0
  }

  // Every fragment finds a slot; sizes are 32-bit integers.
  ghost predicate Placed(fs: seq<Fragment>) {
    fs == [] || (
      var slots, f := Table(fs[..|fs| - 1]), fs[|fs| - 1];
      Placed(fs[..|fs| - 1]) && f.whole < 0x8000_0000 && !Step(slots, f).1.NoSlot?)
  }

  ghost predicate AllFaithful(fs: seq<Fragment>) {
    fs == [] || (AllFaithful(fs[..|fs| - 1]) && Faithful(Table(fs[..|fs| - 1]), fs[|fs| - 1]))
  }

  ghost predicate AllHarmless(fs: seq<Fragment>) {
    fs == [] || (AllHarmless(fs[..|fs| - 1]) && Harmless(Table(fs[..|fs| - 1]), fs[|fs| - 1]))
  }

  lemma {:induction false} StreamTidy(fs: seq<Fragment>)
    requires AllHarmless(fs)
    ensures Tidy(Table(fs)) && |Table(fs)| == SLOTS
  {
    if fs != [] {
      StreamTidy(fs[..|fs| - 1]);
      HarmlessKeepsTidy(Table(fs[..|fs| - 1]), fs[|fs| - 1]);
    }
  }

  // Over a whole stream, every fragment is handled faithfully if and only if each is harmless
  // when it comes.
  lemma {:induction false} StreamFaithfulIff(fs: seq<Fragment>)
    requires Placed(fs)
    ensures AllFaithful(fs) <==> AllHarmless(fs)
  {
    if fs != [] {
      var init := fs[..|fs| - 1];
      StreamFaithfulIff(init);
      if AllHarmless(init) {
        StreamTidy(init);
        FaithfulIff(Table(init), fs[|fs| - 1]);
      }
    }
  }

  // However the fragments of several frames are interleaved, each id collects exactly its own.
  lemma {:induction false} StreamHolds(fs: seq<Fragment>)
    requires Placed(fs) && AllHarmless(fs)
    ensures Tidy(Table(fs)) && |Table(fs)| == SLOTS
    ensures forall id :: Held(Table(fs), id) == Since(fs, id)
  {
    StreamTidy(fs);
    if fs == [] {
      forall id: int ensures Held(Empty(), id) == [] {
        HeldNothing(Empty(), id);
      }
    } else {
      StreamHolds(fs[..|fs| - 1]);
      FaithfulIff(Table(fs[..|fs| - 1]), fs[|fs| - 1]);
    }
  }

  // A fragment that makes a frame whole delivers all bytes of its id since the last whole
  // frame, and its own.
  lemma StreamDelivers(fs: seq<Fragment>, f: Fragment)
    requires Placed(fs + [f]) && AllHarmless(fs + [f])
    ensures Step(Table(fs), f).1 == Expected(Since(fs, f.id), f)
  {
    assert (fs + [f])[..|fs|] == fs;
    StreamHolds(fs);
    FaithfulIff(Table(fs), f);
  }

  // ----- Running out of slots -----

  // 100 different ids other than this one are incomplete.
  ghost predicate FullBut(fs: seq<Fragment>, id: int, ids: seq<int>) {
    && |ids| == SLOTS && (forall i, k :: 0 <= i < k < SLOTS ==> ids[i] != ids[k])
    && (forall i :: 0 <= i < SLOTS ==> ids[i] != id && Since(fs, ids[i]) != [])
  }

  lemma NoSlotOnlyWhenFull(fs: seq<Fragment>, f: Fragment) returns (ids: seq<int>)
    requires Placed(fs) && AllHarmless(fs) && Step(Table(fs), f).1.NoSlot?
    ensures FullBut(fs, f.id, ids)
  {
    var slots := Table(fs);
    StreamHolds(fs);
    ids := seq(SLOTS, i requires 0 <= i < SLOTS => slots[i].id);
    forall i: nat | i < SLOTS ensures ids[i] != f.id && Since(fs, ids[i]) != [] {
      HeldIs(slots, i);
      assert Held(slots, ids[i]) == Since(fs, ids[i]);
    }
    forall i, k | 0 <= i < k < SLOTS ensures ids[i] != ids[k] {
      assert slots[i].data != [] && slots[k].data != [];
    }
  }

  // n different numbers below n are all of them.
  lemma {:induction false} Pigeonhole(at: seq<nat>, n: nat, k: nat)
    requires |at| == n && k < n && (forall i :: 0 <= i < n ==> at[i] < n)
    requires forall i, j :: 0 <= i < j < n ==> at[i] != at[j]
    ensures exists i :: 0 <= i < n && at[i] == k
    decreases n
  {
    var last := at[n - 1];
    if last != k {
      // Without the last number, move the greatest one to its place.
      var rest := seq(n - 1, i requires 0 <= i < n - 1 => if at[i] == n - 1 then last else at[i]);
      var wanted := if k == n - 1 then last else k;
      Pigeonhole(rest, n - 1, wanted);
      var i :| 0 <= i < n - 1 && rest[i] == wanted;
      assert at[i] == k;
    }
  }

  // Where the bytes of the first n ids are.
  lemma {:induction false} PlacesOf(slots: seq<Slot>, ids: seq<int>, n: nat) returns (at: seq<nat>)
    requires n <= |ids| && forall i :: 0 <= i < |ids| ==> Held(slots, ids[i]) != []
    ensures |at| == n
    ensures forall i :: 0 <= i < n ==> at[i] < |slots| && slots[at[i]].id == ids[i] && slots[at[i]].data != []
  {
    at := [];
    if n > 0 {
      var before := PlacesOf(slots, ids, n - 1);
      var k: nat :| k < |slots| && slots[k] == Slot(ids[n - 1], Held(slots, ids[n - 1]));
      at := before + [k];
    }
  }

  // When as many ids as there are slots hold bytes, every slot holds those of one of them.
  lemma AllTaken(slots: seq<Slot>, ids: seq<int>)
    requires |slots| == |ids| && (forall i, k :: 0 <= i < k < |ids| ==> ids[i] != ids[k])
    requires forall i :: 0 <= i < |ids| ==> Held(slots, ids[i]) != []
    ensures forall k :: 0 <= k < |slots| ==> slots[k].data != [] && slots[k].id in ids
  {
    var at := PlacesOf(slots, ids, |ids|);
    forall k: nat | k < |slots| ensures slots[k].data != [] && slots[k].id in ids {
      Pigeonhole(at, |slots|, k);
      var i :| 0 <= i < |slots| && at[i] == k;
      assert slots[k].id == ids[i];
    }
  }

  lemma FullMeansNoSlot(fs: seq<Fragment>, f: Fragment, ids: seq<int>)
    requires Placed(fs) && AllHarmless(fs) && f.whole >= 0 && FullBut(fs, f.id, ids)
    ensures Step(Table(fs), f).1.NoSlot?
  {
    StreamHolds(fs);
    forall i | 0 <= i < SLOTS ensures Held(Table(fs), ids[i]) != [] {
      assert Held(Table(fs), ids[i]) == Since(fs, ids[i]);
    }
    AllTaken(Table(fs), ids);
    NoSlotIff(Table(fs), f);
  }

  // A fragment of a stream finds no slot if and only if 100 other ids are incomplete.
  lemma NoSlotWhenFullIff(fs: seq<Fragment>, f: Fragment)
    requires Placed(fs) && AllHarmless(fs)
    ensures Step(Table(fs), f).1.NoSlot? <==> f.whole >= 0 && exists ids: seq<int> :: FullBut(fs, f.id, ids)
  {
    if Step(Table(fs), f).1.NoSlot? {
      var ids := NoSlotOnlyWhenFull(fs, f);
    } else if f.whole >= 0 && exists ids: seq<int> :: FullBut(fs, f.id, ids) {
      var ids: seq<int> :| FullBut(fs, f.id, ids);
      FullMeansNoSlot(fs, f, ids);
    }
  }

  // ----- Two streams that go wrong -----

  // One of two bytes of frame k.
  function Half(k: int): Fragment {
    Fragment(k, 2, [7])
  }

  // The first halves of frames 1 to n.
  function Halves(n: nat): (fs: seq<Fragment>)
    ensures |fs| == n
  {
    if n == 0 then [] else Halves(n - 1) + [Half(n)]
  }

  // They fill the table from the end.
  ghost function HalfFull(n: nat): (slots: seq<Slot>)
    ensures |slots| == SLOTS
  {
    seq(SLOTS, i => if i + n >= SLOTS then Slot(SLOTS - i, [7]) else Slot(0, []))
  }

  lemma {:induction false} FreeSlotIs(slots: seq<Slot>, i: nat)
    requires i < |slots| && slots[i].data == [] && forall k :: i < k < |slots| ==> slots[k].data != []
    ensures FreeSlot(slots) == i
    decreases |slots|
  {
    if i < |slots| - 1 { FreeSlotIs(slots[..|slots| - 1], i); }
  }

  lemma HalfStep(n: nat)
    requires n < SLOTS
    ensures Step(HalfFull(n), Half(n + 1)) == (HalfFull(n + 1), Stored)
  {
    var slots, i := HalfFull(n), SLOTS - n - 1;
    assert SlotOf(slots, n + 1, 0) == SLOTS;
    FreeSlotIs(slots, i);
    assert [] + [7] == [7];
    assert HalfFull(n + 1) == slots[i := Slot(n + 1, [7])];
  }

  lemma {:induction false} HalvesFill(n: nat)
    requires n <= SLOTS
    ensures Table(Halves(n)) == HalfFull(n) && Placed(Halves(n)) && AllHarmless(Halves(n))
    decreases n
  {
    if n > 0 {
      HalvesFill(n - 1);
      HalfStep(n - 1);
      assert Halves(n)[..n - 1] == Halves(n - 1);
    } else {
      assert HalfFull(0) == Empty();
    }
  }

  // The first halves of 101 frames: the last one finds no slot.
  lemma HundredAndOneFrames()
    ensures Placed(Halves(SLOTS)) && AllHarmless(Halves(SLOTS))
    ensures Step(Table(Halves(SLOTS)), Half(101)).1 == NoSlot
  {
    HalvesFill(SLOTS);
    assert FreeSlot(HalfFull(SLOTS)) == -1;
    assert SlotOf(HalfFull(SLOTS), 101, 0) == SLOTS;
  }

  lemma OneMore(fs: seq<Fragment>, f: Fragment)
    requires Placed(fs) && AllHarmless(fs) && f.whole < 0x8000_0000
    requires !Step(Table(fs), f).1.NoSlot? && Harmless(Table(fs), f)
    ensures Placed(fs + [f]) && AllHarmless(fs + [f]) && Table(fs + [f]) == Step(Table(fs), f).0
  {
    var all := fs + [f];
    assert all[..|all| - 1] == fs && all[|all| - 1] == f;
  }

  lemma SinceMore(fs: seq<Fragment>, f: Fragment, id: int)
    ensures Since(fs + [f], id) == if f.id == id then HeldAfter(Since(fs, id), f) else Since(fs, id)
  {
    assert (fs + [f])[..|fs|] == fs;
  }

  // Half a frame goes to the first slot with its id: it stays there, or completes the frame.
  lemma HalfTo(fs: seq<Fragment>, slots: seq<Slot>, id: int, i: nat)
    requires Placed(fs) && AllHarmless(fs) && Table(fs) == slots && |slots| == SLOTS
    requires i < SLOTS && slots[i].id == id && (forall k :: 0 <= k < i ==> slots[k].id != id)
    requires slots[i].data == [] || slots[i].data == [7]
    requires Harmless(slots, Half(id))
    ensures Placed(fs + [Half(id)]) && AllHarmless(fs + [Half(id)])
    ensures Table(fs + [Half(id)]) == slots[i := if slots[i].data == [] then Slot(id, [7]) else Slot(0, [])]
  {
    assert SlotOf(slots, id, 0) == i;
    assert [] + [7] == [7];
    OneMore(fs, Half(id));
  }

  // The table full, frame 1 completed, a first half of frame 0 in its slot, frame 100 completed.
  ghost function FrameZeroBehind(): seq<Fragment> {
    Halves(SLOTS) + [Half(1)] + [Half(0)] + [Half(100)]
  }

  lemma FrameZeroTable()
    ensures var fs := FrameZeroBehind();
      && Placed(fs) && AllHarmless(fs)
      && Table(fs) == HalfFull(SLOTS)[99 := Slot(0, [7])][0 := Slot(0, [])]
  {
    HalvesFill(SLOTS);
    var all, fs := HalfFull(SLOTS), Halves(SLOTS);
    HalfTo(fs, all, 1, 99);
    var one := all[99 := Slot(0, [])];
    HalfTo(fs + [Half(1)], one, 0, 99);
    var two := all[99 := Slot(0, [7])];
    assert one[99 := Slot(0, [7])] == two;
    HalfTo(fs + [Half(1)] + [Half(0)], two, 100, 0);
  }

  lemma {:induction false} NothingOfZero(n: nat)
    ensures Since(Halves(n), 0) == []
  {
    if n > 0 {
      NothingOfZero(n - 1);
      SinceMore(Halves(n - 1), Half(n), 0);
    }
  }

  lemma SinceHalves()
    ensures Since(FrameZeroBehind(), 0) == [7]
  {
    var fs := Halves(SLOTS);
    NothingOfZero(SLOTS);
    SinceMore(fs, Half(1), 0);
    SinceMore(fs + [Half(1)], Half(0), 0);
    SinceMore(fs + [Half(1)] + [Half(0)], Half(100), 0);
    assert [] + [7] == [7];
  }

  lemma StoredAfresh(slots: seq<Slot>)
    requires slots != [] && slots[0] == Slot(0, [])
    ensures Step(slots, Half(0)).1 == Stored
  {
    assert SlotOf(slots, 0, 0) == 0;
  }

  // Then the second half of frame 0 is put into the slot of frame 100, and frame 0 is not
  // delivered.
  lemma FrameZeroIsLost()
    ensures var fs := FrameZeroBehind();
      && Placed(fs) && AllHarmless(fs)
      && Step(Table(fs), Half(0)).1 == Stored && Expected(Since(fs, 0), Half(0)) == Complete([7, 7])
  {
    FrameZeroTable();
    SinceHalves();
    StoredAfresh(Table(FrameZeroBehind()));
    assert [7] + [7] == [7, 7];
  }

  // ---------- The branch itself ----------

  class FourXContext {
    const cfrm: array<Slot>

    constructor ()
      ensures cfrm.Length == SLOTS && cfrm[..] == Empty() && fresh(cfrm)
    {
      cfrm := new Slot[SLOTS](i => Slot(0, []));
    }

    // The search for the slot of an id, noting a free slot on the way.
    method FindSlot(id: int) returns (i: nat, freeIndex: int)
      requires cfrm.Length == SLOTS
      ensures i == SlotOf(cfrm[..], id, 0)
      ensures i == SLOTS ==> freeIndex == FreeSlot(cfrm[..])
    {
      freeIndex := -1;
      i := 0;
      while i < SLOTS
        invariant i <= SLOTS && SlotOf(cfrm[..], id, i) == SlotOf(cfrm[..], id, 0)
        invariant freeIndex == FreeSlot(cfrm[..i])
      {
        if cfrm[i].id == id {
          break;
        }
        assert cfrm[..i + 1][..i] == cfrm[..i];
        if cfrm[i].data == [] {
          freeIndex := i;
        }
        i := i + 1;
      }
      assert cfrm[..SLOTS] == cfrm[..];
    }

    // From the whole size to the delivery. Where the source would index the table with -1,
    // the answer is NoSlot.
    method AddFragment(id: int, whole: int, payload: seq<nat>) returns (answer: Answer)
      requires cfrm.Length == SLOTS
      modifies cfrm
      ensures (cfrm[..], answer) == Step(old(cfrm[..]), Fragment(id, whole, payload))
    {
      if whole < 0 {
        return Invalid;
      }
      ghost var slots := cfrm[..];
      var i, freeIndex := FindSlot(id);
      if i >= SLOTS {
        if freeIndex < 0 {
          return NoSlot;
        }
        i := freeIndex;
        cfrm[i] := Slot(id, cfrm[i].data);
      }
      assert cfrm[..] == slots[i := Slot(id, slots[i].data)];
      if |payload| > UINT_MAX - |cfrm[i].data| - PADDING {
        return Invalid;
      }
      cfrm[i] := Slot(id, cfrm[i].data + payload);
      assert cfrm[..] == slots[i := Slot(id, slots[i].data + payload)];
      if |cfrm[i].data| >= whole {
        answer := Complete(cfrm[i].data);
        cfrm[i] := Slot(0, []);
        assert cfrm[..] == slots[i := Slot(0, [])];
      } else {
        answer := Stored;
      }
    }
  }
}
