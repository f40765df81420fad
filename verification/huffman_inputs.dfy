// Two inputs that use all 257 symbols: one is refused in the end, the other accepted although one
// symbol has no word.
module HuffmanInputs {
  import opened Sums
  import opened CodeLengths
  import opened Forests
  import opened HuffmanCode
  import opened HuffmanOrder
  import opened VlcTables
  import opened VlcInit
  import opened HuffmanTables
  import opened HuffmanAccepted

  // ---------- One run of all byte values ----------

  predicate ByteValues(values: seq<nat>) {
    |values| == 256 && forall i :: 0 <= i < 256 ==> values[i] <= 255
  }

  // The bytes of a table with one run, and the padding.
  function InputOf(values: seq<nat>): seq<nat>
    requires ByteValues(values)
  {
    [0, 255] + values + [0] + seq(65, _ => 0)
  }

  // The table read from it.
  function TableOf(values: seq<nat>): (freq: seq<nat>)
    requires ByteValues(values)
    ensures |freq| == NODES && Table(freq)
  {
    values + [1] + seq(255, _ => 0)
  }

  lemma InputHolds(values: seq<nat>, runs: seq<Run>)
    requires ByteValues(values) && runs == [Run(0, values)]
    ensures Holds(InputOf(values), 260, 0, runs) && |Wire(runs)| == 259
  {
    assert runs[0].Valid();
    assert Wire(runs) == [0, 255] + values + [0];
    assert InputOf(values)[0..259] == Wire(runs);
  }

  lemma RunApplied(values: seq<nat>, runs: seq<Run>, none: seq<nat>)
    requires ByteValues(values) && runs == [Run(0, values)] && none == seq(NODES, _ => 0)
    ensures forall k :: 0 <= k < |runs| ==> runs[k].Valid()
    ensures Applied(none, runs) == Overlay(none, 0, values) && Overlay(none, 0, values)[256 := 1] == TableOf(values)
  {
    assert runs[0].Valid() && runs[1..] == [];
  }

  // The buffer is read to its end and gives the table.
  ghost predicate ReadsTo(buf: seq<nat>, size: nat, freq: seq<nat>) {
    && Padded(buf, size)
    && var r := ReadRuns(buf, size, 2, buf[0], buf[1], seq(NODES, _ => 0));
       r.Read? && Aligned(r.ptr) == size && |r.freq| == NODES && r.freq[256 := 1] == freq
  }

  lemma InputIsRead(values: seq<nat>)
    requires ByteValues(values)
    ensures ReadsTo(InputOf(values), 260, TableOf(values))
  {
    var runs, none: seq<nat> := [Run(0, values)], seq(NODES, _ => 0);
    InputHolds(values, runs);
    ReadWire(InputOf(values), 260, 0, runs, none);
    RunApplied(values, runs, none);
  }

  // ---------- All values once ----------

  function Ones(n: nat): (r: seq<nat>)
    ensures |r| == n
  {
    seq(n, _ => 1)
  }

  lemma {:induction false} SumOnes(s: seq<nat>)
    requires forall i :: 0 <= i < |s| ==> s[i] == 1
    ensures Sum(s) == |s|
  {
    if s != [] { SumOnes(s[..|s| - 1]); }
  }

  lemma OnesCounted(freq: seq<nat>)
    requires freq == TableOf(Ones(256))
    ensures Sum(freq) == 257 && LiveTerms(freq) == freq && LiveCount(freq) == 257
  {
    TailZero(freq, SYMBOLS);
    SumOnes(freq[..SYMBOLS]);
  }

  lemma NoneBare(freq: seq<nat>)
    requires freq == TableOf(Ones(256))
    ensures LiveCount(freq) == 257 && !SomeBare(freq)
  {
    OnesCounted(freq);
    if b: nat :| Bare(freq, b) { BareIsHeavy(freq, b); }
  }

  // Every value once: all 257 symbols are used, the words are no prefix code, and init_vlc refuses
  // them.
  lemma AllOnesIsRefused(values: seq<nat>, freq: seq<nat>, order: seq<VlcCode> -> seq<VlcCode>)
    requires values == Ones(256) && freq == TableOf(values) && Sorts(order)
    ensures ReadsTo(InputOf(values), 260, freq)
    ensures LiveCount(freq) == 257 && !PrefixFree(freq, Code(freq))
    ensures InitVlc(order, Lens(freq), Numbers(freq)).Refused?
  {
    NoneBare(freq);
    PrefixFreeIff(freq);
    AcceptedIff(freq, order);
    InputIsRead(values);
  }

  // ---------- Value 0 as often as possible ----------

  function OneHeavy(): (r: seq<nat>)
    ensures ByteValues(r)
  {
    Ones(256)[0 := 255]
  }

  lemma OneHeavyCounted(freq: seq<nat>)
    requires freq == TableOf(OneHeavy())
    ensures Sum(freq) == 511 && LiveCount(freq) == 257
  {
    var ones := TableOf(Ones(256));
    OnesCounted(ones);
    assert freq == ones[0 := 255];
    SumUpdate(ones, 0, 255);
    assert LiveTerms(freq) == LiveTerms(ones);
  }

  // Symbol 0 is a root of weight 255, all weigh 511 together, and no other symbol more than 1.
  ghost predicate Lone(s: Forest, j: nat, w: seq<nat>) {
    && Ordered(s, j, w) && s.up[0] == -1 && s.freq[0] == 255 && Sum(s.freq) == 511
    && LiveCount(s.freq) + j == 514 && forall k :: 1 <= k < SYMBOLS ==> s.freq[k] <= 1
  }

  lemma ThirdLive(freq: seq<nat>, a: nat, b: nat) returns (k: nat)
    requires LiveCount(freq) >= 3 && a < |freq| && b < |freq| && a != b
    ensures k < |freq| && k != a && k != b && freq[k] > 0
  {
    var t, rest := LiveTerms(freq), freq[a := 0][b := 0];
    SumUpdate(t, a, 0);
    SumUpdate(t[a := 0], b, 0);
    assert LiveTerms(rest) == t[a := 0][b := 0];
    k := CountOne(rest);
  }

  lemma SumAtLeastThree(s: seq<nat>, i: nat, k: nat, m: nat)
    requires i < |s| && k < |s| && m < |s| && i != k && i != m && k != m
    ensures s[i] + s[k] + s[m] <= Sum(s)
  {
    SumUpdate(s, i, 0);
    SumAtLeastTwo(s[i := 0], k, m);
  }

  // While three nodes are live, symbol 0 is not one of the two lightest.
  lemma NotTaken(s: Forest, j: nat, w: seq<nat>, a: nat, b: nat)
    requires Lone(s, j, w) && j < NODES && TwoLeast(s.freq, j, a, b)
    ensures a != 0 && b != 0
  {
    var k := ThirdLive(s.freq, a, b);
    if a == 0 || b == 0 {
      AtMostTwice(s, j, w, k, a);
      SumAtLeastThree(s.freq, a, b, k);
    }
  }

  lemma MergeKeepsLone(s: Forest, j: nat, w: seq<nat>, a: nat, b: nat)
    requires Lone(s, j, w) && j < NODES && TwoLeast(s.freq, j, a, b)
    ensures Lone(MergeAt(s, j, a, b), j + 1, w[j := w[a] + w[b]])
  {
    NotTaken(s, j, w, a, b);
    MergeKeepsOrdered(s, j, a, b, w);
    MergeConserves(s.freq, a, b, j, MergeAt(s, j, a, b).freq);
    MergeCounts(s.freq, a, b, j);
  }

  ghost predicate SomeLone(s: Forest, j: nat) {
    exists w: seq<nat> :: Lone(s, j, w)
  }

  lemma FirstIsBare(freq: seq<nat>)
    requires freq == TableOf(OneHeavy())
    ensures Bare(freq, 0)
  {
    forall s: Forest, j: nat, a: nat, b: nat |
      |s.freq| == NODES && j < NODES && SomeLone(s, j) && TwoLeast(s.freq, j, a, b)
      ensures SomeLone(MergeAt(s, j, a, b), j + 1)
    {
      var w: seq<nat> :| Lone(s, j, w);
      MergeKeepsLone(s, j, w, a, b);
    }
    OneHeavyCounted(freq);
    InitialOrdered(freq);
    assert Lone(Initial(freq), SYMBOLS, freq);
    var n := BuildInduction((s: Forest, j: nat) => SomeLone(s, j), Initial(freq), SYMBOLS);
    FinalRising(freq);
  }

  // Value 0 counted 255 times, the others once: all 257 symbols are used, symbol 0 has no word, and
  // init_vlc accepts the table.
  lemma OneHeavyIsAccepted(values: seq<nat>, freq: seq<nat>, order: seq<VlcCode> -> seq<VlcCode>)
    requires values == OneHeavy() && freq == TableOf(values) && Sorts(order)
    ensures ReadsTo(InputOf(values), 260, freq)
    ensures LiveCount(freq) == 257 && Bare(freq, 0)
    ensures InitVlc(order, Lens(freq), Numbers(freq)).Accepted?
  {
    OneHeavyCounted(freq);
    FirstIsBare(freq);
    AcceptedIff(freq, order);
    InputIsRead(values);
  }
}
