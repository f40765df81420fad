// No word of a Huffman table read from the stream is longer than 22 bits: a node of height
// h weighs at least the Fibonacci number F(h + 2), and a whole table weighs at most 65281.
module HuffmanDepth {
  import opened Sums
  import opened CodeLengths
  import opened Forests
  import opened HuffmanCode

  const LONGEST_WORD: nat := 22
  const SENTINEL: nat := 256 * 256

  function Fib(n: nat): nat {
    if n < 2 then n else Fib(n - 1) + Fib(n - 2)
  }

  lemma {:induction false} FibMonotone(m: nat, n: nat)
    requires m <= n
    ensures Fib(m) <= Fib(n)
    decreases n
  {
    if m < n {
      FibMonotone(m, n - 1);
    }
  }

  lemma Fib25()
    ensures Fib(25) == 75025
  {
    assert Fib(8) == 21 && Fib(9) == 34;
    assert Fib(16) == 987 && Fib(17) == 1597;
    assert Fib(24) == 46368;
  }

  // h bounds the heights, least bounds the weights of the live nodes from below; a live node
  // of height h > 0 has a child whose weight, at least F(h + 1), was already merged.
  ghost predicate Heavy(freq: seq<nat>, h: seq<nat>, least: nat) {
    |h| == |freq| && forall i :: 0 <= i < |freq| && freq[i] > 0 ==>
      freq[i] >= least && freq[i] >= Fib(h[i] + 2) && (h[i] > 0 ==> least >= Fib(h[i] + 1))
  }

  ghost predicate Climbing(up: seq<int>, h: seq<nat>)
    requires Rising(up)
  {
    |h| == |up| && forall i :: 0 <= i < |up| && up[i] != -1 ==> h[i] < h[up[i]]
  }

  function JoinedHeight(h: seq<nat>, a: nat, b: nat): nat
    requires a < |h| && b < |h|
  {
    1 + if h[a] < h[b] then h[b] else h[a]
  }

  lemma MergeKeepsHeavy(freq: seq<nat>, h: seq<nat>, least: nat, j: nat, a: nat, b: nat)
    requires Heavy(freq, h, least) && j < |freq| && freq[j] == 0 && TwoLeast(freq, j, a, b)
    requires forall i :: j <= i < |freq| ==> freq[i] == 0
    ensures Heavy(Merged(freq, a, b, j), h[j := JoinedHeight(h, a, b)], freq[b])
  {
    MergedWeighsFib(freq[a], freq[b], h[a], h[b], least);
  }

  lemma MergeKeepsClimbing(s: Forest, h: seq<nat>, j: nat, a: nat, b: nat)
    requires Shape(s, j) && j < NODES && TwoLeast(s.freq, j, a, b) && Climbing(s.up, h)
    ensures Rising(MergeAt(s, j, a, b).up)
    ensures Climbing(MergeAt(s, j, a, b).up, h[j := JoinedHeight(h, a, b)])
  {
  }

  lemma MergedWeighsFib(fa: nat, fb: nat, ha: nat, hb: nat, least: nat)
    requires 0 < fa <= fb && least <= fa && fa >= Fib(ha + 2) && fb >= Fib(hb + 2)
    requires ha > 0 ==> least >= Fib(ha + 1)
    requires hb > 0 ==> least >= Fib(hb + 1)
    ensures var h := 1 + if ha < hb then hb else ha; fa + fb >= Fib(h + 2) && fb >= Fib(h + 1)
  {
    var h := if ha < hb then hb else ha;
    assert Fib(h + 3) == Fib(h + 2) + Fib(h + 1);
    assert Fib(1) == 1 && Fib(2) == 1 && Fib(3) == 2;
  }

  ghost predicate Tall(s: Forest, j: nat, h: seq<nat>, least: nat) {
    Shape(s, j) && Climbing(s.up, h) && Heavy(s.freq, h, least)
  }

  lemma MergeKeepsTall(s: Forest, j: nat, a: nat, b: nat, h: seq<nat>, least: nat)
    requires Tall(s, j, h, least) && j < NODES && TwoLeast(s.freq, j, a, b)
    ensures Tall(MergeAt(s, j, a, b), j + 1, h[j := JoinedHeight(h, a, b)], s.freq[b])
  {
    MergeShape(s, j, a, b);
    MergeKeepsHeavy(s.freq, h, least, j, a, b);
    MergeKeepsClimbing(s, h, j, a, b);
  }

  ghost predicate SomeTall(s: Forest, j: nat) {
    exists h: seq<nat>, least: nat :: Tall(s, j, h, least)
  }

  lemma FinalTall(freq: seq<nat>) returns (n: nat, h: seq<nat>, least: nat)
    requires Table(freq)
    ensures Tall(Final(freq), n, h, least)
  {
    forall s: Forest, j: nat, a: nat, b: nat |
      |s.freq| == NODES && j < NODES && SomeTall(s, j) && TwoLeast(s.freq, j, a, b)
      ensures SomeTall(MergeAt(s, j, a, b), j + 1)
    {
      var g: seq<nat>, low: nat :| Tall(s, j, g, low);
      MergeKeepsTall(s, j, a, b, g, low);
    }
    assert Fib(2) == 1;
    assert Tall(Initial(freq), SYMBOLS, seq(NODES, i => 0), 1);
    n := BuildInduction((s: Forest, j: nat) => SomeTall(s, j), Initial(freq), SYMBOLS);
    h, least :| Tall(Final(freq), n, h, least);
  }

  lemma {:induction false} DepthWithinHeight(up: seq<int>, flag: seq<nat>, h: seq<nat>, i: nat)
    requires Rising(up) && Climbing(up, h) && |flag| == |up| && i < |up|
    ensures |PathWord(up, flag, i)| + h[i] <= h[Root(up, i)]
    decreases |up| - i
  {
    if up[i] != -1 { DepthWithinHeight(up, flag, h, up[i]); }
  }

  lemma TableWeight(freq: seq<nat>)
    requires Table(freq)
    ensures Sum(freq) <= 65281 < SENTINEL
  {
    TailZero(freq, SYMBOLS);
    BoundedPrefix(freq, 256, 255);
    assert freq[..SYMBOLS][..256] == freq[..256];
  }

  lemma HeavyBoundsHeight(freq: seq<nat>, h: seq<nat>, least: nat, r: nat, longest: nat)
    requires Heavy(freq, h, least) && r < |freq| && freq[r] > 0 && Sum(freq) < Fib(longest + 3)
    ensures h[r] <= longest
  {
    SumAtLeast(freq, r);
    if h[r] > longest { FibMonotone(longest + 3, h[r] + 2); }
  }

  // A table that weighs less than F(n + 3) has no word longer than n bits.
  lemma WordsWithin(freq: seq<nat>, i: nat, longest: nat)
    requires Table(freq) && i < SYMBOLS && freq[i] > 0 && Sum(freq) < Fib(longest + 3)
    ensures |Code(freq)[i]| <= longest
  {
    var n := FinalInv(freq, NODES);
    var s := Final(freq);
    var k, h, least := FinalTall(freq);
    DepthWithinHeight(s.up, s.flag, h, i);
    var r := Root(s.up, i);
    assert Roots(s.up)[i] == r;
    HeavyBoundsHeight(s.freq, h, least, r, longest);
  }

  // Every word fits in 22 bits, so the length test in the source never fires.
  lemma WordsAreShort(freq: seq<nat>, i: nat)
    requires Table(freq) && i < SYMBOLS && freq[i] > 0
    ensures |Code(freq)[i]| <= LONGEST_WORD
  {
    TableWeight(freq);
    Fib25();
    WordsWithin(freq, i, LONGEST_WORD);
  }

  // A symbol that does not occur keeps the empty word.
  lemma UnusedHasNoWord(freq: seq<nat>, i: nat)
    requires Table(freq) && i < SYMBOLS && freq[i] == 0
    ensures Code(freq)[i] == []
  {
    var n := FinalInv(freq, NODES);
  }
}
