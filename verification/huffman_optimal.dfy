// Lower bound for every binary code: whatever prefix-free code is chosen for weighted
// symbols, its cost is at least the total weight that repeated merging of the two
// lightest nodes adds up.
module CodeLengths {
  import opened Sums

  type Word = seq<bool>

  // No word of a used symbol is a prefix of the word of another used symbol.
  ghost predicate PrefixFree(freq: seq<nat>, code: seq<Word>)
    requires |code| == |freq|
  {
    forall i, k :: 0 <= i < |freq| && 0 <= k < |freq| && i != k && freq[i] > 0 && freq[k] > 0
      ==> !(code[i] <= code[k])
  }

  function Lengths(code: seq<Word>): (l: seq<nat>)
  {
    seq(|code|, i requires 0 <= i < |code| => |code[i]|)
  }

  ghost predicate Bounded(freq: seq<nat>, l: seq<nat>, L: nat) {
    |l| == |freq| && forall i :: 0 <= i < |freq| && freq[i] > 0 ==> l[i] <= L
  }

  // The Kraft terms 2^(L - length) of the used symbols, zero for the others.
  ghost function KraftTerms(freq: seq<nat>, l: seq<nat>, L: nat): (t: seq<nat>)
    requires Bounded(freq, l, L)
    ensures |t| == |freq|
  {
    seq(|freq|, i requires 0 <= i < |freq| => if freq[i] > 0 then Pow2(L - l[i]) else 0)
  }

  ghost predicate Kraft(freq: seq<nat>, l: seq<nat>, L: nat) {
    Bounded(freq, l, L) && Sum(KraftTerms(freq, l, L)) <= Pow2(L)
  }

  ghost function CostTerms(freq: seq<nat>, l: seq<nat>): (t: seq<nat>)
    requires |l| == |freq|
  {
    seq(|freq|, i requires 0 <= i < |freq| => freq[i] * l[i])
  }

  // Total number of bits spent: sum of frequency times length.
  ghost function Cost(freq: seq<nat>, l: seq<nat>): nat
    requires |l| == |freq|
  {
    Sum(CostTerms(freq, l))
  }

  // ---------- Prefix-free codes satisfy the Kraft inequality ----------

  ghost function TermsUnder(freq: seq<nat>, code: seq<Word>, L: nat, p: Word): (t: seq<nat>)
    requires |code| == |freq| && Bounded(freq, Lengths(code), L)
    ensures |t| == |freq|
  {
    seq(|freq|, i requires 0 <= i < |freq| =>
      assert Lengths(code)[i] == |code[i]|;
      if freq[i] > 0 && p <= code[i] then Pow2(L - |code[i]|) else 0)
  }

  // Among the words under p, other than p itself, each goes on with exactly one bit.
  lemma NextBit(w: Word, p: Word, L: nat)
    requires w != p && |w| <= L
    ensures (if p <= w then Pow2(L - |w|) else 0)
         == (if p + [false] <= w then Pow2(L - |w|) else 0) + (if p + [true] <= w then Pow2(L - |w|) else 0)
  {
    forall b: bool ensures p + [b] <= w <==> p <= w && w[|p|..] != [] && w[|p|] == b {
      if p <= w && w[|p|..] != [] { assert w[..|p| + 1] == p + [w[|p|]]; }
    }
  }

  lemma {:induction false} KraftUnder(freq: seq<nat>, code: seq<Word>, L: nat, p: Word)
    requires |code| == |freq| && PrefixFree(freq, code)
    requires Bounded(freq, Lengths(code), L) && |p| <= L
    ensures Sum(TermsUnder(freq, code, L, p)) <= Pow2(L - |p|)
    decreases L - |p|
  {
    var t := TermsUnder(freq, code, L, p);
    if k :| 0 <= k < |freq| && freq[k] > 0 && code[k] == p {
      WordStandsAlone(freq, code, L, k);
    } else if |p| == L {
      forall i | 0 <= i < |freq| ensures t[i] == 0 {
        assert Lengths(code)[i] == |code[i]|;
      }
      SumZero(t);
    } else {
      SplitOnNextBit(freq, code, L, p);
      KraftUnder(freq, code, L, p + [false]);
      KraftUnder(freq, code, L, p + [true]);
    }
  }

  // No used word goes on where another ends.
  lemma WordStandsAlone(freq: seq<nat>, code: seq<Word>, L: nat, k: nat)
    requires |code| == |freq| && PrefixFree(freq, code) && Bounded(freq, Lengths(code), L)
    requires k < |freq| && freq[k] > 0 && |code[k]| <= L
    ensures Sum(TermsUnder(freq, code, L, code[k])) == Pow2(L - |code[k]|)
  {
    var t := TermsUnder(freq, code, L, code[k]);
    SumUpdate(t, k, 0);
    SumZero(t[k := 0]);
  }

  lemma SplitOnNextBit(freq: seq<nat>, code: seq<Word>, L: nat, p: Word)
    requires |code| == |freq| && Bounded(freq, Lengths(code), L)
    requires forall k :: 0 <= k < |freq| && freq[k] > 0 ==> code[k] != p
    ensures Sum(TermsUnder(freq, code, L, p))
      == Sum(TermsUnder(freq, code, L, p + [false])) + Sum(TermsUnder(freq, code, L, p + [true]))
  {
    var t, t0, t1 := TermsUnder(freq, code, L, p), TermsUnder(freq, code, L, p + [false]),
      TermsUnder(freq, code, L, p + [true]);
    forall i | 0 <= i < |freq| ensures t[i] == t0[i] + t1[i] {
      assert Lengths(code)[i] == |code[i]|;
      if freq[i] > 0 { NextBit(code[i], p, L); }
    }
    SumAdd(t, t0, t1);
  }

  ghost function Longest(l: seq<nat>): (L: nat)
    ensures forall i :: 0 <= i < |l| ==> l[i] <= L
  {
    if l == [] then 0 else
      var m := Longest(l[..|l| - 1]);
      if m < l[|l| - 1] then l[|l| - 1] else m
  }

  // The Kraft inequality, for any bound L on the word lengths.
  lemma KraftInequality(freq: seq<nat>, code: seq<Word>, L: nat)
    requires |code| == |freq| && PrefixFree(freq, code)
    requires Bounded(freq, Lengths(code), L)
    ensures Kraft(freq, Lengths(code), L)
  {
    KraftUnder(freq, code, L, []);
    assert TermsUnder(freq, code, L, []) == KraftTerms(freq, Lengths(code), L);
  }

  // ---------- One merge step ----------

  // How the two sums change when one length or one frequency changes.
  lemma SetLength(freq: seq<nat>, l: seq<nat>, L: nat, i: nat, v: nat)
    requires Bounded(freq, l, L) && i < |l| && freq[i] > 0 && v <= L
    ensures Bounded(freq, l[i := v], L)
    ensures Sum(KraftTerms(freq, l[i := v], L)) + Pow2(L - l[i]) == Sum(KraftTerms(freq, l, L)) + Pow2(L - v)
    ensures Cost(freq, l[i := v]) + freq[i] * l[i] == Cost(freq, l) + freq[i] * v
  {
    var t: seq<nat>, c: seq<nat> := KraftTerms(freq, l, L), CostTerms(freq, l);
    assert KraftTerms(freq, l[i := v], L) == t[i := Pow2(L - v)];
    SumUpdate(t, i, Pow2(L - v));
    var w: nat := freq[i] * v;
    assert CostTerms(freq, l[i := v]) == c[i := w];
    SumUpdate(c, i, w);
  }

  lemma DropSymbol(freq: seq<nat>, l: seq<nat>, L: nat, i: nat)
    requires Bounded(freq, l, L) && i < |l| && freq[i] > 0
    ensures Bounded(freq[i := 0], l, L)
    ensures Sum(KraftTerms(freq[i := 0], l, L)) + Pow2(L - l[i]) == Sum(KraftTerms(freq, l, L))
    ensures Cost(freq[i := 0], l) + freq[i] * l[i] == Cost(freq, l)
  {
    var t: seq<nat>, c: seq<nat> := KraftTerms(freq, l, L), CostTerms(freq, l);
    assert KraftTerms(freq[i := 0], l, L) == t[i := 0];
    SumUpdate(t, i, 0);
    assert CostTerms(freq[i := 0], l) == c[i := 0];
    SumUpdate(c, i, 0);
  }

  lemma AddSymbol(freq: seq<nat>, l: seq<nat>, L: nat, i: nat, f: nat, v: nat)
    requires Bounded(freq, l, L) && i < |l| && freq[i] == 0 && v <= L && f > 0
    ensures Bounded(freq[i := f], l[i := v], L)
    ensures Sum(KraftTerms(freq[i := f], l[i := v], L)) == Sum(KraftTerms(freq, l, L)) + Pow2(L - v)
    ensures Cost(freq[i := f], l[i := v]) == Cost(freq, l) + f * v
  {
    var g, m := freq[i := f], l[i := v];
    DropSymbol(g, m, L, i);
    assert g[i := 0] == freq;
    assert KraftTerms(freq, m, L) == KraftTerms(freq, l, L);
    assert CostTerms(freq, m) == CostTerms(freq, l);
  }

  function Swap(l: seq<nat>, i: nat, k: nat): (r: seq<nat>)
    requires i < |l| && k < |l|
    ensures |r| == |l|
  {
    l[i := l[k]][k := l[i]]
  }

  // Giving the lighter symbol the longer word never costs more and keeps the Kraft sum.
  lemma SwapImproves(freq: seq<nat>, l: seq<nat>, L: nat, i: nat, k: nat)
    requires Kraft(freq, l, L) && i < |l| && k < |l|
    requires 0 < freq[i] <= freq[k] && l[i] <= l[k]
    ensures Kraft(freq, Swap(l, i, k), L)
    ensures Cost(freq, Swap(l, i, k)) <= Cost(freq, l)
  {
    if i == k {
      assert Swap(l, i, k) == l;
    } else {
      SetLength(freq, l, L, i, l[k]);
      SetLength(freq, l[i := l[k]], L, k, l[i]);
      ProductExchange(freq[i], freq[k], l[i], l[k]);
    }
  }

  lemma ProductExchange(f: nat, g: nat, m: nat, n: nat)
    requires f <= g && m <= n
    ensures f * n + g * m <= f * m + g * n
  {
    assert (g - f) * (n - m) >= 0;
    assert (g - f) * (n - m) == g * n - g * m - f * n + f * m;
  }

  // A used symbol with the longest word, leaving out `skip`.
  lemma {:induction false} LongestUsed(freq: seq<nat>, l: seq<nat>, skip: int, n: nat) returns (x: nat)
    requires |l| == |freq| && n <= |freq|
    requires exists i :: 0 <= i < n && i != skip && freq[i] > 0
    ensures x < n && x != skip && freq[x] > 0
    ensures forall i :: 0 <= i < n && i != skip && freq[i] > 0 ==> l[i] <= l[x]
  {
    if exists i :: 0 <= i < n - 1 && i != skip && freq[i] > 0 {
      x := LongestUsed(freq, l, skip, n - 1);
      if n - 1 != skip && freq[n - 1] > 0 && l[x] < l[n - 1] { x := n - 1; }
    } else {
      x := n - 1;
    }
  }

  // Lowering the bound from L to M divides every Kraft term by the same power of two.
  lemma KraftScale(freq: seq<nat>, l: seq<nat>, M: nat, L: nat)
    requires Bounded(freq, l, M) && M <= L
    ensures Bounded(freq, l, L)
    ensures Sum(KraftTerms(freq, l, L)) == Pow2(L - M) * Sum(KraftTerms(freq, l, M))
  {
    var s, t := KraftTerms(freq, l, M), KraftTerms(freq, l, L);
    var z := seq(|freq|, i => 0);
    forall i | 0 <= i < |freq| ensures t[i] == Pow2(L - M) * s[i] + z[i] {
      if freq[i] > 0 {
        Pow2Add(L - M, M - l[i]);
      } else {
        assert Pow2(L - M) * 0 == 0;
      }
    }
    SumLinear(t, Pow2(L - M), s, z);
    SumZero(z);
  }

  lemma CancelFactor(c: nat, s: nat, p: nat)
    requires c * s < c * p
    ensures s < p
  {
    assert s >= p ==> c * s >= c * p;
  }

  // When a carries the longest word, cutting it to the next length M keeps the inequality.
  lemma ShortenKeepsKraft(freq: seq<nat>, l: seq<nat>, L: nat, a: nat, M: nat)
    requires Kraft(freq, l, L) && a < |l| && freq[a] > 0 && M <= l[a]
    requires forall i :: 0 <= i < |l| && i != a && freq[i] > 0 ==> l[i] <= M
    ensures Kraft(freq, l[a := M], M)
  {
    var rest, r := freq[a := 0], l[a := M];
    DropSymbol(freq, l, L, a);
    DropSymbol(freq, r, M, a);
    assert KraftTerms(rest, r, M) == KraftTerms(rest, l, M);
    KraftScale(rest, l, M, L);
    Pow2Add(L - M, M);
    CancelFactor(Pow2(L - M), Sum(KraftTerms(rest, l, M)), Pow2(M));
  }

  // Two words of full length leave no room for a bound of zero.
  lemma TwoWordsNeedABit(freq: seq<nat>, l: seq<nat>, M: nat, a: nat, b: nat)
    requires Kraft(freq, l, M) && a < |l| && b < |l| && a != b && freq[a] > 0 && freq[b] > 0
    requires l[a] == l[b] == M
    ensures M > 0
  {
    SumAtLeastTwo(KraftTerms(freq, l, M), a, b);
  }

  lemma CutCostsLess(freq: seq<nat>, l: seq<nat>, L: nat, a: nat, M: nat)
    requires Bounded(freq, l, L) && a < |l| && freq[a] > 0 && M <= l[a]
    ensures Cost(freq, l[a := M]) <= Cost(freq, l)
  {
    SetLength(freq, l, L, a, M);
    ProductExchange(0, freq[a], M, l[a]);
  }

  ghost function Merged(freq: seq<nat>, a: nat, b: nat, j: nat): (r: seq<nat>)
    requires a < |freq| && b < |freq| && j < |freq|
    ensures |r| == |freq|
  {
    freq[a := 0][b := 0][j := freq[a] + freq[b]]
  }

  lemma DropPair(freq: seq<nat>, l: seq<nat>, M: nat, a: nat, b: nat) returns (rest: seq<nat>)
    requires Bounded(freq, l, M) && a < |l| && b < |l| && a != b
    requires freq[a] > 0 && freq[b] > 0 && l[a] == l[b] == M
    ensures rest == freq[a := 0][b := 0] && Bounded(rest, l, M)
    ensures Sum(KraftTerms(rest, l, M)) + 2 == Sum(KraftTerms(freq, l, M))
    ensures Cost(rest, l) + freq[a] * M + freq[b] * M == Cost(freq, l)
  {
    DropSymbol(freq, l, M, a);
    rest := freq[a := 0];
    DropSymbol(rest, l, M, b);
    rest := rest[b := 0];
  }

  // Joining two equally long words of length M into one of length M - 1.
  lemma JoinPair(freq: seq<nat>, l: seq<nat>, M: nat, a: nat, b: nat, j: nat)
    requires Kraft(freq, l, M) && a < |l| && b < |l| && j < |l| && a != b && a != j && b != j
    requires freq[a] > 0 && freq[b] > 0 && freq[j] == 0 && l[a] == l[b] == M > 0
    ensures Kraft(Merged(freq, a, b, j), l[j := M - 1], M)
    ensures Cost(Merged(freq, a, b, j), l[j := M - 1]) + freq[a] + freq[b] == Cost(freq, l)
  {
    var rest := DropPair(freq, l, M, a, b);
    AddSymbol(rest, l, M, j, freq[a] + freq[b], M - 1);
    JoinedProduct(freq[a], freq[b], M);
  }

  lemma JoinedProduct(f: nat, g: nat, M: nat)
    requires M > 0
    ensures (f + g) * (M - 1) + f + g == f * M + g * M
  {
  }

  // Merging the two lightest symbols saves their weight on the best possible code: every
  // length assignment for the symbols gives one for the merged symbols that costs less
  // by exactly the merged weight, or by more.
  lemma MergeStep(freq: seq<nat>, l: seq<nat>, L: nat, a: nat, b: nat, j: nat)
      returns (r: seq<nat>, M: nat)
    requires Kraft(freq, l, L) && a < |l| && b < |l| && j < |l| && a != b
    requires 0 < freq[a] <= freq[b] && freq[j] == 0
    requires forall i :: 0 <= i < |l| && i != a && freq[i] > 0 ==> freq[b] <= freq[i]
    ensures Kraft(Merged(freq, a, b, j), r, M)
    ensures Cost(Merged(freq, a, b, j), r) + freq[a] + freq[b] <= Cost(freq, l)
  {
    var x := LongestUsed(freq, l, -1, |l|);
    SwapImproves(freq, l, L, a, x);
    var l1 := Swap(l, a, x);
    var y := LongestUsed(freq, l1, a, |l|);
    SwapImproves(freq, l1, L, b, y);
    var l2 := Swap(l1, b, y);
    M := l2[b];
    ShortenKeepsKraft(freq, l2, L, a, M);
    CutCostsLess(freq, l2, L, a, M);
    var l3 := l2[a := M];
    TwoWordsNeedABit(freq, l3, M, a, b);
    JoinPair(freq, l3, M, a, b, j);
    r := l3[j := M - 1];
  }
}
