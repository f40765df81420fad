// What the finished forest guarantees about the code it assigns.
module HuffmanCode {
  import opened Sums
  import opened CodeLengths
  import opened Forests

  // ---------- Conservation and counting ----------

  ghost function LiveTerms(freq: seq<nat>): (t: seq<nat>)
    ensures |t| == |freq|
  {
    seq(|freq|, i requires 0 <= i < |freq| => if freq[i] > 0 then 1 else 0)
  }

  // How many nodes carry weight; for a table, how many symbols are used.
  ghost function LiveCount(freq: seq<nat>): nat {
    Sum(LiveTerms(freq))
  }

  lemma SumUpdate3(s: seq<nat>, a: nat, b: nat, j: nat, v: nat)
    requires a < |s| && b < |s| && j < |s| && a != b && a != j && b != j
    ensures Sum(s[a := 0][b := 0][j := v]) + s[a] + s[b] + s[j] == Sum(s) + v
  {
    SumUpdate(s, a, 0);
    SumUpdate(s[a := 0], b, 0);
    SumUpdate(s[a := 0][b := 0], j, v);
  }

  lemma MergeConserves(freq: seq<nat>, a: nat, b: nat, j: nat, merged: seq<nat>)
    requires a < |freq| && b < |freq| && j < |freq| && a != b && a != j && b != j && freq[j] == 0
    requires merged == Merged(freq, a, b, j)
    ensures Sum(merged) == Sum(freq)
  {
    SumUpdate3(freq, a, b, j, freq[a] + freq[b]);
  }

  lemma MergeCounts(freq: seq<nat>, a: nat, b: nat, j: nat)
    requires a < |freq| && b < |freq| && j < |freq| && a != b && freq[a] > 0 && freq[b] > 0 && freq[j] == 0
    ensures LiveCount(Merged(freq, a, b, j)) + 1 == LiveCount(freq)
  {
    var t := LiveTerms(freq);
    assert LiveTerms(Merged(freq, a, b, j)) == t[a := 0][b := 0][j := 1];
    SumUpdate3(t, a, b, j, 1);
  }

  lemma {:induction false} CountTwo(freq: seq<nat>) returns (x: nat, y: nat)
    requires LiveCount(freq) >= 2
    ensures x < y < |freq| && freq[x] > 0 && freq[y] > 0
  {
    var n := |freq| - 1;
    var rest := freq[..n];
    assert LiveTerms(rest) == LiveTerms(freq)[..n];
    if freq[n] > 0 {
      x := CountOne(rest);
      y := n;
    } else {
      x, y := CountTwo(rest);
    }
  }

  lemma {:induction false} CountOne(freq: seq<nat>) returns (x: nat)
    requires LiveCount(freq) >= 1
    ensures x < |freq| && freq[x] > 0
  {
    var n := |freq| - 1;
    assert LiveTerms(freq[..n]) == LiveTerms(freq)[..n];
    if freq[n] > 0 { x := n; } else { x := CountOne(freq[..n]); }
  }

  lemma {:induction false} AtMostOne(freq: seq<nat>, x: nat, y: nat)
    requires LiveCount(freq) <= 1 && x < |freq| && y < |freq| && freq[x] > 0 && freq[y] > 0
    ensures x == y
  {
    if x != y { SumAtLeastTwo(LiveTerms(freq), x, y); }
  }

  // ---------- The loop invariant ----------

  ghost predicate Inv(f0: seq<nat>, s: Forest, j: nat, L: nat) {
    && Shape(s, j) && |f0| == NODES <= L
    && Filled(f0, s.freq, Roots(s.up), Depths(s.up, s.flag), L)
    && Sum(s.freq) == Sum(f0)
    && LiveCount(s.freq) + j == LiveCount(f0) + SYMBOLS
    && (forall i :: 0 <= i < SYMBOLS && f0[i] == 0 ==> s.freq[i] == 0 && s.up[i] == -1)
  }

  lemma InitialInv(f0: seq<nat>, L: nat)
    requires Table(f0) && L >= NODES
    ensures Inv(f0, Initial(f0), SYMBOLS, L)
    ensures Cost(f0, Depths(Initial(f0).up, Initial(f0).flag)) == 0
  {
    var s := Initial(f0);
    var roots, depths := Roots(s.up), Depths(s.up, s.flag);
    forall r: nat | r < NODES && f0[r] > 0 ensures FilledAt(f0, f0, roots, depths, L, r) {
      InitialFilledAt(f0, roots, depths, L, r);
    }
    SumZero(CostTerms(f0, depths));
  }

  lemma InitialFilledAt(f0: seq<nat>, roots: seq<nat>, depths: seq<nat>, L: nat, r: nat)
    requires |f0| == |roots| == |depths| && r < |f0| && f0[r] > 0
    requires forall i :: 0 <= i < |f0| ==> roots[i] == i && depths[i] == 0
    ensures FilledAt(f0, f0, roots, depths, L, r)
  {
    var w, k := WeightUnder(f0, roots, r), SpaceUnder(f0, roots, depths, r, L);
    SumUpdate(w, r, 0);
    SumZero(w[r := 0]);
    SumUpdate(k, r, 0);
    SumZero(k[r := 0]);
  }

  lemma JoinCost(f0: seq<nat>, roots: seq<nat>, depths: seq<nat>, roots': seq<nat>, depths': seq<nat>, a: nat, b: nat,
                 j: nat)
    requires |f0| == |roots| && Joined(roots, depths, roots', depths', a, b, j) && a != b
    requires forall i :: 0 <= i < |f0| && f0[i] > 0 ==> roots[i] != j
    ensures Cost(f0, depths') == Cost(f0, depths) + Sum(WeightUnder(f0, roots', j))
  {
    var t, u, w := CostTerms(f0, depths'), CostTerms(f0, depths), WeightUnder(f0, roots', j);
    forall i | 0 <= i < |f0| ensures t[i] == u[i] + w[i] {
      if roots'[i] == j && f0[i] > 0 { assert f0[i] * (depths[i] + 1) == f0[i] * depths[i] + f0[i]; }
    }
    SumAdd(t, u, w);
  }

  lemma MergeFills(f0: seq<nat>, s: Forest, j: nat, a: nat, b: nat, L: nat)
    requires Inv(f0, s, j, L) && j < NODES && TwoLeast(s.freq, j, a, b)
    ensures var t := MergeAt(s, j, a, b);
      && Rising(t.up) && Filled(f0, t.freq, Roots(t.up), Depths(t.up, t.flag), L)
      && Cost(f0, Depths(t.up, t.flag)) == Cost(f0, Depths(s.up, s.flag)) + s.freq[a] + s.freq[b]
  {
    var t := MergeAt(s, j, a, b);
    MergeShape(s, j, a, b);
    MergeJoins(s, j, a, b);
    var roots, depths, roots', depths' := Roots(s.up), Depths(s.up, s.flag), Roots(t.up), Depths(t.up, t.flag);
    JoinFilled(f0, s.freq, roots, depths, roots', depths', a, b, j, L);
    assert FilledAt(f0, t.freq, roots', depths', L, j);
    JoinCost(f0, roots, depths, roots', depths', a, b, j);
  }

  lemma UnusedStays(f0: seq<nat>, s: Forest, j: nat, a: nat, b: nat, L: nat, i: nat)
    requires Inv(f0, s, j, L) && j < NODES && TwoLeast(s.freq, j, a, b) && i < SYMBOLS && f0[i] == 0
    ensures var t := MergeAt(s, j, a, b); t.freq[i] == 0 && t.up[i] == -1
  {
    assert i != a && i != b && i != j;
  }

  lemma MergeKeepsInv(f0: seq<nat>, s: Forest, j: nat, a: nat, b: nat, L: nat)
    requires Inv(f0, s, j, L) && j < NODES && TwoLeast(s.freq, j, a, b)
    ensures Inv(f0, MergeAt(s, j, a, b), j + 1, L)
    ensures var t := MergeAt(s, j, a, b);
      Cost(f0, Depths(t.up, t.flag)) == Cost(f0, Depths(s.up, s.flag)) + s.freq[a] + s.freq[b]
  {
    var t := MergeAt(s, j, a, b);
    MergeShape(s, j, a, b);
    MergeConserves(s.freq, a, b, j, t.freq);
    MergeCounts(s.freq, a, b, j);
    MergeFills(f0, s, j, a, b, L);
    forall i: nat | i < SYMBOLS && f0[i] == 0 ensures t.freq[i] == 0 && t.up[i] == -1 {
      UnusedStays(f0, s, j, a, b, L, i);
    }
  }

  // Induction over the loop: a property kept by every merge holds of the finished forest.
  lemma {:induction false} BuildInduction(I: (Forest, nat) -> bool, s: Forest, j: nat) returns (n: nat)
    requires |s.freq| == |s.up| == |s.flag| == NODES && j <= NODES && I(s, j)
    requires forall t: Forest, k: nat, a: nat, b: nat ::
      |t.freq| == |t.up| == |t.flag| == NODES && k < NODES && I(t, k) && TwoLeast(t.freq, k, a, b)
      ==> I(MergeAt(t, k, a, b), k + 1)
    ensures j <= n <= NODES && |Build(s, j).freq| == NODES && I(Build(s, j), n)
    ensures n == NODES || Pick(Build(s, j).freq, n).NoPair?
    decreases NODES - j
  {
    if j < NODES && Pick(s.freq, j).Pair? {
      var Pair(a, b) := Pick(s.freq, j);
      n := BuildInduction(I, MergeAt(s, j, a, b), j + 1);
    } else {
      n := j;
    }
  }

  lemma MergedWeightStep(s: Forest, j: nat, a: nat, b: nat)
    requires |s.freq| == |s.up| == |s.flag| == NODES && j < NODES && TwoLeast(s.freq, j, a, b)
    ensures MergedWeight(s, j) == s.freq[a] + s.freq[b] + MergedWeight(MergeAt(s, j, a, b), j + 1)
  {
    var Pair(c, d) := Pick(s.freq, j);
    TwoLeastUnique(s.freq, j, a, b, c, d);
  }

  // The words made so far and the merges still to come cost `total` together.
  ghost predicate InvCost(f0: seq<nat>, L: nat, total: nat, s: Forest, j: nat) {
    Inv(f0, s, j, L) && Cost(f0, Depths(s.up, s.flag)) + MergedWeight(s, j) == total
  }

  lemma MergeKeepsInvCost(f0: seq<nat>, L: nat, total: nat, s: Forest, j: nat, a: nat, b: nat)
    requires InvCost(f0, L, total, s, j) && j < NODES && TwoLeast(s.freq, j, a, b)
    ensures InvCost(f0, L, total, MergeAt(s, j, a, b), j + 1)
  {
    MergeKeepsInv(f0, s, j, a, b, L);
    MergedWeightStep(s, j, a, b);
  }

  ghost function Accounts(f0: seq<nat>, L: nat, total: nat): (Forest, nat) -> bool {
    (s: Forest, j: nat) => InvCost(f0, L, total, s, j)
  }

  lemma MergeKeepsAccounts(f0: seq<nat>, L: nat, total: nat, s: Forest, j: nat, a: nat, b: nat)
    requires |s.freq| == |s.up| == |s.flag| == NODES && j < NODES && TwoLeast(s.freq, j, a, b)
    requires Accounts(f0, L, total)(s, j)
    ensures Accounts(f0, L, total)(MergeAt(s, j, a, b), j + 1)
  {
    MergeKeepsInvCost(f0, L, total, s, j, a, b);
  }

  lemma MergesKeepAccounts(f0: seq<nat>, L: nat, total: nat, s: Forest, j: nat) returns (n: nat)
    requires |s.freq| == |s.up| == |s.flag| == NODES && j <= NODES
    requires Accounts(f0, L, total)(s, j)
    ensures n <= NODES && Accounts(f0, L, total)(Build(s, j), n)
    ensures n == NODES || Pick(Build(s, j).freq, n).NoPair?
  {
    var I := Accounts(f0, L, total);
    forall t: Forest, k: nat, a: nat, b: nat |
      |t.freq| == |t.up| == |t.flag| == NODES && k < NODES && I(t, k) && TwoLeast(t.freq, k, a, b)
      ensures I(MergeAt(t, k, a, b), k + 1)
    {
      MergeKeepsAccounts(f0, L, total, t, k, a, b);
    }
    n := BuildInduction(I, s, j);
  }

  // The finished forest satisfies the invariant, its merges have paid for its words, and
  // unless the merge nodes ran out fewer than two roots are left.
  lemma FinalInv(freq: seq<nat>, L: nat) returns (n: nat)
    requires Table(freq) && L >= NODES
    ensures Inv(freq, Final(freq), n, L)
    ensures n == NODES || LiveCount(Final(freq).freq) < 2
    ensures Cost(freq, Depths(Final(freq).up, Final(freq).flag)) == MergedWeight(Initial(freq), SYMBOLS)
  {
    InitialInv(freq, L);
    var total := MergedWeight(Initial(freq), SYMBOLS);
    n := MergesKeepAccounts(freq, L, total, Initial(freq), SYMBOLS);
    FewRootsLeft(freq, Final(freq), n, L);
    NothingLeft(Final(freq), n);
  }

  lemma NothingLeft(s: Forest, n: nat)
    requires |s.freq| == |s.up| == |s.flag| == NODES && n <= NODES
    requires n == NODES || (n < NODES && Pick(s.freq, n).NoPair?)
    ensures MergedWeight(s, n) == 0
  {
  }

  lemma FewRootsLeft(f0: seq<nat>, s: Forest, n: nat, L: nat)
    requires Inv(f0, s, n, L)
    requires n == NODES || (n < NODES && Pick(s.freq, n).NoPair?)
    ensures n == NODES || LiveCount(s.freq) < 2
  {
    if n < NODES && LiveCount(s.freq) >= 2 {
      var x, y := CountTwo(s.freq);
      var a, b := TwoLeastExist(s.freq, n, x, y);
      assert false;
    }
  }

  ghost function Final(freq: seq<nat>): Forest
    requires Table(freq)
  {
    Build(Initial(freq), SYMBOLS)
  }

  // ---------- Optimality ----------

  // No length assignment within the Kraft inequality beats the merges that remain.
  lemma {:induction false} MergesAreLowerBound(s: Forest, j: nat, l: seq<nat>, L: nat)
    requires Shape(s, j) && Kraft(s.freq, l, L)
    ensures MergedWeight(s, j) <= Cost(s.freq, l)
    decreases NODES - j
  {
    if j < NODES && Pick(s.freq, j).Pair? {
      var Pair(a, b) := Pick(s.freq, j);
      MergeShape(s, j, a, b);
      var r, M := MergeStep(s.freq, l, L, a, b, j);
      MergesAreLowerBound(MergeAt(s, j, a, b), j + 1, r, M);
    }
  }

  lemma FinalRising(freq: seq<nat>)
    requires Table(freq)
    ensures Rising(Final(freq).up) && |Final(freq).up| == |Final(freq).flag| == NODES
  {
    var n := FinalInv(freq, NODES);
  }

  // The word the links give to each node; only those of used symbols are ever looked up.
  ghost function Code(freq: seq<nat>): (c: seq<Word>)
    requires Table(freq)
    ensures |c| == NODES
  {
    FinalRising(freq);
    var t := Final(freq);
    seq(NODES, i requires 0 <= i < NODES => PathWord(t.up, t.flag, i))
  }

  lemma CodeLengthsAreDepths(freq: seq<nat>)
    requires Table(freq)
    ensures Rising(Final(freq).up) && |Final(freq).up| == |Final(freq).flag| == NODES
    ensures Lengths(Code(freq)) == Depths(Final(freq).up, Final(freq).flag)
  {
    FinalRising(freq);
  }

  // Huffman optimality: no prefix-free code for the used symbols takes fewer bits.
  lemma Optimal(freq: seq<nat>, code: seq<Word>)
    requires Table(freq) && |code| == NODES && PrefixFree(freq, code)
    ensures Cost(freq, Lengths(Code(freq))) <= Cost(freq, Lengths(code))
  {
    var n := FinalInv(freq, NODES);
    CodeLengthsAreDepths(freq);
    var L := Longest(Lengths(code));
    KraftInequality(freq, code, L);
    MergesAreLowerBound(Initial(freq), SYMBOLS, Lengths(code), L);
  }

  // ---------- Prefix freedom ----------

  lemma {:induction false} SameWordSameNode(s: Forest, j: nat, i: nat, k: nat)
    requires Shape(s, j) && i < NODES && k < NODES && Root(s.up, i) == Root(s.up, k)
    requires PathWord(s.up, s.flag, i) == PathWord(s.up, s.flag, k)
    ensures i == k
    decreases NODES - i
  {
    if s.up[i] != -1 {
      var wi, wk := PathWord(s.up, s.flag, s.up[i]), PathWord(s.up, s.flag, i);
      assert wk[..|wk| - 1] == wi && wk[|wk| - 1] == (s.flag[i] == 1);
      assert s.up[k] != -1;
      var vk := PathWord(s.up, s.flag, s.up[k]);
      assert wk == vk + [s.flag[k] == 1];
      assert wk[..|wk| - 1] == vk && wk[|wk| - 1] == (s.flag[k] == 1);
      SameWordSameNode(s, j, s.up[i], s.up[k]);
    }
  }

  // Below one root only a node's ancestors have a prefix of its word.
  lemma {:induction false} PrefixIsAncestor(s: Forest, j: nat, i: nat, k: nat)
    requires Shape(s, j) && i < NODES && k < NODES && Root(s.up, i) == Root(s.up, k)
    requires PathWord(s.up, s.flag, i) <= PathWord(s.up, s.flag, k)
    ensures i == k || i >= SYMBOLS
    decreases NODES - k
  {
    var wi, wk := PathWord(s.up, s.flag, i), PathWord(s.up, s.flag, k);
    if |wi| == |wk| {
      assert wi == wk;
      SameWordSameNode(s, j, i, k);
    } else {
      assert s.up[k] != -1;
      assert wk[..|wk| - 1] == PathWord(s.up, s.flag, s.up[k]);
      assert wi == wk[..|wk| - 1][..|wi|];
      PrefixIsAncestor(s, j, i, s.up[k]);
    }
  }

  // ---------- Full code space ----------

  // With at most 256 used symbols exactly one root remains and the words of the used
  // symbols fill the code space exactly; with all 257 the loop runs out of merge nodes
  // with two roots left, and the words would need twice the space.
  lemma KraftSum(freq: seq<nat>, L: nat)
    requires Table(freq) && L >= NODES
    ensures Bounded(freq, Lengths(Code(freq)), L)
    ensures Sum(KraftTerms(freq, Lengths(Code(freq)), L)) == if LiveCount(freq) <= 256 then Pow2(L) else 2 * Pow2(L)
    ensures LiveCount(Final(freq).freq) == if LiveCount(freq) <= 256 then 1 else 2
  {
    var n := FinalInv(freq, L);
    CodeLengthsAreDepths(freq);
    UsedAtMost(freq);
    var t := Final(freq);
    var roots, depths := Roots(t.up), Depths(t.up, t.flag);
    SumAtLeast(freq, 256);
    var x := LiveExists(t.freq);
    SumAtLeast(LiveTerms(t.freq), x);
    if LiveCount(freq) <= 256 {
      assert LiveCount(t.freq) == 1;
      OneRoot(freq, t.freq, roots, depths, L, x);
    } else {
      assert LiveCount(t.freq) == 2;
      var y, z := CountTwo(t.freq);
      TwoRoots(freq, t.freq, roots, depths, L, y, z);
    }
  }

  lemma LiveExists(freq: seq<nat>) returns (x: nat)
    requires Sum(freq) > 0
    ensures x < |freq| && freq[x] > 0
  {
    if forall i :: 0 <= i < |freq| ==> freq[i] == 0 { SumZero(freq); }
    x :| x < |freq| && freq[x] > 0;
  }

  lemma UsedAtMost(freq: seq<nat>)
    requires Table(freq)
    ensures LiveCount(freq) <= SYMBOLS
  {
    var t := LiveTerms(freq);
    BoundedPrefix(t, SYMBOLS, 1);
    TailZero(t, SYMBOLS);
  }

  lemma {:induction false} BoundedPrefix(s: seq<nat>, n: nat, c: nat)
    requires n <= |s| && forall i :: 0 <= i < n ==> s[i] <= c
    ensures Sum(s[..n]) <= n * c
  {
    if n > 0 {
      BoundedPrefix(s, n - 1, c);
      assert s[..n][..n - 1] == s[..n - 1];
      assert (n - 1) * c + c == n * c;
    } else {
      assert s[..n] == [];
    }
  }

  lemma {:induction false} TailZero(s: seq<nat>, n: nat)
    requires n <= |s| && forall i :: n <= i < |s| ==> s[i] == 0
    ensures Sum(s) == Sum(s[..n])
  {
    if n < |s| {
      TailZero(s[..|s| - 1], n);
      assert s[..|s| - 1][..n] == s[..n];
    } else {
      assert s[..n] == s;
    }
  }

  lemma OneRoot(f0: seq<nat>, freq: seq<nat>, roots: seq<nat>, depths: seq<nat>, L: nat, x: nat)
    requires Filled(f0, freq, roots, depths, L) && LiveCount(freq) == 1 && x < |freq| && freq[x] > 0
    ensures Bounded(f0, depths, L) && Sum(KraftTerms(f0, depths, L)) == Pow2(L)
  {
    forall i | 0 <= i < |f0| && f0[i] > 0 ensures roots[i] == x {
      AtMostOne(freq, roots[i], x);
    }
    assert FilledAt(f0, freq, roots, depths, L, x);
    assert KraftTerms(f0, depths, L) == SpaceUnder(f0, roots, depths, x, L);
  }

  lemma TwoRoots(f0: seq<nat>, freq: seq<nat>, roots: seq<nat>, depths: seq<nat>, L: nat, x: nat, y: nat)
    requires Filled(f0, freq, roots, depths, L) && LiveCount(freq) == 2
    requires x < y < |freq| && freq[x] > 0 && freq[y] > 0
    ensures Bounded(f0, depths, L) && Sum(KraftTerms(f0, depths, L)) == 2 * Pow2(L)
  {
    var rest := freq[x := 0];
    assert LiveTerms(rest) == LiveTerms(freq)[x := 0];
    SumUpdate(LiveTerms(freq), x, 0);
    forall i | 0 <= i < |f0| && f0[i] > 0 ensures roots[i] == x || roots[i] == y {
      if roots[i] != x { AtMostOne(rest, roots[i], y); }
    }
    assert FilledAt(f0, freq, roots, depths, L, x) && FilledAt(f0, freq, roots, depths, L, y);
    SumAdd(KraftTerms(f0, depths, L), SpaceUnder(f0, roots, depths, x, L), SpaceUnder(f0, roots, depths, y, L));
  }

  // The words form a prefix code exactly when at most 256 of the 257 symbols are used.
  lemma PrefixFreeIff(freq: seq<nat>)
    requires Table(freq)
    ensures PrefixFree(freq, Code(freq)) <==> LiveCount(freq) <= 256
  {
    var code := Code(freq);
    KraftSum(freq, NODES);
    if LiveCount(freq) <= 256 {
      var n := FinalInv(freq, NODES);
      var t := Final(freq);
      var roots := Roots(t.up);
      forall i, k | 0 <= i < NODES && 0 <= k < NODES && i != k && freq[i] > 0 && freq[k] > 0
        ensures !(code[i] <= code[k])
      {
        AtMostOne(t.freq, roots[i], roots[k]);
        if code[i] <= code[k] { PrefixIsAncestor(t, n, i, k); }
      }
    } else if PrefixFree(freq, code) {
      KraftInequality(freq, code, NODES);
    }
  }
}
