// In what order nodes are merged: merge nodes in the order in which they were made, so nodes that
// lie deeper in the end were made earlier; and what that says about two trees of which one ends
// where the other goes on.
module HuffmanOrder {
  import opened Sums
  import opened CodeLengths
  import opened Forests
  import opened HuffmanCode

  // ---------- The loop invariant ----------

  // The node c is still a root, or was merged after node d.
  predicate Outlives(s: Forest, c: nat, d: nat)
    requires |s.freq| == |s.up| && c < |s.up| && d < |s.up|
  {
    if s.up[c] == -1 then s.freq[c] > 0 else s.up[c] > s.up[d]
  }

  // The weights of live roots.
  ghost predicate LiveWeights(s: Forest, w: seq<nat>) {
    |w| == |s.freq| && forall k :: 0 <= k < |w| && s.freq[k] > 0 ==> w[k] == s.freq[k]
  }

  // c and d are the two children of one node.
  predicate Siblings(s: Forest, w: seq<nat>, c: nat, d: nat)
    requires |w| == |s.up|
  {
    c < |w| && d < |w| && c != d && s.up[c] == s.up[d] && 0 <= s.up[c] < |w| && w[s.up[c]] == w[c] + w[d]
  }

  ghost predicate HasChild(s: Forest, n: nat) {
    exists c: nat :: c < |s.up| && s.up[c] == n
  }

  ghost predicate HasSibling(s: Forest, w: seq<nat>, c: nat)
    requires |w| == |s.up|
  {
    c < |w| && s.up[c] != -1 ==> w[c] > 0 && exists d: nat :: Siblings(s, w, c, d)
  }

  // Every merged node weighs something and has a sibling; every merge node has children.
  ghost predicate Paired(s: Forest, w: seq<nat>, j: nat)
    requires |w| == |s.up|
  {
    && (forall c: nat {:trigger HasSibling(s, w, c)} :: HasSibling(s, w, c))
    && (forall n: nat {:trigger HasChild(s, n)} :: SYMBOLS <= n < j ==> HasChild(s, n))
  }

  // Nothing merged is heavier than what was merged later, or not yet.
  ghost predicate Rises(s: Forest, w: seq<nat>)
    requires |w| == |s.up| == |s.freq|
  {
    forall d: nat, c: nat {:trigger Outlives(s, c, d)} ::
      d < |w| && c < |w| && s.up[d] != -1 && Outlives(s, c, d) ==> w[d] <= w[c]
  }

  predicate Turn(s: Forest, b: nat, c: nat) {
    SYMBOLS <= b < c < |s.up| && s.up[c] != -1 ==> s.up[b] != -1 && s.up[b] <= s.up[c]
  }

  // Merge nodes are merged in the order in which they were made.
  ghost predicate InTurn(s: Forest) {
    forall b: nat, c: nat {:trigger Turn(s, b, c)} :: Turn(s, b, c)
  }

  // A merge node is a live root until it is merged.
  ghost predicate Kept(s: Forest, j: nat)
    requires |s.up| == |s.freq|
  {
    forall n :: SYMBOLS <= n < j && n < |s.up| && s.up[n] == -1 ==> s.freq[n] > 0
  }

  ghost predicate Ordered(s: Forest, j: nat, w: seq<nat>) {
    Shape(s, j) && LiveWeights(s, w) && Paired(s, w, j) && Rises(s, w) && InTurn(s) && Kept(s, j)
  }

  lemma Children(s: Forest, w: seq<nat>, j: nat, n: nat) returns (c: nat, d: nat)
    requires |w| == |s.up| && Paired(s, w, j) && SYMBOLS <= n < j
    ensures Siblings(s, w, c, d) && s.up[c] == n
  {
    assert HasChild(s, n);
    c :| c < |s.up| && s.up[c] == n;
    assert HasSibling(s, w, c);
    d :| Siblings(s, w, c, d);
  }

  // Later merge nodes are no lighter.
  lemma MergeWeightsRise(s: Forest, j: nat, w: seq<nat>, b: nat, c: nat)
    requires |w| == |s.up| == |s.freq| && Paired(s, w, j) && Rises(s, w) && SYMBOLS <= b < c < j
    ensures b < |w| && c < |w| && w[b] <= w[c]
  {
    var p, p' := Children(s, w, j, b);
    var q, q' := Children(s, w, j, c);
    assert Outlives(s, q, p) && Outlives(s, q', p');
  }

  // A merge node weighs at most twice as much as any live node.
  lemma AtMostTwice(s: Forest, j: nat, w: seq<nat>, r: nat, k: nat)
    requires |w| == |s.up| == |s.freq| && Paired(s, w, j) && Rises(s, w) && SYMBOLS <= r < j
    requires k < |w| && s.up[k] == -1 && s.freq[k] > 0
    ensures r < |w| && w[r] <= 2 * w[k]
  {
    var p, p' := Children(s, w, j, r);
    assert Outlives(s, k, p) && Outlives(s, k, p');
  }

  // ---------- One merge ----------

  // What MergeAt does to links and weights.
  ghost predicate Step(s: Forest, w: seq<nat>, t: Forest, v: seq<nat>, j: nat, a: nat, b: nat) {
    && |w| == |v| == |s.up| == |t.up| == |s.freq| == |t.freq|
    && a < j && b < j && j < |w| && a != b && s.up[a] == s.up[b] == s.up[j] == -1
    && t.up == s.up[a := j][b := j] && v == w[j := w[a] + w[b]] && t.freq == Merged(s.freq, a, b, j)
    && 0 < w[a] <= w[b] && 0 < s.freq[a] && 0 < s.freq[b]
  }

  lemma StepPaired(s: Forest, w: seq<nat>, t: Forest, v: seq<nat>, j: nat, a: nat, b: nat)
    requires Step(s, w, t, v, j, a, b) && Paired(s, w, j)
    requires forall c :: 0 <= c < |w| ==> s.up[c] < j
    ensures Paired(t, v, j + 1)
  {
    forall c: nat ensures HasSibling(t, v, c) {
      if c == a {
        assert Siblings(t, v, a, b);
      } else if c == b {
        assert Siblings(t, v, b, a);
      } else if c < |v| && t.up[c] != -1 {
        assert HasSibling(s, w, c);
        var d: nat :| Siblings(s, w, c, d);
        assert Siblings(t, v, c, d);
      }
    }
    forall n: nat | SYMBOLS <= n < j + 1 ensures HasChild(t, n) {
      if n == j {
        assert t.up[a] == n;
      } else {
        assert HasChild(s, n);
        var c: nat :| c < |s.up| && s.up[c] == n;
        assert t.up[c] == n;
      }
    }
  }

  lemma StepRises(s: Forest, w: seq<nat>, t: Forest, v: seq<nat>, j: nat, a: nat, b: nat)
    requires Step(s, w, t, v, j, a, b) && Rises(s, w) && LiveWeights(s, w)
    requires forall c :: 0 <= c < |w| ==> s.up[c] < j
    requires forall k :: 0 <= k < |w| && k != a && k != b && s.freq[k] > 0 ==> s.freq[b] <= s.freq[k]
    ensures Rises(t, v)
  {
    forall d: nat, c: nat | d < |v| && c < |v| && t.up[d] != -1 && Outlives(t, c, d) ensures v[d] <= v[c] {
      if d == a || d == b {
        assert t.up[c] == -1;
      } else if c == j {
        assert Outlives(s, a, d);
      } else {
        assert Outlives(s, c, d);
      }
    }
  }

  // No merge node older than one of the two lightest is left.
  lemma OldestFirst(s: Forest, w: seq<nat>, j: nat, a: nat, b: nat, x: nat, c: nat)
    requires |w| == |s.up| == |s.freq| && j <= |w| && Paired(s, w, j) && Rises(s, w) && LiveWeights(s, w) && Kept(s, j)
    requires TwoLeast(s.freq, j, a, b) && SYMBOLS <= x < c && (c == a || c == b)
    ensures s.up[x] != -1 || x == a
  {
    MergeWeightsRise(s, j, w, x, c);
  }

  lemma StepInTurn(s: Forest, w: seq<nat>, t: Forest, v: seq<nat>, j: nat, a: nat, b: nat)
    requires Step(s, w, t, v, j, a, b) && Paired(s, w, j) && Rises(s, w) && LiveWeights(s, w) && Kept(s, j)
    requires TwoLeast(s.freq, j, a, b) && InTurn(s) && forall c :: 0 <= c < |w| ==> s.up[c] < j
    ensures InTurn(t)
  {
    forall x: nat, c: nat ensures Turn(t, x, c) {
      assert Turn(s, x, c);
      if SYMBOLS <= x < c && (c == a || c == b) {
        OldestFirst(s, w, j, a, b, x, c);
      }
    }
  }

  lemma MergeKeepsOrdered(s: Forest, j: nat, a: nat, b: nat, w: seq<nat>)
    requires Ordered(s, j, w) && j < NODES && TwoLeast(s.freq, j, a, b)
    ensures Ordered(MergeAt(s, j, a, b), j + 1, w[j := w[a] + w[b]])
  {
    var t, v := MergeAt(s, j, a, b), w[j := w[a] + w[b]];
    MergeShape(s, j, a, b);
    assert Step(s, w, t, v, j, a, b);
    StepPaired(s, w, t, v, j, a, b);
    StepRises(s, w, t, v, j, a, b);
    StepInTurn(s, w, t, v, j, a, b);
  }

  ghost predicate SomeOrder(s: Forest, j: nat) {
    exists w: seq<nat> :: Ordered(s, j, w)
  }

  lemma InitialOrdered(freq: seq<nat>)
    requires Table(freq)
    ensures Ordered(Initial(freq), SYMBOLS, freq)
  {
  }

  lemma FinalOrdered(freq: seq<nat>) returns (n: nat, w: seq<nat>)
    requires Table(freq)
    ensures Ordered(Final(freq), n, w) && (n == NODES || Pick(Final(freq).freq, n).NoPair?)
  {
    forall s: Forest, j: nat, a: nat, b: nat |
      |s.freq| == NODES && j < NODES && SomeOrder(s, j) && TwoLeast(s.freq, j, a, b)
      ensures SomeOrder(MergeAt(s, j, a, b), j + 1)
    {
      var u: seq<nat> :| Ordered(s, j, u);
      MergeKeepsOrdered(s, j, a, b, u);
    }
    InitialOrdered(freq);
    n := BuildInduction((s: Forest, j: nat) => SomeOrder(s, j), Initial(freq), SYMBOLS);
    w :| Ordered(Final(freq), n, w);
  }

  // ---------- Depths ----------

  function Depth(up: seq<int>, i: nat): nat
    requires Rising(up) && i < |up|
    decreases |up| - i
  {
    if up[i] == -1 then 0 else 1 + Depth(up, up[i])
  }

  // Of two merge nodes the later one does not lie deeper.
  lemma {:induction false} DepthFalls(s: Forest, b: nat, c: nat)
    requires Rising(s.up) && InTurn(s) && SYMBOLS <= b <= c < |s.up|
    ensures Depth(s.up, b) >= Depth(s.up, c)
    decreases |s.up| - c
  {
    assert b < c ==> Turn(s, b, c);
    if s.up[c] != -1 && b < c {
      DepthFalls(s, s.up[b], s.up[c]);
    }
  }

  lemma {:induction false} DepthIsLength(up: seq<int>, flag: seq<nat>, i: nat)
    requires Rising(up) && |flag| == |up| && i < |up|
    ensures |PathWord(up, flag, i)| == Depth(up, i)
    decreases |up| - i
  {
    if up[i] != -1 { DepthIsLength(up, flag, up[i]); }
  }

  // What the final forest keeps of the order.
  ghost predicate InOrder(s: Forest, w: seq<nat>) {
    |s.freq| == |s.up| == |w| && Rising(s.up) && Paired(s, w, |s.up|) && Rises(s, w) && InTurn(s)
  }

  // A node deeper than a merge node was made before it.
  lemma DeeperIsEarlier(s: Forest, b: nat, c: nat)
    requires Rising(s.up) && InTurn(s) && SYMBOLS <= b < |s.up| && SYMBOLS <= c < |s.up|
    requires Depth(s.up, b) > Depth(s.up, c)
    ensures b < c
  {
    if c <= b { DepthFalls(s, c, b); }
  }

  lemma SiblingOf(s: Forest, w: seq<nat>, c: nat) returns (d: nat)
    requires InOrder(s, w) && c < |w| && s.up[c] != -1
    ensures w[c] > 0 && Siblings(s, w, c, d)
  {
    assert HasSibling(s, w, c);
    d :| Siblings(s, w, c, d);
  }

  lemma NoLighter(s: Forest, w: seq<nat>, d: nat, c: nat)
    requires InOrder(s, w) && d < |w| && c < |w| && s.up[d] != -1 && s.up[c] > s.up[d]
    ensures w[d] <= w[c]
  {
    assert Outlives(s, c, d);
  }

  // ---------- Nodes above deep leaves ----------

  ghost predicate Below(s: Forest, z: nat, i: nat)
    requires Rising(s.up) && |s.flag| == |s.up| && z < |s.up|
  {
    i < |s.up| && Root(s.up, i) == Root(s.up, z) && PathWord(s.up, s.flag, z) <= PathWord(s.up, s.flag, i)
  }

  // All symbols below node z lie at depth D or deeper.
  ghost predicate AllDeep(s: Forest, z: nat, D: nat)
    requires Rising(s.up) && |s.flag| == |s.up| && z < |s.up|
  {
    forall i: nat {:trigger Below(s, z, i)} ::
      i < SYMBOLS && Below(s, z, i) && s.up[i] != -1 ==> Depth(s.up, i) >= D
  }

  lemma BelowChild(s: Forest, z: nat, c: nat, i: nat)
    requires Rising(s.up) && |s.flag| == |s.up| && z < |s.up| && c < |s.up| && s.up[c] == z && Below(s, c, i)
    ensures Below(s, z, i)
  {
    var wz, wi := PathWord(s.up, s.flag, z), PathWord(s.up, s.flag, i);
    assert PathWord(s.up, s.flag, c) == wz + [s.flag[c] == 1];
    assert wz == wi[..|wz|];
  }

  lemma DeepChild(s: Forest, z: nat, c: nat, D: nat)
    requires Rising(s.up) && |s.flag| == |s.up| && z < |s.up| && c < |s.up| && s.up[c] == z && AllDeep(s, z, D)
    ensures AllDeep(s, c, D) && Depth(s.up, c) == Depth(s.up, z) + 1
  {
    forall i: nat | i < SYMBOLS && Below(s, c, i) && s.up[i] != -1 ensures Depth(s.up, i) >= D {
      BelowChild(s, z, c, i);
    }
  }

  // A node weighs as much as the leaves a full tree down to their depth would have.
  lemma {:induction false} DeepIsHeavy(s: Forest, w: seq<nat>, z: nat, D: nat)
    requires InOrder(s, w) && |s.flag| == |s.up| && z < |w| && s.up[z] != -1
    requires AllDeep(s, z, D) && Depth(s.up, z) <= D
    ensures w[z] >= Pow2(D - Depth(s.up, z))
    decreases z
  {
    assert HasSibling(s, w, z);
    assert Below(s, z, z);
    if Depth(s.up, z) < D {
      var c, d := Children(s, w, |s.up|, z);
      DeepChild(s, z, c, D);
      DeepChild(s, z, d, D);
      DeepIsHeavy(s, w, c, D);
      DeepIsHeavy(s, w, d, D);
    }
  }

  // ---------- Two trees ----------

  // The Padovan numbers times m: 1, 1, 1, 2, 2, 3, 4, 5, 7, 9, ...
  function Padovan(m: nat, n: nat): nat
    decreases n, m
  {
    if n < 3 then m else Padovan(m, n - 2) + Padovan(m, n - 3)
  }

  lemma PadovanStart(m: nat)
    ensures Padovan(m, 4) == 2 * m && Padovan(m, 5) == 3 * m && Padovan(m, 6) == 4 * m
  {
    assert Padovan(m, 3) == 2 * m;
  }

  lemma {:induction false} PadovanRises(m: nat, n: nat)
    ensures Padovan(m, n) <= Padovan(m, n + 1)
    decreases n
  {
    if n >= 3 {
      PadovanRises(m, n - 2);
      PadovanRises(m, n - 3);
    }
  }

  lemma {:induction false} PadovanDoubled(m: nat, n: nat)
    ensures Padovan(2 * m, n) == 2 * Padovan(m, n)
    decreases n
  {
    if n >= 3 {
      PadovanDoubled(m, n - 2);
      PadovanDoubled(m, n - 3);
    }
  }

  lemma Padovan41()
    ensures Padovan(1, 41) == 73396
  {
    PadovanStart(1);
    assert Padovan(1, 7) == 5 && Padovan(1, 8) == 7 && Padovan(1, 9) == 9;
    assert Padovan(1, 10) == 12 && Padovan(1, 11) == 16 && Padovan(1, 12) == 21;
    assert Padovan(1, 13) == 28 && Padovan(1, 14) == 37 && Padovan(1, 15) == 49;
    assert Padovan(1, 16) == 65 && Padovan(1, 17) == 86 && Padovan(1, 18) == 114;
    assert Padovan(1, 19) == 151 && Padovan(1, 20) == 200 && Padovan(1, 21) == 265;
    assert Padovan(1, 22) == 351 && Padovan(1, 23) == 465 && Padovan(1, 24) == 616;
    assert Padovan(1, 25) == 816 && Padovan(1, 26) == 1081 && Padovan(1, 27) == 1432;
    assert Padovan(1, 28) == 1897 && Padovan(1, 29) == 2513 && Padovan(1, 30) == 3329;
    assert Padovan(1, 31) == 4410 && Padovan(1, 32) == 5842 && Padovan(1, 33) == 7739;
    assert Padovan(1, 34) == 10252 && Padovan(1, 35) == 13581 && Padovan(1, 36) == 17991;
    assert Padovan(1, 37) == 23833 && Padovan(1, 38) == 31572 && Padovan(1, 39) == 41824;
  }

  // The higher up the node is whose leaves lie at depth 19, the heavier the two trees.
  lemma {:induction false} HigherIsHeavier(d: nat)
    requires d <= 18
    ensures Padovan(Pow2(18 - d), 2 * d + 5) >= 73396
    decreases 18 - d
  {
    if d == 18 {
      assert Pow2(0) == 1;
      Padovan41();
    } else {
      var m := Pow2(18 - (d + 1));
      HigherIsHeavier(d + 1);
      PadovanDoubled(m, 2 * d + 5);
      PadovanRises(m, 2 * d + 4);
    }
  }

  // Nodes c and e of different trees, equally deep, c made first. Their ancestors are made in turn,
  // and each is heavier than the two ancestors made two and three places before it together.
  lemma {:induction false} Climb(s: Forest, w: seq<nat>, c: nat, e: nat, last: nat, m: nat, n: nat)
    requires InOrder(s, w) && SYMBOLS <= c < e < |w| && last < |w| && s.up[last] == e
    requires Depth(s.up, c) == Depth(s.up, e) && Root(s.up, c) != Root(s.up, e)
    requires w[c] >= Padovan(m, n) && w[e] >= Padovan(m, n + 1) && w[c] + w[last] >= Padovan(m, n + 2)
    ensures w[Root(s.up, c)] + w[Root(s.up, e)] >= Padovan(m, n + 3 + 2 * Depth(s.up, c))
    decreases Depth(s.up, c)
  {
    if s.up[c] != -1 {
      var c', e' := s.up[c], s.up[e];
      ClimbOrder(s, c, e);
      ClimbStep(s, w, c, e, last, m, n);
      Climb(s, w, c', e', e, m, n + 2);
    }
  }

  lemma ClimbOrder(s: Forest, c: nat, e: nat)
    requires Rising(s.up) && InTurn(s) && SYMBOLS <= c < e < |s.up| && s.up[c] != -1
    requires Depth(s.up, c) == Depth(s.up, e) && Root(s.up, c) != Root(s.up, e)
    ensures e < s.up[c] < s.up[e]
  {
    assert Turn(s, c, e);
    DeeperIsEarlier(s, e, s.up[c]);
  }

  lemma ClimbStep(s: Forest, w: seq<nat>, c: nat, e: nat, last: nat, m: nat, n: nat)
    requires InOrder(s, w) && c < |w| && e < |w| && last < |w| && s.up[last] == e && e < s.up[c] < s.up[e]
    requires w[c] >= Padovan(m, n) && w[e] >= Padovan(m, n + 1) && w[c] + w[last] >= Padovan(m, n + 2)
    ensures w[s.up[c]] >= Padovan(m, n + 2) && w[s.up[e]] >= Padovan(m, n + 3)
    ensures w[s.up[c]] + w[e] >= Padovan(m, n + 4)
  {
    var c' := SiblingOf(s, w, c);
    var e' := SiblingOf(s, w, e);
    NoLighter(s, w, last, c');
    NoLighter(s, w, c, e');
  }

  // A node y with children of weight m or more, and a symbol i equally deep in another tree.
  lemma TwoTrees(s: Forest, w: seq<nat>, y: nat, p: nat, i: nat, m: nat)
    requires InOrder(s, w) && SYMBOLS <= y < |w| && i < |w| && HeavyNode(s, w, y, p, m)
    requires s.up[y] != -1 && s.up[i] >= SYMBOLS
    requires Depth(s.up, y) == Depth(s.up, i) && Root(s.up, y) != Root(s.up, i)
    ensures w[Root(s.up, y)] + w[Root(s.up, i)] >= Padovan(m, 2 * Depth(s.up, y) + 5)
  {
    var a, b := s.up[y], s.up[i];
    var y' := SiblingOf(s, w, y);
    var i' := SiblingOf(s, w, i);
    DeeperIsEarlier(s, y, b);
    NoLighter(s, w, p, i);
    NoLighter(s, w, p, y');
    NoLighter(s, w, p, i');
    PadovanStart(m);
    if a < b {
      NoLighter(s, w, y, i');
      Climb(s, w, a, b, i, m, 4);
    } else {
      NoLighter(s, w, i, y');
      Climb(s, w, b, a, y, m, 4);
    }
  }

  // y has a child p, and both children weigh at least m.
  predicate HeavyNode(s: Forest, w: seq<nat>, y: nat, p: nat, m: nat)
    requires |w| == |s.up|
  {
    p < |w| && s.up[p] == y < |w| && w[p] >= m && w[y] >= w[p] + m
  }
}
