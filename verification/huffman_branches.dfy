// Which nodes are merged and which branch each gets, in terms of the finished links and of what the
// symbols below a node weigh.
module HuffmanBranches {
  import opened Sums
  import opened CodeLengths
  import opened Forests
  import opened HuffmanCode
  import opened HuffmanOrder

  // ---------- Weights by the links ----------

  // Node z is i or lies above it.
  ghost predicate ClimbsTo(up: seq<int>, i: nat, z: nat)
    requires Rising(up) && i < |up|
    decreases |up| - i
  {
    i == z || (up[i] != -1 && ClimbsTo(up, up[i], z))
  }

  ghost function TermsBelow(freq: seq<nat>, up: seq<int>, z: nat): (t: seq<nat>)
    requires Rising(up) && |up| == |freq| == NODES
    ensures |t| == NODES
  {
    seq(NODES, i requires 0 <= i < NODES => if i < SYMBOLS && ClimbsTo(up, i, z) then freq[i] else 0)
  }

  // What the symbols at node z and below it weigh together.
  ghost function WeightBelow(freq: seq<nat>, up: seq<int>, z: nat): nat
    requires Rising(up) && |up| == |freq| == NODES
  {
    Sum(TermsBelow(freq, up, z))
  }

  lemma {:induction false} ClimbsUp(up: seq<int>, i: nat, z: nat)
    requires Rising(up) && i < |up| && ClimbsTo(up, i, z)
    ensures i <= z < |up|
    decreases |up| - i
  {
    if i != z { ClimbsUp(up, up[i], z); }
  }

  lemma {:induction false} ClimbsOn(up: seq<int>, i: nat, c: nat, z: nat)
    requires Rising(up) && i < |up| && c < |up| && ClimbsTo(up, i, c) && ClimbsTo(up, c, z)
    ensures ClimbsTo(up, i, z)
    decreases |up| - i
  {
    if i != c { ClimbsOn(up, up[i], c, z); }
  }

  // The last node on the way up to z.
  lemma {:induction false} LastBelow(up: seq<int>, i: nat, z: nat) returns (k: nat)
    requires Rising(up) && i < |up| && ClimbsTo(up, i, z) && i != z
    ensures k < |up| && ClimbsTo(up, i, k) && up[k] == z
    decreases |up| - i
  {
    if up[i] == z { k := i; } else { k := LastBelow(up, up[i], z); }
  }

  // Of two nodes above i one lies above the other.
  lemma {:induction false} OneAboveOther(up: seq<int>, i: nat, c: nat, d: nat)
    requires Rising(up) && i < |up| && ClimbsTo(up, i, c) && ClimbsTo(up, i, d)
    ensures c < |up| && d < |up| && (ClimbsTo(up, c, d) || ClimbsTo(up, d, c))
    decreases |up| - i
  {
    ClimbsUp(up, i, c);
    ClimbsUp(up, i, d);
    if i != c && i != d { OneAboveOther(up, up[i], c, d); }
  }

  lemma OnlyTwo(s: Forest, j: nat, c: nat, d: nat, k: nat)
    requires Shape(s, j) && c < NODES && d < NODES && k < NODES && c != d
    requires s.up[c] == s.up[d] == s.up[k] != -1
    ensures k == c || k == d
  {
  }

  // What lies below z lies below exactly one of its children.
  lemma BelowOne(s: Forest, j: nat, c: nat, d: nat, z: nat, i: nat)
    requires Shape(s, j) && c < NODES && d < NODES && c != d && s.up[c] == s.up[d] == z && i < NODES && i != z
    ensures ClimbsTo(s.up, i, z) <==> ClimbsTo(s.up, i, c) || ClimbsTo(s.up, i, d)
    ensures !(ClimbsTo(s.up, i, c) && ClimbsTo(s.up, i, d))
  {
    assert ClimbsTo(s.up, z, z) && ClimbsTo(s.up, c, z) && ClimbsTo(s.up, d, z);
    if ClimbsTo(s.up, i, z) {
      var k := LastBelow(s.up, i, z);
      OnlyTwo(s, j, c, d, k);
    }
    if ClimbsTo(s.up, i, c) {
      ClimbsOn(s.up, i, c, z);
      Apart(s.up, i, c, d, z);
    } else if ClimbsTo(s.up, i, d) {
      ClimbsOn(s.up, i, d, z);
    }
  }

  lemma Apart(up: seq<int>, i: nat, c: nat, d: nat, z: nat)
    requires Rising(up) && i < |up| && c < |up| && d < |up| && c != d && up[c] == up[d] == z
    requires ClimbsTo(up, i, c)
    ensures !ClimbsTo(up, i, d)
  {
    if ClimbsTo(up, i, d) {
      OneAboveOther(up, i, c, d);
      if ClimbsTo(up, c, d) { ClimbsUp(up, z, d); } else { ClimbsUp(up, z, c); }
    }
  }

  // ---------- The loop invariant ----------

  // Whatever was merged was lighter than all that stayed, or equally heavy and made earlier.
  ghost predicate LightestFirst(s: Forest, w: seq<nat>)
    requires |w| == |s.up| == |s.freq|
  {
    forall d: nat, c: nat {:trigger Outlives(s, c, d)} ::
      d < |w| && c < |w| && s.up[d] != -1 && Outlives(s, c, d) ==> Before(w, d, c)
  }

  // The lighter child is the zero branch.
  ghost predicate LighterIsZero(s: Forest, w: seq<nat>)
    requires |w| == |s.up| == |s.flag|
  {
    forall d: nat, c: nat {:trigger Siblings(s, w, d, c)} ::
      Siblings(s, w, d, c) && Before(w, d, c) ==> s.flag[d] == 0 && s.flag[c] == 1
  }

  ghost predicate Branched(s: Forest, j: nat, w: seq<nat>, freq: seq<nat>) {
    && Ordered(s, j, w) && |freq| == NODES && LightestFirst(s, w) && LighterIsZero(s, w)
    && forall i :: 0 <= i < SYMBOLS ==> w[i] == freq[i] && (s.up[i] == -1 ==> s.freq[i] == freq[i])
  }

  lemma StepLightest(s: Forest, w: seq<nat>, t: Forest, v: seq<nat>, j: nat, a: nat, b: nat)
    requires Step(s, w, t, v, j, a, b) && LightestFirst(s, w) && LiveWeights(s, w) && TwoLeast(s.freq, j, a, b)
    requires forall c :: 0 <= c < |w| ==> s.up[c] < j
    requires forall k :: j <= k < |w| ==> s.freq[k] == 0
    ensures LightestFirst(t, v)
  {
    forall d: nat, c: nat | d < |v| && c < |v| && t.up[d] != -1 && Outlives(t, c, d) ensures Before(v, d, c) {
      if d == a || d == b {
        assert t.up[c] == -1;
      } else if c == j {
        assert Outlives(s, a, d);
      } else {
        assert Outlives(s, c, d);
      }
    }
  }

  lemma StepZero(s: Forest, w: seq<nat>, t: Forest, v: seq<nat>, j: nat, a: nat, b: nat)
    requires Step(s, w, t, v, j, a, b) && LiveWeights(s, w) && TwoLeast(s.freq, j, a, b)
    requires |s.flag| == |w| && LighterIsZero(s, w) && t.flag == s.flag[a := 0][b := 1]
    requires forall c :: 0 <= c < |w| ==> s.up[c] < j
    ensures LighterIsZero(t, v)
  {
    forall d: nat, c: nat | Siblings(t, v, d, c) && Before(v, d, c) ensures t.flag[d] == 0 && t.flag[c] == 1 {
      if t.up[d] != j {
        assert Siblings(s, w, d, c);
      }
    }
  }

  lemma MergeKeepsBranched(s: Forest, j: nat, a: nat, b: nat, w: seq<nat>, freq: seq<nat>)
    requires Branched(s, j, w, freq) && j < NODES && TwoLeast(s.freq, j, a, b)
    ensures Branched(MergeAt(s, j, a, b), j + 1, w[j := w[a] + w[b]], freq)
  {
    var t, v := MergeAt(s, j, a, b), w[j := w[a] + w[b]];
    MergeKeepsOrdered(s, j, a, b, w);
    assert Step(s, w, t, v, j, a, b);
    StepLightest(s, w, t, v, j, a, b);
    StepZero(s, w, t, v, j, a, b);
  }

  ghost predicate SomeBranched(s: Forest, j: nat, freq: seq<nat>) {
    exists w: seq<nat> :: Branched(s, j, w, freq)
  }

  lemma FinalBranched(freq: seq<nat>) returns (n: nat, w: seq<nat>)
    requires Table(freq)
    ensures Branched(Final(freq), n, w, freq)
  {
    forall s: Forest, j: nat, a: nat, b: nat |
      |s.freq| == NODES && j < NODES && SomeBranched(s, j, freq) && TwoLeast(s.freq, j, a, b)
      ensures SomeBranched(MergeAt(s, j, a, b), j + 1, freq)
    {
      var u: seq<nat> :| Branched(s, j, u, freq);
      MergeKeepsBranched(s, j, a, b, u, freq);
    }
    InitialOrdered(freq);
    assert Branched(Initial(freq), SYMBOLS, freq, freq);
    n := BuildInduction((s: Forest, j: nat) => SomeBranched(s, j, freq), Initial(freq), SYMBOLS);
    w :| Branched(Final(freq), n, w, freq);
  }

  // ---------- What it says of the finished links ----------

  lemma SymbolWeight(s: Forest, j: nat, freq: seq<nat>, z: nat)
    requires Shape(s, j) && |freq| == NODES && z < SYMBOLS
    ensures WeightBelow(freq, s.up, z) == freq[z]
  {
    var t := TermsBelow(freq, s.up, z);
    forall i: nat | i < NODES && i != z ensures t[i] == 0 {
      if i < SYMBOLS && s.up[i] != -1 && ClimbsTo(s.up, s.up[i], z) { ClimbsUp(s.up, s.up[i], z); }
    }
    SumUpdate(t, z, 0);
    SumZero(t[z := 0]);
  }

  lemma {:induction false} WeightsAre(s: Forest, j: nat, w: seq<nat>, freq: seq<nat>, z: nat)
    requires Branched(s, j, w, freq) && z < j
    ensures w[z] == WeightBelow(freq, s.up, z)
    decreases z
  {
    if z < SYMBOLS {
      SymbolWeight(s, j, freq, z);
    } else {
      var c, d := Children(s, w, j, z);
      WeightsAre(s, j, w, freq, c);
      WeightsAre(s, j, w, freq, d);
      forall i: nat | i < NODES
        ensures TermsBelow(freq, s.up, z)[i] == TermsBelow(freq, s.up, c)[i] + TermsBelow(freq, s.up, d)[i]
      {
        if i < SYMBOLS { BelowOne(s, j, c, d, z, i); }
      }
      SumAdd(TermsBelow(freq, s.up, z), TermsBelow(freq, s.up, c), TermsBelow(freq, s.up, d));
    }
  }

  // The parent links the loop leaves.
  ghost function Links(freq: seq<nat>): (up: seq<int>)
    requires Table(freq)
    ensures Rising(up) && |up| == NODES
  {
    FinalRising(freq);
    Final(freq).up
  }

  ghost function NodeWeight(freq: seq<nat>, z: nat): nat
    requires Table(freq)
  {
    WeightBelow(freq, Links(freq), z)
  }

  // Node x is lighter than y, or as heavy and made earlier.
  ghost predicate Lighter(freq: seq<nat>, x: nat, y: nat)
    requires Table(freq)
  {
    NodeWeight(freq, x) < NodeWeight(freq, y) || (NodeWeight(freq, x) == NodeWeight(freq, y) && x < y)
  }

  // Of the two children of a node the lighter one, and of two equally heavy ones the earlier, is
  // reached by a 0, the other by a 1.
  lemma BranchesByWeight(freq: seq<nat>, x: nat, y: nat, p: nat)
    requires Table(freq) && x < NODES && y < NODES && x != y
    requires Links(freq)[x] == Links(freq)[y] == p && Lighter(freq, x, y)
    ensures p < NODES && Code(freq)[x] == Code(freq)[p] + [false] && Code(freq)[y] == Code(freq)[p] + [true]
  {
    var s := Final(freq);
    var n, w := FinalBranched(freq);
    ChildrenAre(s, n, w, x, y);
    WeightsAre(s, n, w, freq, x);
    WeightsAre(s, n, w, freq, y);
    assert Before(w, x, y);
  }

  lemma ChildrenAre(s: Forest, j: nat, w: seq<nat>, x: nat, y: nat)
    requires Ordered(s, j, w) && x < NODES && y < NODES && x != y && s.up[x] == s.up[y] != -1
    ensures Siblings(s, w, x, y) && x < j && y < j
  {
    var c, d := Children(s, w, j, s.up[x]);
    OnlyTwo(s, j, c, d, x);
    OnlyTwo(s, j, c, d, y);
  }

  // Nodes are merged lightest first: what is merged is lighter than anything that was there and is
  // merged later or stays a root.
  lemma MergedInOrder(freq: seq<nat>, d: nat, c: nat)
    requires Table(freq) && d < NODES && c < NODES && Links(freq)[d] != -1 && NodeWeight(freq, c) > 0
    requires Links(freq)[c] == -1 || Links(freq)[c] > Links(freq)[d]
    ensures Lighter(freq, d, c)
  {
    var s := Final(freq);
    var n, w := FinalBranched(freq);
    NotEmpty(s, n, freq, c);
    WeightsAre(s, n, w, freq, c);
    WeightsAre(s, n, w, freq, d);
    assert Outlives(s, c, d);
  }

  // A node with something below it was made.
  lemma NotEmpty(s: Forest, j: nat, freq: seq<nat>, c: nat)
    requires Shape(s, j) && |freq| == NODES && c < NODES && WeightBelow(freq, s.up, c) > 0
    ensures c < j
  {
    if c >= j {
      var t := TermsBelow(freq, s.up, c);
      forall i: nat | i < NODES ensures t[i] == 0 {
        if i < SYMBOLS && ClimbsTo(s.up, i, c) {
          var k := LastBelow(s.up, i, c);
        }
      }
      SumZero(t);
    }
  }
}
