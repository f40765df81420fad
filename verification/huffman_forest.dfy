// The merge loop of read_huffman_tables as a transformation of a forest kept in three
// arrays: `freq` holds the weight of every live root (0 for all other nodes), `up` the
// parent link (-1 for none) and `flag` the branch taken from the parent.
module Forests {
  import opened Sums
  import opened CodeLengths

  const SYMBOLS: nat := 257   // 256 byte values and the end symbol
  const NODES: nat := 512     // symbols are 0..256, merge nodes 257..511

  datatype Forest = Forest(freq: seq<nat>, up: seq<int>, flag: seq<nat>)

  // The scan keeps the earlier of two equally heavy nodes.
  predicate Before(freq: seq<nat>, i: nat, k: nat)
    requires i < |freq| && k < |freq|
  {
    freq[i] < freq[k] || (freq[i] == freq[k] && i < k)
  }

  // a and b are the two lightest live nodes below j, a first.
  ghost predicate TwoLeast(freq: seq<nat>, j: nat, a: nat, b: nat)
    requires j <= |freq|
  {
    && a < j && b < j && freq[a] > 0 && freq[b] > 0 && Before(freq, a, b)
    && forall k: nat :: k < j && k != a && k != b && freq[k] > 0 ==> Before(freq, b, k)
  }

  // The parent links lead strictly upwards, so every walk along them ends.
  predicate Rising(up: seq<int>) {
    forall i :: 0 <= i < |up| ==> up[i] == -1 || i < up[i] < |up|
  }

  ghost function Root(up: seq<int>, i: nat): (r: nat)
    requires Rising(up) && i < |up|
    ensures i <= r < |up| && up[r] == -1
    decreases |up| - i
  {
    if up[i] == -1 then i else Root(up, up[i])
  }

  // The branches from the root down to node i.
  ghost function PathWord(up: seq<int>, flag: seq<nat>, i: nat): (w: Word)
    requires Rising(up) && |flag| == |up| && i < |up|
    ensures i + |w| <= Root(up, i)
    decreases |up| - i
  {
    if up[i] == -1 then [] else PathWord(up, flag, up[i]) + [flag[i] == 1]
  }

  // Nodes below j are made, those from j on are untouched; a live node is a root; the two
  // children of a node carry different flags.
  ghost predicate Shape(s: Forest, j: nat) {
    && |s.freq| == |s.up| == |s.flag| == NODES && SYMBOLS <= j <= NODES && Rising(s.up)
    && (forall i :: 0 <= i < NODES && s.up[i] != -1 ==> SYMBOLS <= s.up[i] < j && s.freq[i] == 0 && s.flag[i] <= 1)
    && (forall i :: j <= i < NODES ==> s.freq[i] == 0 && s.up[i] == -1)
    && (forall i, k :: 0 <= i < k < NODES && s.up[i] != -1 && s.up[i] == s.up[k] ==> s.flag[i] != s.flag[k])
  }

  ghost function MergeAt(s: Forest, j: nat, a: nat, b: nat): (t: Forest)
    requires |s.freq| == |s.up| == |s.flag| && a < |s.freq| && b < |s.freq| && j < |s.freq|
  {
    Forest(Merged(s.freq, a, b, j), s.up[a := j][b := j], s.flag[a := 0][b := 1])
  }

  // The pair the scan of nodes 0..j-1 finds, if two nodes are live.
  datatype Choice = NoPair | Pair(a: nat, b: nat)

  ghost function Pick(freq: seq<nat>, j: nat): (c: Choice)
    requires j <= |freq|
    ensures c.Pair? ==> TwoLeast(freq, j, c.a, c.b)
    ensures c.NoPair? ==> forall a: nat, b: nat :: !TwoLeast(freq, j, a, b)
  {
    if a: nat, b: nat :| TwoLeast(freq, j, a, b) then Pair(a, b) else NoPair
  }

  // What the whole loop leaves behind when it is about to make node j.
  ghost function Build(s: Forest, j: nat): Forest
    requires |s.freq| == |s.up| == |s.flag| == NODES && j <= NODES
    decreases NODES - j, s
  {
    if j == NODES then s else
      match Pick(s.freq, j)
      case NoPair => s
      case Pair(a, b) => Build(MergeAt(s, j, a, b), j + 1)
  }

  // The weight the loop adds up over its merges.
  ghost function MergedWeight(s: Forest, j: nat): nat
    requires |s.freq| == |s.up| == |s.flag| == NODES && j <= NODES
    decreases NODES - j, s
  {
    if j == NODES then 0 else
      match Pick(s.freq, j)
      case NoPair => 0
      case Pair(a, b) => s.freq[a] + s.freq[b] + MergedWeight(MergeAt(s, j, a, b), j + 1)
  }

  ghost function Initial(freq: seq<nat>): Forest {
    Forest(freq, seq(NODES, i => -1), seq(NODES, i => 0))
  }

  // A table as read from the stream: byte values have frequencies below 256, the end
  // symbol has frequency 1, nothing else is used.
  ghost predicate Table(freq: seq<nat>) {
    && |freq| == NODES && freq[256] == 1
    && (forall i :: 0 <= i < 256 ==> freq[i] <= 255)
    && (forall i :: SYMBOLS <= i < NODES ==> freq[i] == 0)
  }

  // ---------- The two lightest nodes ----------

  lemma TwoLeastUnique(freq: seq<nat>, j: nat, a: nat, b: nat, c: nat, d: nat)
    requires j <= |freq| && TwoLeast(freq, j, a, b) && TwoLeast(freq, j, c, d)
    ensures a == c && b == d
  {
  }

  lemma {:induction false} TwoLeastExist(freq: seq<nat>, j: nat, x: nat, y: nat) returns (a: nat, b: nat)
    requires x < y < j <= |freq| && freq[x] > 0 && freq[y] > 0
    ensures TwoLeast(freq, j, a, b)
  {
    var n := j - 1;
    if y == n && !exists z: nat :: z < n && z != x && freq[z] > 0 {
      a, b := if Before(freq, x, y) then x else y, if Before(freq, x, y) then y else x;
    } else {
      if y == n {
        var z: nat :| z < n && z != x && freq[z] > 0;
        a, b := TwoLeastExist(freq, n, if x < z then x else z, if x < z then z else x);
      } else {
        a, b := TwoLeastExist(freq, n, x, y);
      }
      if freq[n] > 0 && Before(freq, n, b) {
        if Before(freq, n, a) { b := a; a := n; } else { b := n; }
      }
    }
  }

  // ---------- What one merge does to roots and words ----------

  lemma {:induction false} MergePaths(up: seq<int>, flag: seq<nat>, a: nat, b: nat, j: nat, i: nat)
    requires Rising(up) && |flag| == |up| && a < j < |up| && b < j && a != b && i < |up|
    requires up[a] == up[b] == up[j] == -1
    ensures Rising(up[a := j][b := j])
    ensures Root(up[a := j][b := j], i) == if Root(up, i) == a || Root(up, i) == b then j else Root(up, i)
    ensures PathWord(up[a := j][b := j], flag[a := 0][b := 1], i) ==
      (if Root(up, i) == a then [false] else if Root(up, i) == b then [true] else []) + PathWord(up, flag, i)
    decreases |up| - i
  {
    var up', flag' := up[a := j][b := j], flag[a := 0][b := 1];
    if up[i] != -1 {
      MergePaths(up, flag, a, b, j, up[i]);
      assert up'[i] == up[i] && flag'[i] == flag[i];
    } else if i == a || i == b {
      assert up'[j] == -1;
      assert PathWord(up', flag', j) == [];
    }
  }

  lemma MergeShape(s: Forest, j: nat, a: nat, b: nat)
    requires Shape(s, j) && j < NODES && TwoLeast(s.freq, j, a, b)
    ensures Shape(MergeAt(s, j, a, b), j + 1)
  {
  }

  // ---------- Sums over the symbols below one root ----------

  // The root and the depth of every node.
  ghost function Roots(up: seq<int>): (r: seq<nat>)
    requires Rising(up)
    ensures |r| == |up|
  {
    seq(|up|, i requires 0 <= i < |up| => Root(up, i))
  }

  ghost function Depths(up: seq<int>, flag: seq<nat>): (d: seq<nat>)
    requires Rising(up) && |flag| == |up|
    ensures |d| == |up| && forall i :: 0 <= i < |up| ==> d[i] <= |up|
  {
    seq(|up|, i requires 0 <= i < |up| => |PathWord(up, flag, i)|)
  }

  ghost function WeightUnder(f0: seq<nat>, roots: seq<nat>, r: nat): (t: seq<nat>)
    requires |f0| == |roots|
    ensures |t| == |f0|
  {
    seq(|f0|, i requires 0 <= i < |f0| => if roots[i] == r then f0[i] else 0)
  }

  ghost function SpaceUnder(f0: seq<nat>, roots: seq<nat>, depths: seq<nat>, r: nat, L: nat): (t: seq<nat>)
    requires |f0| == |roots| == |depths| && forall i :: 0 <= i < |f0| ==> depths[i] <= L
    ensures |t| == |f0|
  {
    seq(|f0|, i requires 0 <= i < |f0| => if f0[i] > 0 && roots[i] == r then Pow2(L - depths[i]) else 0)
  }

  // Every live root carries the weight of the symbols below it, and their words fill
  // exactly one full code space; every used symbol hangs below some live root.
  ghost predicate Filled(f0: seq<nat>, freq: seq<nat>, roots: seq<nat>, depths: seq<nat>, L: nat) {
    && |f0| == |freq| == |roots| == |depths|
    && (forall i :: 0 <= i < |f0| ==> roots[i] < |f0| && depths[i] <= L)
    && (forall r :: 0 <= r < |f0| && freq[r] > 0 ==> FilledAt(f0, freq, roots, depths, L, r))
    && (forall i :: 0 <= i < |f0| && f0[i] > 0 ==> freq[roots[i]] > 0)
  }

  ghost predicate FilledAt(f0: seq<nat>, freq: seq<nat>, roots: seq<nat>, depths: seq<nat>, L: nat, r: nat)
    requires |f0| == |freq| == |roots| == |depths| && r < |f0|
    requires forall i :: 0 <= i < |f0| ==> depths[i] <= L
  {
    Sum(WeightUnder(f0, roots, r)) == freq[r] && Sum(SpaceUnder(f0, roots, depths, r, L)) == Pow2(L)
  }

  // All symbols below a or b now hang below j, one level deeper.
  ghost predicate Joined(roots: seq<nat>, depths: seq<nat>, roots': seq<nat>, depths': seq<nat>, a: nat, b: nat,
                         j: nat) {
    && |roots| == |depths| == |roots'| == |depths'|
    && forall i :: 0 <= i < |roots| ==>
         if roots[i] == a || roots[i] == b then roots'[i] == j && depths'[i] == depths[i] + 1
         else roots'[i] == roots[i] && depths'[i] == depths[i]
  }

  lemma JoinWeight(f0: seq<nat>, roots: seq<nat>, depths: seq<nat>, roots': seq<nat>, depths': seq<nat>, a: nat, b: nat,
                   j: nat)
    requires |f0| == |roots| && Joined(roots, depths, roots', depths', a, b, j) && a != b
    requires forall i :: 0 <= i < |f0| && f0[i] > 0 ==> roots[i] != j
    ensures Sum(WeightUnder(f0, roots', j)) == Sum(WeightUnder(f0, roots, a)) + Sum(WeightUnder(f0, roots, b))
  {
    SumAdd(WeightUnder(f0, roots', j), WeightUnder(f0, roots, a), WeightUnder(f0, roots, b));
  }

  lemma JoinSpace(f0: seq<nat>, roots: seq<nat>, depths: seq<nat>, roots': seq<nat>, depths': seq<nat>, a: nat, b: nat,
                  j: nat, L: nat)
    requires |f0| == |roots| && Joined(roots, depths, roots', depths', a, b, j) && a != b
    requires forall i :: 0 <= i < |f0| ==> depths[i] <= L && depths'[i] <= L
    requires forall i :: 0 <= i < |f0| && f0[i] > 0 ==> roots[i] != j
    ensures 2 * Sum(SpaceUnder(f0, roots', depths', j, L))
         == Sum(SpaceUnder(f0, roots, depths, a, L)) + Sum(SpaceUnder(f0, roots, depths, b, L))
  {
    var ka, kb := SpaceUnder(f0, roots, depths, a, L), SpaceUnder(f0, roots, depths, b, L);
    var kj := SpaceUnder(f0, roots', depths', j, L);
    var both: seq<nat> := seq(|f0|, i requires 0 <= i < |f0| => ka[i] + kb[i]);
    SumAdd(both, ka, kb);
    var z := seq(|f0|, i => 0);
    forall i | 0 <= i < |f0| ensures both[i] == 2 * kj[i] + z[i] {}
    SumLinear(both, 2, kj, z);
    SumZero(z);
  }

  lemma JoinKeepsOthers(f0: seq<nat>, roots: seq<nat>, depths: seq<nat>, roots': seq<nat>, depths': seq<nat>,
                        a: nat, b: nat, j: nat, L: nat, r: nat)
    requires |f0| == |roots| && Joined(roots, depths, roots', depths', a, b, j) && r != a && r != b && r != j
    requires forall i :: 0 <= i < |f0| ==> depths[i] <= L && depths'[i] <= L
    ensures WeightUnder(f0, roots', r) == WeightUnder(f0, roots, r)
    ensures SpaceUnder(f0, roots', depths', r, L) == SpaceUnder(f0, roots, depths, r, L)
  {
  }

  lemma JoinFilled(f0: seq<nat>, freq: seq<nat>, roots: seq<nat>, depths: seq<nat>, roots': seq<nat>, depths': seq<nat>,
                   a: nat, b: nat, j: nat, L: nat)
    requires Filled(f0, freq, roots, depths, L) && Joined(roots, depths, roots', depths', a, b, j)
    requires a < |f0| && b < |f0| && j < |f0| && a != b && freq[a] > 0 && freq[b] > 0 && freq[j] == 0
    requires forall i :: 0 <= i < |f0| ==> roots'[i] < |f0| && depths'[i] <= L
    ensures Filled(f0, Merged(freq, a, b, j), roots', depths', L)
  {
    var freq' := Merged(freq, a, b, j);
    forall r: nat | r < |f0| && freq'[r] > 0 ensures FilledAt(f0, freq', roots', depths', L, r) {
      if r == j {
        JoinFilledAt(f0, freq, roots, depths, roots', depths', a, b, j, L);
      } else {
        assert FilledAt(f0, freq, roots, depths, L, r);
        JoinKeepsOthers(f0, roots, depths, roots', depths', a, b, j, L, r);
      }
    }
  }

  lemma JoinFilledAt(f0: seq<nat>, freq: seq<nat>, roots: seq<nat>, depths: seq<nat>, roots': seq<nat>,
                     depths': seq<nat>, a: nat, b: nat, j: nat, L: nat)
    requires Filled(f0, freq, roots, depths, L) && Joined(roots, depths, roots', depths', a, b, j)
    requires a < |f0| && b < |f0| && j < |f0| && a != b && freq[a] > 0 && freq[b] > 0 && freq[j] == 0
    requires forall i :: 0 <= i < |f0| ==> roots'[i] < |f0| && depths'[i] <= L
    ensures FilledAt(f0, Merged(freq, a, b, j), roots', depths', L, j)
  {
    assert FilledAt(f0, freq, roots, depths, L, a) && FilledAt(f0, freq, roots, depths, L, b);
    JoinWeight(f0, roots, depths, roots', depths', a, b, j);
    JoinSpace(f0, roots, depths, roots', depths', a, b, j, L);
  }

  lemma MergeJoins(s: Forest, j: nat, a: nat, b: nat)
    requires Shape(s, j) && j < NODES && TwoLeast(s.freq, j, a, b)
    ensures var t := MergeAt(s, j, a, b);
      Rising(t.up) && Joined(Roots(s.up), Depths(s.up, s.flag), Roots(t.up), Depths(t.up, t.flag), a, b, j)
  {
    forall i: nat | i < NODES {
      MergePaths(s.up, s.flag, a, b, j, i);
    }
  }
}
