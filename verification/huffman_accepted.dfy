// Which frequency tables read_huffman_tables accepts in the end.
module HuffmanAccepted {
  import opened Sums
  import opened CodeLengths
  import opened Forests
  import opened HuffmanCode
  import opened HuffmanDepth
  import opened HuffmanOrder
  import opened VlcTables
  import opened VlcInit
  import opened HuffmanTables

  ghost predicate Used(freq: seq<nat>, i: nat) {
    i < SYMBOLS && i < |freq| && freq[i] > 0
  }

  // A used symbol that was never merged and so has the empty word.
  ghost predicate Bare(freq: seq<nat>, i: nat)
    requires Table(freq)
  {
    Used(freq, i) && Code(freq)[i] == []
  }

  ghost predicate SomeBare(freq: seq<nat>)
    requires Table(freq)
  {
    exists i: nat :: Bare(freq, i)
  }

  // The word of symbol k goes on where the nonempty word of symbol i ends.
  ghost predicate Extends(freq: seq<nat>, i: nat, k: nat)
    requires Table(freq)
  {
    Used(freq, i) && Used(freq, k) && 0 < |Code(freq)[i]| < |Code(freq)[k]| && Code(freq)[i] <= Code(freq)[k]
  }

  lemma OverlapsIff(freq: seq<nat>, i: nat, k: nat)
    requires Table(freq) && i < SYMBOLS && k < SYMBOLS
    ensures Overlaps(Lens(freq), Numbers(freq), i, k) <==> Extends(freq, i, k)
  {
    WordAgain(freq, i);
    WordAgain(freq, k);
    if freq[i] == 0 { UnusedHasNoWord(freq, i); }
    if freq[k] == 0 { UnusedHasNoWord(freq, k); }
  }

  // The checks on lengths and numbers are always passed.
  lemma WordsCanEnter(freq: seq<nat>)
    requires Table(freq)
    ensures AllCanEnter(Lens(freq), Numbers(freq))
  {
    forall i | 0 <= i < SYMBOLS && Lens(freq)[i] > 0 ensures CanEnter(Lens(freq)[i], Numbers(freq)[i]) {
      ValueFits(Code(freq)[i]);
      if freq[i] == 0 { UnusedHasNoWord(freq, i); } else { WordsAreShort(freq, i); }
    }
  }

  // A table is accepted exactly when every word that another one extends is overlooked.
  lemma AcceptedByOrder(freq: seq<nat>, order: seq<VlcCode> -> seq<VlcCode>)
    requires Table(freq) && Sorts(order)
    ensures InitVlc(order, Lens(freq), Numbers(freq)).Accepted? <==>
      forall i, k :: 0 <= i < SYMBOLS && 0 <= k < SYMBOLS && Extends(freq, i, k)
        ==> Overlooked(order, Lens(freq), Numbers(freq), i, k)
  {
    WordsCanEnter(freq);
    InitIff(order, Lens(freq), Numbers(freq));
    forall i: nat, k: nat | i < SYMBOLS && k < SYMBOLS
      ensures Overlaps(Lens(freq), Numbers(freq), i, k) <==> Extends(freq, i, k)
    {
      OverlapsIff(freq, i, k);
    }
  }

  // ---------- Tables in which no word extends another ----------

  lemma NoneExtends(freq: seq<nat>, i: nat, k: nat)
    requires Table(freq) && (LiveCount(freq) <= 256 || SomeBare(freq))
    ensures !Extends(freq, i, k)
  {
    if LiveCount(freq) <= 256 {
      PrefixFreeIff(freq);
    } else if Extends(freq, i, k) {
      UsedAtMost(freq);
      var b: nat :| Bare(freq, b);
      BesideBare(freq, b, i, k);
    }
  }

  lemma OneOfTwo(freq: seq<nat>, x: nat, y: nat, z: nat)
    requires LiveCount(freq) == 2 && x < y < |freq| && z < |freq| && freq[x] > 0 && freq[y] > 0 && freq[z] > 0
    ensures z == x || z == y
  {
    var rest := freq[x := 0];
    SumUpdate(LiveTerms(freq), x, 0);
    assert LiveTerms(rest) == LiveTerms(freq)[x := 0];
    if z != x { AtMostOne(rest, z, y); }
  }

  lemma FinalShape(freq: seq<nat>) returns (n: nat)
    requires Table(freq)
    ensures Shape(Final(freq), n)
  {
    n := FinalInv(freq, NODES);
  }

  // Every used symbol hangs below a root that is left.
  lemma UsedRoot(freq: seq<nat>, i: nat)
    requires Table(freq) && Used(freq, i)
    ensures |Final(freq).freq| == |Final(freq).up| == NODES && Rising(Final(freq).up)
    ensures Final(freq).freq[Root(Final(freq).up, i)] > 0
  {
    var n := FinalInv(freq, NODES);
    assert Roots(Final(freq).up)[i] == Root(Final(freq).up, i);
  }

  // The root above a symbol is the symbol itself, if it has no word, or a merge node.
  lemma RootOfSymbol(freq: seq<nat>, i: nat)
    requires Table(freq) && i < SYMBOLS
    ensures |Final(freq).up| == NODES && Rising(Final(freq).up)
    ensures if Code(freq)[i] == [] then Root(Final(freq).up, i) == i else Root(Final(freq).up, i) >= SYMBOLS
  {
    var n := FinalShape(freq);
  }

  // A symbol left over as a root stands beside one tree with all others.
  lemma BesideBare(freq: seq<nat>, b: nat, i: nat, k: nat)
    requires Table(freq) && LiveCount(freq) == 257 && Bare(freq, b) && Used(freq, i) && Used(freq, k)
    requires Code(freq)[i] != [] && Code(freq)[k] != [] && i != k
    ensures !(Code(freq)[i] <= Code(freq)[k])
  {
    RootOfSymbol(freq, b);
    RootOfSymbol(freq, i);
    RootOfSymbol(freq, k);
    UsedRoot(freq, b);
    UsedRoot(freq, i);
    UsedRoot(freq, k);
    KraftSum(freq, NODES);
    OneOfTwo(Final(freq).freq, b, Root(Final(freq).up, i), Root(Final(freq).up, k));
    OneTree(freq, i, k);
  }

  // In one tree no word of a symbol begins with that of another.
  lemma OneTree(freq: seq<nat>, i: nat, k: nat)
    requires Table(freq) && i < SYMBOLS && k < NODES && i != k
    requires |Final(freq).up| == NODES && Rising(Final(freq).up) && Root(Final(freq).up, i) == Root(Final(freq).up, k)
    ensures !(Code(freq)[i] <= Code(freq)[k])
  {
    var n := FinalShape(freq);
    if Code(freq)[i] <= Code(freq)[k] { PrefixIsAncestor(Final(freq), n, i, k); }
  }

  lemma AcceptedWhenFree(freq: seq<nat>, order: seq<VlcCode> -> seq<VlcCode>)
    requires Table(freq) && Sorts(order) && (LiveCount(freq) <= 256 || SomeBare(freq))
    ensures InitVlc(order, Lens(freq), Numbers(freq)).Accepted?
  {
    forall i: nat, k: nat ensures !Extends(freq, i, k) {
      NoneExtends(freq, i, k);
    }
    AcceptedByOrder(freq, order);
  }

  // ---------- Two trees ----------

  // The used symbols below a root.
  ghost function Under(freq: seq<nat>, r: nat): (s: set<nat>)
    requires Table(freq)
  {
    FinalRising(freq);
    set i: nat | i < SYMBOLS && Used(freq, i) && Root(Final(freq).up, i) == r
  }

  ghost function WordsUnder(freq: seq<nat>, s: set<nat>): set<Word>
    requires Table(freq) && forall i :: i in s ==> i < SYMBOLS
  {
    set i | i in s :: Code(freq)[i]
  }

  // A root that is left when the merging ends.
  ghost predicate LastRoot(freq: seq<nat>, y: nat)
    requires Table(freq)
  {
    y < NODES && |Final(freq).freq| == NODES && Final(freq).freq[y] > 0
  }

  // The symbols below y and one symbol more.
  ghost function Joining(freq: seq<nat>, y: nat, i: nat): (g: seq<nat>)
    requires Table(freq)
    ensures |g| == NODES
  {
    seq(NODES, m requires 0 <= m < NODES => if m in Under(freq, y) || m == i then freq[m] else 0)
  }

  lemma JoiningTerms(freq: seq<nat>, y: nat, i: nat, roots: seq<nat>, depths: seq<nat>)
    requires Table(freq) && Used(freq, i) && i !in Under(freq, y)
    requires Rising(Final(freq).up) && |Final(freq).up| == NODES && roots == Roots(Final(freq).up)
    requires |depths| == NODES && forall m :: 0 <= m < NODES ==> depths[m] <= NODES
    ensures Bounded(Joining(freq, y, i), depths, NODES)
    ensures SpaceUnder(freq, roots, depths, y, NODES)[i] == 0
    ensures KraftTerms(Joining(freq, y, i), depths, NODES)
      == SpaceUnder(freq, roots, depths, y, NODES)[i := Pow2(NODES - depths[i])]
  {
  }

  // Every root that is left has its code space filled by the words below it.
  lemma SpaceFilled(freq: seq<nat>, y: nat) returns (roots: seq<nat>, depths: seq<nat>)
    requires Table(freq) && LastRoot(freq, y)
    ensures Rising(Final(freq).up) && |Final(freq).up| == NODES && roots == Roots(Final(freq).up)
    ensures depths == Lengths(Code(freq)) && |depths| == NODES && forall m :: 0 <= m < NODES ==> depths[m] <= NODES
    ensures Sum(SpaceUnder(freq, roots, depths, y, NODES)) == Pow2(NODES)
    ensures Sum(WeightUnder(freq, roots, y)) == Final(freq).freq[y]
  {
    var n := FinalInv(freq, NODES);
    CodeLengthsAreDepths(freq);
    var t := Final(freq);
    roots, depths := Roots(t.up), Depths(t.up, t.flag);
    assert FilledAt(freq, t.freq, roots, depths, NODES, y);
  }

  lemma JoiningSum(freq: seq<nat>, y: nat, i: nat)
    requires Table(freq) && Used(freq, i) && i !in Under(freq, y) && LastRoot(freq, y)
    ensures Bounded(Joining(freq, y, i), Lengths(Code(freq)), NODES)
    ensures Sum(KraftTerms(Joining(freq, y, i), Lengths(Code(freq)), NODES)) > Pow2(NODES)
  {
    var roots, depths := SpaceFilled(freq, y);
    JoiningTerms(freq, y, i, roots, depths);
    SumUpdate(SpaceUnder(freq, roots, depths, y, NODES), i, Pow2(NODES - depths[i]));
  }

  // With a word that meets none below y they are a prefix code.
  lemma JoiningFree(freq: seq<nat>, y: nat, i: nat)
    requires Table(freq) && i < SYMBOLS
    requires forall k: nat :: k in Under(freq, y) ==> !Meets(freq, i, k)
    ensures PrefixFree(Joining(freq, y, i), Code(freq))
  {
    var g := Joining(freq, y, i);
    FinalRising(freq);
    forall a, b | 0 <= a < NODES && 0 <= b < NODES && a != b && g[a] > 0 && g[b] > 0
      ensures !(Code(freq)[a] <= Code(freq)[b])
    {
      if a == i {
        assert !Meets(freq, i, b);
      } else if b == i {
        assert !Meets(freq, i, a);
      } else {
        OneTree(freq, a, b);
      }
    }
  }

  ghost predicate Meets(freq: seq<nat>, i: nat, k: nat)
    requires Table(freq) && i < NODES
  {
    k < NODES && (Code(freq)[i] <= Code(freq)[k] || Code(freq)[k] <= Code(freq)[i])
  }

  // The words below one root fill the code space, so every other word meets one of them.
  lemma MeetsOne(freq: seq<nat>, y: nat, i: nat) returns (k: nat)
    requires Table(freq) && Used(freq, i) && i !in Under(freq, y) && LastRoot(freq, y)
    ensures k in Under(freq, y) && Meets(freq, i, k)
  {
    if forall k: nat :: k in Under(freq, y) ==> !Meets(freq, i, k) {
      JoiningFree(freq, y, i);
      JoiningSum(freq, y, i);
      KraftInequality(Joining(freq, y, i), Code(freq), NODES);
    }
    k :| k in Under(freq, y) && Meets(freq, i, k);
  }

  ghost predicate NoExtension(freq: seq<nat>)
    requires Table(freq)
  {
    forall i: nat, k: nat :: !Extends(freq, i, k)
  }

  lemma SameWords(freq: seq<nat>, x: nat, y: nat)
    requires Table(freq) && x != y && LastRoot(freq, y)
    requires NoExtension(freq) && !SomeBare(freq)
    ensures WordsUnder(freq, Under(freq, x)) <= WordsUnder(freq, Under(freq, y))
  {
    var code := Code(freq);
    forall i | i in Under(freq, x) ensures code[i] in WordsUnder(freq, Under(freq, y)) {
      var k := MeetsOne(freq, y, i);
      assert !Bare(freq, i) && !Bare(freq, k) && !Extends(freq, i, k) && !Extends(freq, k, i);
      assert code[i] == code[k];
    }
  }

  lemma {:induction false} AsManyWords(freq: seq<nat>, s: set<nat>)
    requires Table(freq) && (forall i :: i in s ==> i < SYMBOLS)
    requires forall i, k :: i in s && k in s && Code(freq)[i] == Code(freq)[k] ==> i == k
    ensures |WordsUnder(freq, s)| == |s|
    decreases |s|
  {
    if i :| i in s {
      AsManyWords(freq, s - {i});
      assert WordsUnder(freq, s) == WordsUnder(freq, s - {i}) + {Code(freq)[i]};
    } else {
      assert WordsUnder(freq, s) == {};
    }
  }

  lemma CountUnder(freq: seq<nat>, x: nat)
    requires Table(freq)
    ensures |WordsUnder(freq, Under(freq, x))| == |Under(freq, x)|
  {
    var n := FinalInv(freq, NODES);
    var t := Final(freq);
    forall i, k | i in Under(freq, x) && k in Under(freq, x) && Code(freq)[i] == Code(freq)[k] ensures i == k {
      SameWordSameNode(t, n, i, k);
    }
    AsManyWords(freq, Under(freq, x));
  }

  lemma {:induction false} CountUsed(freq: seq<nat>, n: nat)
    requires n <= |freq|
    ensures |set i: nat | i < n && freq[i] > 0| == LiveCount(freq[..n])
  {
    if n > 0 {
      CountUsed(freq, n - 1);
      var all, rest := (set i: nat | i < n && freq[i] > 0), (set i: nat | i < n - 1 && freq[i] > 0);
      assert all == if freq[n - 1] > 0 then rest + {n - 1} else rest;
      assert LiveTerms(freq[..n])[..n - 1] == LiveTerms(freq[..n - 1]);
    }
  }

  lemma UnderOne(freq: seq<nat>, x: nat, y: nat, i: nat)
    requires Table(freq) && LiveCount(freq) == 257 && x < y && LastRoot(freq, x) && LastRoot(freq, y) && Used(freq, i)
    ensures (i in Under(freq, x)) != (i in Under(freq, y))
  {
    UsedRoot(freq, i);
    KraftSum(freq, NODES);
    OneOfTwo(Final(freq).freq, x, y, Root(Final(freq).up, i));
  }

  lemma UsedCount(freq: seq<nat>)
    requires Table(freq)
    ensures |set i: nat | i < SYMBOLS && freq[i] > 0| == LiveCount(freq)
  {
    CountUsed(freq, SYMBOLS);
    TailZero(LiveTerms(freq), SYMBOLS);
    assert LiveTerms(freq)[..SYMBOLS] == LiveTerms(freq[..SYMBOLS]);
  }

  lemma UnderBoth(freq: seq<nat>, x: nat, y: nat)
    requires Table(freq) && LiveCount(freq) == 257 && x < y && LastRoot(freq, x) && LastRoot(freq, y)
    ensures |Under(freq, x)| + |Under(freq, y)| == 257
  {
    var used, underX, underY := (set i: nat | i < SYMBOLS && freq[i] > 0), Under(freq, x), Under(freq, y);
    forall i: nat ensures i in used <==> (i in underX) != (i in underY) {
      if Used(freq, i) { UnderOne(freq, x, y, i); }
    }
    DisjointSum(used, underX, underY);
    UsedCount(freq);
  }

  lemma DisjointSum(all: set<nat>, a: set<nat>, b: set<nat>)
    requires forall i: nat :: i in all <==> (i in a) != (i in b)
    requires forall i: nat :: i in a ==> i in all
    ensures |all| == |a| + |b|
  {
    assert all == a + b && a !! b;
  }

  lemma SameCounts(freq: seq<nat>, x: nat, y: nat)
    requires Table(freq) && x != y && LastRoot(freq, x) && LastRoot(freq, y) && NoExtension(freq) && !SomeBare(freq)
    ensures |Under(freq, x)| == |Under(freq, y)|
  {
    SameWords(freq, x, y);
    SameWords(freq, y, x);
    CountUnder(freq, x);
    CountUnder(freq, y);
    assert WordsUnder(freq, Under(freq, x)) == WordsUnder(freq, Under(freq, y));
  }

  lemma TwoLastRoots(freq: seq<nat>) returns (x: nat, y: nat)
    requires Table(freq) && LiveCount(freq) == 257
    ensures x < y && LastRoot(freq, x) && LastRoot(freq, y)
  {
    KraftSum(freq, NODES);
    var n := FinalInv(freq, NODES);
    x, y := CountTwo(Final(freq).freq);
  }

  // With 257 used symbols and none of them bare some word extends another: otherwise the two
  // trees would have the same words, and so an even number of symbols.
  lemma SomeExtends(freq: seq<nat>) returns (i: nat, k: nat)
    requires Table(freq) && LiveCount(freq) == 257 && !SomeBare(freq)
    ensures Extends(freq, i, k)
  {
    var x, y := TwoLastRoots(freq);
    UnderBoth(freq, x, y);
    if NoExtension(freq) { SameCounts(freq, x, y); }
    i, k :| Extends(freq, i, k);
  }

  // ---------- Which words are extended ----------

  // The final forest with the weights of its nodes, all merge nodes used.
  lemma FinalInOrder(freq: seq<nat>) returns (w: seq<nat>)
    requires Table(freq) && LiveCount(freq) == 257
    ensures InOrder(Final(freq), w) && LiveWeights(Final(freq), w) && Shape(Final(freq), NODES)
    ensures Kept(Final(freq), NODES)
  {
    var n;
    n, w := FinalOrdered(freq);
    KraftSum(freq, NODES);
    LoopRanOut(Final(freq), n);
  }

  lemma LoopRanOut(s: Forest, n: nat)
    requires Shape(s, n) && LiveCount(s.freq) >= 2 && (n == NODES || (n < NODES && Pick(s.freq, n).NoPair?))
    ensures n == NODES
  {
    if n < NODES {
      var x, y := CountTwo(s.freq);
      var a, b := TwoLeastExist(s.freq, n, x, y);
    }
  }

  // The node d levels down on the path to k.
  lemma {:induction false} OnPath(up: seq<int>, flag: seq<nat>, k: nat, d: nat) returns (y: nat)
    requires Rising(up) && |flag| == |up| && k < |up| && d <= |PathWord(up, flag, k)|
    requires forall c :: 0 <= c < |up| && up[c] != -1 ==> up[c] >= SYMBOLS
    ensures y < |up| && Root(up, y) == Root(up, k) && PathWord(up, flag, y) == PathWord(up, flag, k)[..d]
    ensures y == k || y >= SYMBOLS
    decreases |up| - k
  {
    y := k;
    if |PathWord(up, flag, k)| > d { y := OnPath(up, flag, up[k], d); }
  }

  lemma UsedWhenMerged(freq: seq<nat>, i: nat)
    requires Table(freq) && i < SYMBOLS && |Final(freq).up| == NODES && Final(freq).up[i] != -1
    ensures Used(freq, i)
  {
    var n := FinalInv(freq, NODES);
  }

  // The node of the other tree at the place of symbol i, when all words that extend the word of i
  // have 19 bits or more.
  lemma PlaceInOther(freq: seq<nat>, i: nat, k: nat) returns (y: nat)
    requires Table(freq) && Extends(freq, i, k) && Shape(Final(freq), NODES)
    requires forall m: nat :: Extends(freq, i, m) ==> |Code(freq)[m]| >= 19
    ensures SYMBOLS <= y < NODES && Depth(Final(freq).up, y) == Depth(Final(freq).up, i) == |Code(freq)[i]|
    ensures Root(Final(freq).up, y) == Root(Final(freq).up, k) != Root(Final(freq).up, i)
    ensures AllDeep(Final(freq), y, 19)
  {
    var t := Final(freq);
    if Root(t.up, i) == Root(t.up, k) { PrefixIsAncestor(t, NODES, i, k); }
    y := OnPath(t.up, t.flag, k, |Code(freq)[i]|);
    assert PathWord(t.up, t.flag, y) == Code(freq)[i];
    DepthIsLength(t.up, t.flag, y);
    DepthIsLength(t.up, t.flag, i);
    forall m: nat | m < SYMBOLS && Below(t, y, m) && t.up[m] != -1 ensures Depth(t.up, m) >= 19 {
      UsedWhenMerged(freq, m);
      DepthIsLength(t.up, t.flag, m);
      if |Code(freq)[m]| == |Code(freq)[i]| {
        assert Code(freq)[m] == Code(freq)[i];
        SameWordSameNode(t, NODES, m, y);
      }
      assert Extends(freq, i, m);
    }
  }

  // Two trees with such nodes would weigh more than any table.
  lemma TooHeavy(freq: seq<nat>, w: seq<nat>, y: nat, i: nat)
    requires Table(freq) && InOrder(Final(freq), w) && LiveWeights(Final(freq), w) && Shape(Final(freq), NODES)
    requires i < NODES && SYMBOLS <= y < NODES && 1 <= Depth(Final(freq).up, y) == Depth(Final(freq).up, i) <= 18
    requires AllDeep(Final(freq), y, 19) && Root(Final(freq).up, y) != Root(Final(freq).up, i)
    ensures w[Root(Final(freq).up, y)] + w[Root(Final(freq).up, i)] >= 73396
  {
    var t := Final(freq);
    var d := Depth(t.up, y);
    var p, q := Children(t, w, NODES, y);
    DeepChild(t, y, p, 19);
    DeepChild(t, y, q, 19);
    DeepIsHeavy(t, w, p, 19);
    DeepIsHeavy(t, w, q, 19);
    HigherIsHeavier(d);
    TwoTrees(t, w, y, p, i, Pow2(18 - d));
  }

  lemma RootsWeigh(freq: seq<nat>, i: nat, k: nat)
    requires Table(freq) && Used(freq, i) && Used(freq, k)
    requires |Final(freq).freq| == |Final(freq).up| == NODES && Rising(Final(freq).up)
    requires Root(Final(freq).up, i) != Root(Final(freq).up, k)
    ensures var t := Final(freq);
      var x, y := Root(t.up, i), Root(t.up, k);
      t.freq[x] > 0 && t.freq[y] > 0 && t.freq[x] + t.freq[y] <= 65281
  {
    var n := FinalInv(freq, NODES);
    var t := Final(freq);
    var roots := Roots(t.up);
    assert roots[i] == Root(t.up, i) && roots[k] == Root(t.up, k);
    SumAtLeastTwo(t.freq, roots[i], roots[k]);
    TableWeight(freq);
  }

  // A word of at most 18 bits that another one extends is extended by one of at most 18 bits.
  lemma ShortExtension(freq: seq<nat>, i: nat, k: nat) returns (m: nat)
    requires Table(freq) && LiveCount(freq) == 257 && Extends(freq, i, k) && |Code(freq)[i]| <= 18
    ensures Extends(freq, i, m) && |Code(freq)[m]| <= 18
  {
    if forall m: nat :: Extends(freq, i, m) ==> |Code(freq)[m]| >= 19 {
      var w := FinalInOrder(freq);
      var y := PlaceInOther(freq, i, k);
      TooHeavy(freq, w, y, i);
      RootsWeigh(freq, i, k);
    }
    m :| Extends(freq, i, m) && |Code(freq)[m]| < 19;
  }

  // ---------- Which tables are accepted ----------

  // In both cases the order shows the word that is extended, so no sort overlooks it.
  lemma SomeNoticed(freq: seq<nat>, order: seq<VlcCode> -> seq<VlcCode>) returns (i: nat, k: nat)
    requires Table(freq) && Sorts(order) && LiveCount(freq) == 257 && !SomeBare(freq)
    ensures Extends(freq, i, k) && !Overlooked(order, Lens(freq), Numbers(freq), i, k)
  {
    i, k := SomeExtends(freq);
    if |Code(freq)[i]| <= 18 {
      k := ShortExtension(freq, i, k);
      NotOverlooked(freq, order, i, k);
    } else {
      WordsAreShort(freq, k);
      LevelsAbove(VLC_BITS, Lens(freq)[i], Lens(freq)[k]);
    }
  }

  lemma NotOverlooked(freq: seq<nat>, order: seq<VlcCode> -> seq<VlcCode>, i: nat, k: nat)
    requires Table(freq) && Sorts(order) && Extends(freq, i, k) && |Code(freq)[k]| <= 18
    ensures !Overlooked(order, Lens(freq), Numbers(freq), i, k)
  {
    WordsCanEnter(freq);
    if Level(VLC_BITS, Lens(freq)[i]) < Level(VLC_BITS, Lens(freq)[k]) {
      LevelsBelow(VLC_BITS, Lens(freq)[i], Lens(freq)[k]);
      ShortsComeLast(order, Lens(freq), Numbers(freq), i, k);
    }
  }

  lemma LevelsBelow(t: nat, m: nat, n: nat)
    requires t > 0 && n <= t + t && Level(t, m) < Level(t, n)
    ensures m <= t < n
  {
    assert Level(t, n) <= 1;
  }

  lemma LevelsAbove(t: nat, m: nat, n: nat)
    requires t > 0 && t + t < m && n <= t + t + t
    ensures Level(t, m) >= Level(t, n)
  {
    assert Level(t, m) >= 2;
    if n > t { assert Level(t, n - t) <= 1; }
  }

  // init_vlc accepts a frequency table if and only if at most 256 symbols are used or one of the
  // 257 has no word, whichever way it sorts codes with equal keys.
  lemma AcceptedIff(freq: seq<nat>, order: seq<VlcCode> -> seq<VlcCode>)
    requires Table(freq) && Sorts(order)
    ensures InitVlc(order, Lens(freq), Numbers(freq)).Accepted? <==> LiveCount(freq) <= 256 || SomeBare(freq)
  {
    UsedAtMost(freq);
    if LiveCount(freq) <= 256 || SomeBare(freq) {
      AcceptedWhenFree(freq, order);
    } else {
      var i, k := SomeNoticed(freq, order);
      AcceptedByOrder(freq, order);
    }
  }

  // ---------- Symbols without a word ----------

  // A bare symbol keeps its frequency to the end.
  lemma BareWeight(freq: seq<nat>, b: nat)
    requires Table(freq) && Bare(freq, b)
    ensures |Final(freq).freq| == NODES && Final(freq).freq[b] == freq[b]
  {
    RootOfSymbol(freq, b);
    UsedRoot(freq, b);
    var roots, depths := SpaceFilled(freq, b);
    var w := WeightUnder(freq, roots, b);
    forall i | 0 <= i < NODES && i != b ensures w[i] == 0 {
      if i < SYMBOLS { RootOfSymbol(freq, i); }
    }
    SumUpdate(w, b, 0);
    SumZero(w[b := 0]);
  }

  lemma SumOfTwo(freq: seq<nat>, x: nat, y: nat)
    requires LiveCount(freq) == 2 && x < y < |freq| && freq[x] > 0 && freq[y] > 0
    ensures Sum(freq) == freq[x] + freq[y]
  {
    var rest := freq[x := 0][y := 0];
    forall z | 0 <= z < |freq| ensures rest[z] == 0 {
      if freq[z] > 0 { OneOfTwo(freq, x, y, z); }
    }
    SumUpdate(freq, x, 0);
    SumUpdate(freq[x := 0], y, 0);
    SumZero(rest);
  }

  // With 257 used symbols the last merge node is left beside the bare one, and weighs at most twice
  // as much.
  lemma BesideLast(freq: seq<nat>, b: nat)
    requires Table(freq) && LiveCount(freq) == 257 && Bare(freq, b)
    ensures LastRoot(freq, b) && LastRoot(freq, NODES - 1)
    ensures Final(freq).freq[NODES - 1] <= 2 * Final(freq).freq[b]
  {
    var w := FinalInOrder(freq);
    var n := FinalInv(freq, NODES);
    var t := Final(freq);
    assert Roots(t.up)[b] == b;
    assert t.up[NODES - 1] == -1;
    AtMostTwice(t, NODES, w, NODES - 1, b);
  }

  // With 257 used symbols one that has no word carries at least a third of the weight.
  lemma BareIsHeavy(freq: seq<nat>, b: nat)
    requires Table(freq) && LiveCount(freq) == 257 && Bare(freq, b)
    ensures Sum(freq) <= 3 * freq[b]
  {
    KraftSum(freq, NODES);
    BesideLast(freq, b);
    BareWeight(freq, b);
    SumOfTwo(Final(freq).freq, b, NODES - 1);
    SumKept(freq);
  }

  lemma SumKept(freq: seq<nat>)
    requires Table(freq)
    ensures Sum(Final(freq).freq) == Sum(freq)
  {
    var n := FinalInv(freq, NODES);
  }
}
