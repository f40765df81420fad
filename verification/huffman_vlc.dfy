// init_vlc as read_huffman_tables calls it: lengths and numbers are checked, the words are put in
// order and entered into a lookup table of 9 bits with subtables. Entering refuses some sets of
// words that are no prefix code, but not all of them.
module VlcTables {
  import opened Sums
  import opened CodeLengths

  // ---------- Words as numbers ----------

  function Bit(b: bool): nat {
    if b then 1 else 0
  }

  // The number a word spells, first bit most significant.
  function Value(w: Word): nat {
    if w == [] then 0 else 2 * Value(w[..|w| - 1]) + Bit(w[|w| - 1])
  }

  // The len low bits of a number, most significant first.
  function MsbFirst(bits: nat, len: nat): (w: Word)
    ensures |w| == len
  {
    if len == 0 then [] else MsbFirst(bits / 2, len - 1) + [bits % 2 == 1]
  }

  lemma {:induction false} ValueCons(b: bool, w: Word)
    ensures Value([b] + w) == Bit(b) * Pow2(|w|) + Value(w)
  {
    if w != [] {
      ValueCons(b, w[..|w| - 1]);
      assert ([b] + w)[..|w|] == [b] + w[..|w| - 1];
    }
  }

  lemma {:induction false} ReadBack(w: Word)
    ensures MsbFirst(Value(w), |w|) == w
  {
    if w != [] {
      ReadBack(w[..|w| - 1]);
    }
  }

  lemma {:induction false} ValueFits(w: Word)
    ensures Value(w) < Pow2(|w|)
  {
    if w != [] { ValueFits(w[..|w| - 1]); }
  }

  lemma {:induction false} ValueOf(n: nat, len: nat)
    requires n < Pow2(len)
    ensures Value(MsbFirst(n, len)) == n
  {
    if len > 0 {
      ValueOf(n / 2, len - 1);
      var w := MsbFirst(n, len);
      assert w[..len - 1] == MsbFirst(n / 2, len - 1) && w[len - 1] == (n % 2 == 1);
    }
  }

  // ---------- Table entries ----------

  // The entries of a table of t bits whose index starts with w.
  predicate InBlock(t: nat, w: Word, j: nat)
    requires |w| <= t
    decreases t
  {
    if |w| == t then j == Value(w) else InBlock(t - 1, w, j / 2)
  }

  lemma {:induction false} BlockIsPrefix(t: nat, w: Word, x: Word)
    requires |w| <= t == |x|
    ensures InBlock(t, w, Value(x)) <==> w <= x
    decreases t
  {
    if |w| == t {
      WordIsValue(w, x);
    } else {
      BlockIsPrefix(t - 1, w, x[..t - 1]);
      assert Value(x) / 2 == Value(x[..t - 1]);
      assert w <= x <==> w <= x[..t - 1];
    }
  }

  lemma WordIsValue(w: Word, x: Word)
    requires |w| == |x|
    ensures Value(x) == Value(w) <==> w <= x
  {
    ReadBack(w);
    ReadBack(x);
  }

  lemma {:induction false} BlockInTable(t: nat, w: Word, j: nat)
    requires |w| <= t && InBlock(t, w, j)
    ensures j < Pow2(t)
    decreases t
  {
    if |w| == t { ValueFits(w); } else { BlockInTable(t - 1, w, j / 2); }
  }

  // ---------- Entering the words ----------

  // Number of bits of all words, the measure of the recursion.
  function Total(ws: seq<Word>): nat {
    if ws == [] then 0 else |ws[0]| + Total(ws[1..])
  }

  predicate Lengthy(ws: seq<Word>) {
    forall i :: 0 <= i < |ws| ==> ws[i] != []
  }

  // How many words from the front go to the subtable of the first one.
  function Group(t: nat, ws: seq<Word>, p: Word): (k: nat)
    ensures k <= |ws|
  {
    if ws == [] || |ws[0]| <= t || ws[0][..t] != p then 0 else 1 + Group(t, ws[1..], p)
  }

  // The first k words go on after p.
  predicate Alike(t: nat, ws: seq<Word>, p: Word, k: nat) {
    k <= |ws| && forall i :: 0 <= i < k ==> |ws[i]| > t && ws[i][..t] == p
  }

  lemma {:induction false} GroupIs(t: nat, ws: seq<Word>, p: Word, k: nat)
    requires k == Group(t, ws, p)
    ensures Alike(t, ws, p, k)
    ensures k < |ws| ==> |ws[k]| <= t || ws[k][..t] != p
  {
    if k > 0 { GroupIs(t, ws[1..], p, k - 1); }
  }

  function Cut(t: nat, ws: seq<Word>): (r: seq<Word>)
    requires forall i :: 0 <= i < |ws| ==> |ws[i]| > t
    ensures |r| == |ws| && forall i :: 0 <= i < |r| ==> r[i] == ws[i][t..]
  {
    seq(|ws|, i requires 0 <= i < |ws| => ws[i][t..])
  }

  function Widest(ws: seq<Word>): (n: nat)
    ensures ws != [] ==> n >= |ws[0]|
  {
    if ws == [] then 0
    else if |ws[0]| >= Widest(ws[1..]) then |ws[0]|
    else Widest(ws[1..])
  }

  lemma {:induction false} WidestBounds(ws: seq<Word>, i: nat, n: nat)
    requires i < |ws|
    ensures |ws[i]| <= Widest(ws)
    ensures (forall j :: 0 <= j < |ws| ==> |ws[j]| <= n) ==> Widest(ws) <= n
  {
    if |ws| > 1 { WidestBounds(ws[1..], if i > 0 then i - 1 else 0, n); }
  }

  lemma {:induction false} TotalSlices(ws: seq<Word>, k: nat)
    requires k <= |ws|
    ensures Total(ws) == Total(ws[..k]) + Total(ws[k..])
  {
    if k > 0 {
      TotalSlices(ws[1..], k - 1);
      assert ws[..k][1..] == ws[1..][..k - 1] && ws[1..][k - 1..] == ws[k..];
    }
  }

  lemma {:induction false} CutTotal(t: nat, ws: seq<Word>)
    requires t > 0 && ws != [] && forall i :: 0 <= i < |ws| ==> |ws[i]| > t
    ensures Total(Cut(t, ws)) < Total(ws)
  {
    assert Cut(t, ws)[1..] == Cut(t, ws[1..]);
    if |ws| > 1 { CutTotal(t, ws[1..]); }
  }

  function Smaller(a: nat, b: nat): nat {
    if a < b then a else b
  }

  // The width of the subtable of the first k words.
  function Bits(t: nat, ws: seq<Word>, k: nat): (bits: int)
    requires t > 0 && k > 0 && ws != [] && |ws[0]| > t && Alike(t, ws, ws[0][..t], k)
    ensures 0 < bits <= t
  {
    Smaller(Widest(Cut(t, ws[..k])), t)
  }

  lemma GroupIsSmaller(t: nat, ws: seq<Word>, k: nat)
    requires t > 0 && ws != [] && |ws[0]| > t && k == Group(t, ws, ws[0][..t])
    ensures 0 < k && Alike(t, ws, ws[0][..t], k)
    ensures Total(Cut(t, ws[..k])) < Total(ws) && Total(ws[k..]) < Total(ws) && Lengthy(Cut(t, ws[..k]))
    ensures Value(ws[0][..t]) < Pow2(t)
  {
    GroupIs(t, ws, ws[0][..t], k);
    ValueFits(ws[0][..t]);
    CutTotal(t, ws[..k]);
    TotalSlices(ws, k);
  }

  datatype Verdict = Accepted | Refused

  // An entry is 0 while empty, the length of the word that fills it, or minus the bits of its
  // subtable. A word short enough fills its block unless an entry there differs from its length;
  // longer words go to a subtable, whatever the entry was.
  function Enter(t: nat, ws: seq<Word>, e: seq<int>): Verdict
    requires t > 0 && |e| == Pow2(t) && Lengthy(ws)
    decreases Total(ws), 0
  {
    if ws == [] then Accepted
    else if |ws[0]| <= t then
      if Free(t, ws[0], e, 0) then Enter(t, ws[1..], WithWord(t, ws[0], e)) else Refused
    else
      var k := Group(t, ws, ws[0][..t]);
      GroupIsSmaller(t, ws, k);
      if BuildTable(Bits(t, ws, k), Cut(t, ws[..k])).Refused? then Refused
      else Enter(t, ws[k..], e[Value(ws[0][..t]) := -Bits(t, ws, k)])
  }

  function BuildTable(t: nat, ws: seq<Word>): Verdict
    requires t > 0 && Lengthy(ws)
    decreases Total(ws), 1
  {
    Enter(t, ws, seq(Pow2(t), _ => 0))
  }

  // Every entry from j on in the word's block is empty or has its length.
  predicate Free(t: nat, w: Word, e: seq<int>, j: nat)
    requires |w| <= t && j <= |e|
    decreases |e| - j
  {
    j == |e| || ((InBlock(t, w, j) ==> e[j] == 0 || e[j] == |w|) && Free(t, w, e, j + 1))
  }

  lemma {:induction false} FreeIff(t: nat, w: Word, e: seq<int>, j: nat)
    requires |w| <= t && j <= |e|
    ensures Free(t, w, e, j) <==> forall i :: j <= i < |e| && InBlock(t, w, i) ==> e[i] == 0 || e[i] == |w|
    decreases |e| - j
  {
    if j < |e| { FreeIff(t, w, e, j + 1); }
  }

  function WithWord(t: nat, w: Word, e: seq<int>): (r: seq<int>)
    requires |w| <= t
    ensures |r| == |e|
  {
    seq(|e|, j requires 0 <= j < |e| => if InBlock(t, w, j) then |w| else e[j])
  }

  // ---------- When words clash ----------

  // u was entered before w into a table of t bits: whether w finds an entry it cannot take.
  predicate Clash(t: nat, u: Word, w: Word)
    requires t > 0
    decreases |u|
  {
    if |w| <= t then (if |u| <= t then (u <= w || w <= u) && |u| != |w| else w <= u)
    else |u| > t && u[..t] == w[..t] && Clash(t, u[t..], w[t..])
  }

  // How many subtables a word of n bits goes through.
  function Level(t: nat, n: nat): nat
    requires t > 0
  {
    if n <= t then 0 else 1 + Level(t, n - t)
  }

  lemma {:induction false} LevelMonotone(t: nat, m: nat, n: nat)
    requires t > 0 && m <= n
    ensures Level(t, m) <= Level(t, n)
  {
    if m > t { LevelMonotone(t, m - t, n - t); }
  }

  // One word is a prefix of the other and shorter: that is noticed unless the shorter one was
  // entered first and ends in a table above the other's.
  lemma {:induction false} ClashIff(t: nat, u: Word, w: Word)
    requires t > 0
    ensures Clash(t, u, w) <==> (u <= w || w <= u) && |u| != |w| && Level(t, |u|) >= Level(t, |w|)
    decreases |u|
  {
    if |u| > t && |w| > t {
      ClashIff(t, u[t..], w[t..]);
      PrefixAfter(t, u, w);
      PrefixAfter(t, w, u);
    }
  }

  lemma PrefixAfter(t: nat, u: Word, w: Word)
    requires t < |u| && t < |w|
    ensures u <= w <==> u[..t] == w[..t] && u[t..] <= w[t..]
  {
    assert u == u[..t] + u[t..] && w == w[..t] + w[t..];
    if u <= w {
      assert u == w[..|u|];
    }
  }

  ghost predicate Quiet(t: nat, ws: seq<Word>)
    requires t > 0
  {
    forall i, k :: 0 <= i < k < |ws| ==> !Clash(t, ws[i], ws[k])
  }

  lemma QuietPart(t: nat, ws: seq<Word>, from: nat, to: nat)
    requires t > 0 && Quiet(t, ws) && from <= to <= |ws|
    ensures Quiet(t, ws[from..to])
  {
  }

  lemma CutQuiet(t: nat, ws: seq<Word>, p: Word)
    requires t > 0 && Quiet(t, ws) && Alike(t, ws, p, |ws|)
    ensures Quiet(t, Cut(t, ws))
  {
    var sub := Cut(t, ws);
    forall i, k | 0 <= i < k < |sub| ensures !Clash(t, sub[i], sub[k]) {
      assert !Clash(t, ws[i], ws[k]);
    }
  }

  // A narrower table wide enough for all its words makes no difference.
  lemma Narrower(t: nat, ws: seq<Word>)
    requires t > 0 && ws != [] && Lengthy(ws)
    ensures Smaller(Widest(ws), t) > 0 && (Quiet(Smaller(Widest(ws), t), ws) <==> Quiet(t, ws))
  {
    forall m: nat | m < |ws| ensures |ws[m]| <= Widest(ws) {
      WidestBounds(ws, m, 0);
    }
  }

  // ---------- Quiet lists are accepted ----------

  // Every entry that is not empty comes from one of these words.
  ghost predicate Explained(t: nat, done: seq<Word>, e: seq<int>) {
    forall j :: 0 <= j < |e| && e[j] != 0 ==> exists i :: 0 <= i < |done| && Explains(t, done[i], j, e[j])
  }

  ghost predicate Explains(t: nat, u: Word, j: nat, x: int) {
    if |u| <= t then InBlock(t, u, j) && x == |u| else Value(u[..t]) == j
  }

  // Two words that meet in an entry are one a prefix of the other.
  lemma MeetingWords(t: nat, u: Word, w: Word, j: nat, x: int)
    requires |w| <= t && InBlock(t, w, j) && Explains(t, u, j, x)
    ensures u <= w || w <= u
  {
    BlockInTable(t, w, j);
    var v := MsbFirst(j, t);
    ValueOf(j, t);
    BlockIsPrefix(t, w, v);
    if |u| <= t {
      BlockIsPrefix(t, u, v);
      BothPrefixes(u, w, v);
    } else {
      ReadBack(u[..t]);
      assert w <= u;
    }
  }

  lemma BothPrefixes(u: Word, w: Word, v: Word)
    requires u <= v && w <= v
    ensures u <= w || w <= u
  {
    if |u| <= |w| {
      assert w[..|u|] == v[..|u|];
    } else {
      assert u[..|w|] == v[..|w|];
    }
  }

  lemma WordExplained(t: nat, done: seq<Word>, w: Word, e: seq<int>)
    requires |w| <= t && Explained(t, done, e)
    ensures Explained(t, done + [w], WithWord(t, w, e))
  {
    var more, f := done + [w], WithWord(t, w, e);
    assert more[|done|] == w;
    forall j | 0 <= j < |e| && f[j] != 0 ensures exists i :: 0 <= i < |more| && Explains(t, more[i], j, f[j]) {
      if InBlock(t, w, j) {
        assert Explains(t, more[|done|], j, f[j]);
      } else {
        var i :| 0 <= i < |done| && Explains(t, done[i], j, e[j]);
        assert more[i] == done[i];
      }
    }
  }

  lemma SubtableExplained(t: nat, done: seq<Word>, group: seq<Word>, e: seq<int>, n: int)
    requires group != [] && |group[0]| > t && Explained(t, done, e) && Value(group[0][..t]) < |e|
    ensures Explained(t, done + group, e[Value(group[0][..t]) := n])
  {
    var more, at := done + group, Value(group[0][..t]);
    assert more[|done|] == group[0];
    var f := e[at := n];
    forall j | 0 <= j < |f| && f[j] != 0 ensures exists i :: 0 <= i < |more| && Explains(t, more[i], j, f[j]) {
      if j == at {
        assert Explains(t, more[|done|], j, f[j]);
      } else {
        var i :| 0 <= i < |done| && Explains(t, done[i], j, e[j]);
        assert more[i] == done[i];
      }
    }
  }

  lemma FreeWhenQuiet(t: nat, done: seq<Word>, ws: seq<Word>, e: seq<int>)
    requires t > 0 && ws != [] && |ws[0]| <= t && Quiet(t, done + ws) && Explained(t, done, e)
    ensures Free(t, ws[0], e, 0)
  {
    var w, all := ws[0], done + ws;
    forall j: nat | j < |e| && InBlock(t, w, j) ensures e[j] == 0 || e[j] == |w| {
      if e[j] != 0 {
        var i :| 0 <= i < |done| && Explains(t, done[i], j, e[j]);
        assert all[i] == done[i] && all[|done|] == w;
        MeetingWords(t, done[i], w, j, e[j]);
      }
    }
    FreeIff(t, w, e, 0);
  }

  lemma GroupQuiet(t: nat, done: seq<Word>, ws: seq<Word>, k: nat)
    requires t > 0 && ws != [] && |ws[0]| > t && Alike(t, ws, ws[0][..t], k) && Quiet(t, done + ws)
    ensures Quiet(t, Cut(t, ws[..k]))
  {
    QuietPart(t, done + ws, |done|, |done| + k);
    assert (done + ws)[|done|..|done| + k] == ws[..k];
    CutQuiet(t, ws[..k], ws[0][..t]);
  }

  lemma {:induction false} EnterAccepts(t: nat, done: seq<Word>, ws: seq<Word>, e: seq<int>)
    requires t > 0 && |e| == Pow2(t) && Lengthy(ws) && Quiet(t, done + ws) && Explained(t, done, e)
    ensures Enter(t, ws, e).Accepted?
    decreases Total(ws), 3
  {
    if ws != [] {
      var more, rest, f := StepAccepts(t, done, ws, e);
      EnterAccepts(t, more, rest, f);
    }
  }

  // The first word, or the subtable of its group, is accepted; what is done then and left to do.
  lemma {:induction false} StepAccepts(t: nat, done: seq<Word>, ws: seq<Word>, e: seq<int>)
      returns (more: seq<Word>, rest: seq<Word>, f: seq<int>)
    requires t > 0 && |e| == Pow2(t) && Lengthy(ws) && Quiet(t, done + ws) && Explained(t, done, e) && ws != []
    ensures more + rest == done + ws && Total(rest) < Total(ws) && Lengthy(rest)
    ensures |f| == |e| && Explained(t, more, f) && Enter(t, ws, e) == Enter(t, rest, f)
    decreases Total(ws), 2
  {
    if |ws[0]| <= t {
      more, rest, f := WordStep(t, done, ws, e);
    } else {
      more, rest, f := GroupStep(t, done, ws, e);
    }
  }

  lemma WordStep(t: nat, done: seq<Word>, ws: seq<Word>, e: seq<int>)
      returns (more: seq<Word>, rest: seq<Word>, f: seq<int>)
    requires t > 0 && |e| == Pow2(t) && Lengthy(ws) && Quiet(t, done + ws) && Explained(t, done, e)
    requires ws != [] && |ws[0]| <= t
    ensures more + rest == done + ws && Total(rest) < Total(ws) && Lengthy(rest)
    ensures |f| == |e| && Explained(t, more, f) && Enter(t, ws, e) == Enter(t, rest, f)
  {
    more, rest, f := done + [ws[0]], ws[1..], WithWord(t, ws[0], e);
    FreeWhenQuiet(t, done, ws, e);
    WordExplained(t, done, ws[0], e);
  }

  lemma {:induction false} GroupStep(t: nat, done: seq<Word>, ws: seq<Word>, e: seq<int>)
      returns (more: seq<Word>, rest: seq<Word>, f: seq<int>)
    requires t > 0 && |e| == Pow2(t) && Lengthy(ws) && Quiet(t, done + ws) && Explained(t, done, e)
    requires ws != [] && |ws[0]| > t
    ensures more + rest == done + ws && Total(rest) < Total(ws) && Lengthy(rest)
    ensures |f| == |e| && Explained(t, more, f) && Enter(t, ws, e) == Enter(t, rest, f)
    decreases Total(ws), 1
  {
    var k := Group(t, ws, ws[0][..t]);
    GroupIsSmaller(t, ws, k);
    var n := GroupBuilds(t, done, ws, k);
    more, rest, f := done + ws[..k], ws[k..], e[Value(ws[0][..t]) := -n];
    MovedOver(done, ws, k);
    EnterGroup(t, ws, e, k, n);
    SubtableExplained(t, done, ws[..k], e, -n);
  }

  lemma MovedOver(done: seq<Word>, ws: seq<Word>, k: nat)
    requires k <= |ws|
    ensures (done + ws[..k]) + ws[k..] == done + ws
    ensures Lengthy(ws) ==> Lengthy(ws[k..])
  {
  }

  lemma EnterGroup(t: nat, ws: seq<Word>, e: seq<int>, k: nat, n: int)
    requires t > 0 && |e| == Pow2(t) && Lengthy(ws) && ws != [] && |ws[0]| > t && k == Group(t, ws, ws[0][..t])
    requires k > 0 && Alike(t, ws, ws[0][..t], k) && Lengthy(Cut(t, ws[..k])) && n == Bits(t, ws, k)
    requires Value(ws[0][..t]) < |e| && Lengthy(ws[k..]) && BuildTable(n, Cut(t, ws[..k])).Accepted?
    ensures Enter(t, ws, e) == Enter(t, ws[k..], e[Value(ws[0][..t]) := -n])
  {
  }

  lemma {:induction false} GroupBuilds(t: nat, done: seq<Word>, ws: seq<Word>, k: nat) returns (n: int)
    requires t > 0 && Quiet(t, done + ws) && ws != [] && |ws[0]| > t && k > 0 && Alike(t, ws, ws[0][..t], k)
    requires Lengthy(Cut(t, ws[..k])) && Total(Cut(t, ws[..k])) < Total(ws)
    ensures n == Bits(t, ws, k) > 0 && BuildTable(n, Cut(t, ws[..k])).Accepted?
    decreases Total(ws), 0
  {
    GroupQuiet(t, done, ws, k);
    Narrower(t, Cut(t, ws[..k]));
    n := Bits(t, ws, k);
    BuildAccepts(n, Cut(t, ws[..k]));
  }

  lemma {:induction false} BuildAccepts(t: nat, ws: seq<Word>)
    requires t > 0 && Lengthy(ws) && Quiet(t, ws)
    ensures BuildTable(t, ws).Accepted?
    decreases Total(ws), 4
  {
    assert [] + ws == ws;
    EnterAccepts(t, [], ws, seq(Pow2(t), _ => 0));
  }

  // ---------- Lists in order that are accepted are quiet ----------

  function Zeros(n: nat): (w: Word)
    ensures |w| == n
  {
    seq(n, _ => false)
  }

  // The word with zeros up to N bits.
  function Wide(N: nat, w: Word): (r: Word)
    requires |w| <= N
    ensures |r| == N && w <= r
  {
    w + Zeros(N - |w|)
  }

  predicate UpTo(n: nat, ws: seq<Word>) {
    forall i :: 0 <= i < |ws| ==> |ws[i]| <= n
  }

  ghost predicate Sorted(N: nat, ws: seq<Word>)
    requires UpTo(N, ws)
  {
    forall i, k :: 0 <= i < k < |ws| ==> Value(Wide(N, ws[i])) <= Value(Wide(N, ws[k]))
  }

  // Words for one subtable are in order, and between two of them stand only words that meet its
  // entry.
  ghost predicate Grouped(t: nat, N: nat, ws: seq<Word>)
    requires UpTo(N, ws)
  {
    forall i, k :: 0 <= i < k < |ws| && |ws[i]| > t && |ws[k]| > t && ws[i][..t] == ws[k][..t] ==>
      Value(Wide(N, ws[i])) <= Value(Wide(N, ws[k])) && forall m :: i < m < k ==> MeetsStart(t, ws[m], ws[i])
  }

  ghost predicate MeetsStart(t: nat, v: Word, u: Word) {
    |u| > t && if |v| > t then v[..t] == u[..t] else v <= u[..t]
  }

  lemma {:induction false} BlockIsConvex(t: nat, w: Word, a: nat, b: nat, c: nat)
    requires |w| <= t && a <= b <= c && InBlock(t, w, a) && InBlock(t, w, c)
    ensures InBlock(t, w, b)
    decreases t
  {
    if |w| < t { BlockIsConvex(t - 1, w, a / 2, b / 2, c / 2); }
  }

  lemma SortedIsGrouped(t: nat, N: nat, ws: seq<Word>)
    requires UpTo(N, ws) && Sorted(N, ws)
    ensures Grouped(t, N, ws)
  {
    forall i, m, k | 0 <= i < m < k < |ws| && |ws[i]| > t && |ws[k]| > t && ws[i][..t] == ws[k][..t]
      ensures MeetsStart(t, ws[m], ws[i])
    {
      BetweenMeets(t, N, ws[i], ws[m], ws[k]);
    }
  }

  lemma BetweenMeets(t: nat, N: nat, u: Word, v: Word, w: Word)
    requires t < |u| <= N && |v| <= N && t < |w| <= N && u[..t] == w[..t]
    requires Value(Wide(N, u)) <= Value(Wide(N, v)) <= Value(Wide(N, w))
    ensures MeetsStart(t, v, u)
  {
    var p := u[..t];
    assert p <= Wide(N, u) && p <= Wide(N, w);
    BlockIsPrefix(N, p, Wide(N, u));
    BlockIsPrefix(N, p, Wide(N, w));
    BlockIsConvex(N, p, Value(Wide(N, u)), Value(Wide(N, v)), Value(Wide(N, w)));
    BlockIsPrefix(N, p, Wide(N, v));
    BothPrefixes(p, v, Wide(N, v));
  }

  lemma {:induction false} SameFront(p: Word, x: Word, y: Word)
    requires |x| == |y|
    ensures Value(p + x) <= Value(p + y) <==> Value(x) <= Value(y)
  {
    if p == [] {
      assert p + x == x && p + y == y;
    } else {
      SameFront(p[1..], x, y);
      ValueCons(p[0], p[1..] + x);
      ValueCons(p[0], p[1..] + y);
      assert [p[0]] + (p[1..] + x) == p + x && [p[0]] + (p[1..] + y) == p + y;
    }
  }

  lemma CutSorted(t: nat, N: nat, ws: seq<Word>, p: Word)
    requires UpTo(N, ws) && Grouped(t, N, ws) && Alike(t, ws, p, |ws|) && t <= N
    ensures UpTo(N - t, Cut(t, ws)) && Sorted(N - t, Cut(t, ws))
  {
    var sub := Cut(t, ws);
    assert UpTo(N - t, sub);
    forall i, k | 0 <= i < k < |sub| ensures Value(Wide(N - t, sub[i])) <= Value(Wide(N - t, sub[k])) {
      assert Wide(N, ws[i]) == p + Wide(N - t, sub[i]) && Wide(N, ws[k]) == p + Wide(N - t, sub[k]);
      SameFront(p, Wide(N - t, sub[i]), Wide(N - t, sub[k]));
    }
  }

  // An entry in the blocks of both words.
  lemma Meet(t: nat, u: Word, w: Word) returns (j: nat)
    requires |u| <= t && |w| <= t && (u <= w || w <= u)
    ensures j < Pow2(t) && InBlock(t, u, j) && InBlock(t, w, j)
  {
    var longer := if u <= w then w else u;
    var x := Wide(t, longer);
    ValueFits(x);
    assert u <= x && w <= x by {
      assert x[..|u|] == longer[..|u|] && x[..|w|] == longer[..|w|];
    }
    BlockIsPrefix(t, u, x);
    BlockIsPrefix(t, w, x);
    j := Value(x);
  }

  predicate Accepts(t: nat, ws: seq<Word>, e: seq<int>) {
    t > 0 && |e| == Pow2(t) && Lengthy(ws) && Enter(t, ws, e).Accepted?
  }

  // One step of the recursion: how many words it takes, and the entries it leaves.
  lemma Advance(t: nat, ws: seq<Word>, e: seq<int>) returns (n: nat, f: seq<int>)
    requires Accepts(t, ws, e) && ws != []
    ensures 0 < n <= |ws| && Accepts(t, ws[n..], f) && Total(ws[n..]) < Total(ws)
    ensures |ws[0]| <= t ==> n == 1 && f == WithWord(t, ws[0], e)
    ensures |ws[0]| <= t ==> forall j :: 0 <= j < |e| && InBlock(t, ws[0], j) ==> e[j] == 0 || e[j] == |ws[0]|
    ensures |ws[0]| > t ==> n == Group(t, ws, ws[0][..t]) && Alike(t, ws, ws[0][..t], n) && Value(ws[0][..t]) < |e|
    ensures |ws[0]| > t ==> Lengthy(Cut(t, ws[..n])) && Total(Cut(t, ws[..n])) < Total(ws)
    ensures |ws[0]| > t ==> BuildTable(Bits(t, ws, n), Cut(t, ws[..n])).Accepted?
    ensures |ws[0]| > t ==> f == e[Value(ws[0][..t]) := -Bits(t, ws, n)]
  {
    if |ws[0]| <= t {
      FreeIff(t, ws[0], e, 0);
      n, f := 1, WithWord(t, ws[0], e);
    } else {
      n := Group(t, ws, ws[0][..t]);
      GroupIsSmaller(t, ws, n);
      f := e[Value(ws[0][..t]) := -Bits(t, ws, n)];
    }
  }

  // Only words of the length in an entry come there later.
  lemma {:induction false} EntryStays(t: nat, ws: seq<Word>, e: seq<int>, j: nat, k: nat)
    requires Accepts(t, ws, e) && j < |e| && e[j] != 0
    requires k < |ws| && |ws[k]| <= t && InBlock(t, ws[k], j)
    ensures e[j] == |ws[k]|
    decreases |ws|
  {
    var n, f := Advance(t, ws, e);
    if k >= n { EntryStays(t, ws[n..], f, j, k - n); }
  }

  // A word short enough, and one after it.
  lemma ShortFirst(t: nat, ws: seq<Word>, e: seq<int>, k: nat)
    requires Accepts(t, ws, e) && 0 < k < |ws| && |ws[0]| <= t
    ensures !Clash(t, ws[0], ws[k])
  {
    if Clash(t, ws[0], ws[k]) {
      var j := Meet(t, ws[0], ws[k]);
      var n, f := Advance(t, ws, e);
      EntryStays(t, ws[1..], f, j, k - 1);
    }
  }

  // A short word after the first group that meets the group's entry is refused.
  lemma NoneMeets(t: nat, ws: seq<Word>, e: seq<int>, k: nat)
    requires Accepts(t, ws, e) && ws != [] && |ws[0]| > t
    requires Group(t, ws, ws[0][..t]) <= k < |ws| && |ws[k]| <= t
    ensures !(ws[k] <= ws[0][..t])
  {
    var p := ws[0][..t];
    var n, f := Advance(t, ws, e);
    if ws[k] <= p {
      BlockIsPrefix(t, ws[k], p);
      EntryStays(t, ws[n..], f, Value(p), k - n);
    }
  }

  lemma PrefixOfStart(t: nat, short: Word, w: Word)
    requires |short| <= t < |w|
    ensures short <= w <==> short <= w[..t]
  {
  }

  // A word of the first group, and one after the group.
  lemma GroupFirst(t: nat, N: nat, ws: seq<Word>, e: seq<int>, i: nat, k: nat)
    requires Accepts(t, ws, e) && UpTo(N, ws) && Grouped(t, N, ws) && ws != [] && |ws[0]| > t
    requires i < Group(t, ws, ws[0][..t]) <= k < |ws|
    ensures !Clash(t, ws[i], ws[k])
  {
    var p, n := ws[0][..t], Group(t, ws, ws[0][..t]);
    GroupIs(t, ws, p, n);
    if |ws[k]| <= t {
      NoneMeets(t, ws, e, k);
      PrefixOfStart(t, ws[k], ws[i]);
    } else if ws[k][..t] == p {
      assert MeetsStart(t, ws[n], ws[i]);
      NoneMeets(t, ws, e, n);
    }
  }

  lemma CutClash(t: nat, ws: seq<Word>, p: Word, bits: nat, i: nat, k: nat)
    requires t > 0 && Alike(t, ws, p, |ws|) && i < k < |ws| && Clash(t, ws[i], ws[k])
    requires bits == Smaller(Widest(Cut(t, ws)), t) > 0
    ensures Clash(bits, Cut(t, ws)[i], Cut(t, ws)[k])
  {
    WidestBounds(Cut(t, ws), i, 0);
    WidestBounds(Cut(t, ws), k, 0);
  }

  lemma CutGrouped(t: nat, N: nat, ws: seq<Word>, p: Word, n: nat, bits: nat)
    requires UpTo(N, ws) && Grouped(t, N, ws) && t <= N && Alike(t, ws, p, n)
    ensures UpTo(N - t, Cut(t, ws[..n])) && Grouped(bits, N - t, Cut(t, ws[..n]))
  {
    GroupedPart(t, N, ws, 0, n);
    assert ws[0..n] == ws[..n];
    CutSorted(t, N, ws[..n], p);
    SortedIsGrouped(bits, N - t, Cut(t, ws[..n]));
  }

  // The words of the first group in their subtable.
  lemma FirstSubtable(t: nat, N: nat, ws: seq<Word>, e: seq<int>, i: nat, k: nat)
      returns (sub: seq<Word>, bits: nat, zeros: seq<int>)
    requires Accepts(t, ws, e) && UpTo(N, ws) && Grouped(t, N, ws) && ws != [] && |ws[0]| > t
    requires i < k < Group(t, ws, ws[0][..t])
    ensures Accepts(bits, sub, zeros) && Total(sub) < Total(ws) && k < |sub|
    ensures t < N && UpTo(N - t, sub) && Grouped(bits, N - t, sub)
    ensures Clash(t, ws[i], ws[k]) ==> Clash(bits, sub[i], sub[k])
  {
    var n, f := Advance(t, ws, e);
    sub, bits := Cut(t, ws[..n]), Bits(t, ws, n);
    zeros := seq(Pow2(bits), _ => 0);
    CutGrouped(t, N, ws, ws[0][..t], n, bits);
    if Clash(t, ws[i], ws[k]) { CutClash(t, ws[..n], ws[0][..t], bits, i, k); }
  }

  lemma GroupedPart(t: nat, N: nat, ws: seq<Word>, from: nat, to: nat)
    requires UpTo(N, ws) && Grouped(t, N, ws) && from <= to <= |ws|
    ensures UpTo(N, ws[from..to]) && Grouped(t, N, ws[from..to])
  {
    var part := ws[from..to];
    assert forall i :: 0 <= i < |part| ==> part[i] == ws[from + i];
  }

  lemma SkipFirst(t: nat, ws: seq<Word>, e: seq<int>, n: nat) returns (f: seq<int>)
    requires Accepts(t, ws, e) && ws != [] && n == if |ws[0]| <= t then 1 else Group(t, ws, ws[0][..t])
    ensures 0 < n <= |ws| && Accepts(t, ws[n..], f) && Total(ws[n..]) < Total(ws)
  {
    var m;
    m, f := Advance(t, ws, e);
  }

  lemma GroupedRest(t: nat, N: nat, ws: seq<Word>, n: nat, i: nat, k: nat) returns (rest: seq<Word>)
    requires UpTo(N, ws) && Grouped(t, N, ws) && n <= i < k < |ws|
    ensures rest == ws[n..] && UpTo(N, rest) && Grouped(t, N, rest)
    ensures |rest| == |ws| - n && rest[i - n] == ws[i] && rest[k - n] == ws[k]
  {
    rest := ws[n..];
    assert rest == ws[n..|ws|];
    GroupedPart(t, N, ws, n, |ws|);
  }

  // What is left after the first word, or the first group.
  lemma RestOfPair(t: nat, N: nat, ws: seq<Word>, e: seq<int>, n: nat, i: nat, k: nat)
      returns (rest: seq<Word>, f: seq<int>)
    requires Accepts(t, ws, e) && UpTo(N, ws) && Grouped(t, N, ws) && ws != []
    requires n == (if |ws[0]| <= t then 1 else Group(t, ws, ws[0][..t])) && n <= i < k < |ws|
    ensures Accepts(t, rest, f) && UpTo(N, rest) && Grouped(t, N, rest) && Total(rest) < Total(ws)
    ensures |rest| == |ws| - n && rest[i - n] == ws[i] && rest[k - n] == ws[k]
  {
    f := SkipFirst(t, ws, e, n);
    rest := GroupedRest(t, N, ws, n, i, k);
  }

  lemma {:induction false} AcceptedPair(t: nat, N: nat, ws: seq<Word>, e: seq<int>, i: nat, k: nat)
    requires Accepts(t, ws, e) && UpTo(N, ws) && Grouped(t, N, ws) && i < k < |ws|
    ensures !Clash(t, ws[i], ws[k])
    decreases Total(ws), 1
  {
    var n := if |ws[0]| <= t then 1 else Group(t, ws, ws[0][..t]);
    if i >= n {
      var rest, f := RestOfPair(t, N, ws, e, n, i, k);
      AcceptedPair(t, N, rest, f, i - n, k - n);
    } else {
      AcceptedFirst(t, N, ws, e, n, i, k);
    }
  }

  lemma {:induction false} AcceptedFirst(t: nat, N: nat, ws: seq<Word>, e: seq<int>, n: nat, i: nat, k: nat)
    requires Accepts(t, ws, e) && UpTo(N, ws) && Grouped(t, N, ws) && i < k < |ws|
    requires n == (if |ws[0]| <= t then 1 else Group(t, ws, ws[0][..t])) && i < n
    ensures !Clash(t, ws[i], ws[k])
    decreases Total(ws), 0
  {
    if |ws[0]| <= t {
      ShortFirst(t, ws, e, k);
    } else if n <= k {
      GroupFirst(t, N, ws, e, i, k);
    } else if Clash(t, ws[i], ws[k]) {
      var sub, bits, zeros := FirstSubtable(t, N, ws, e, i, k);
      AcceptedPair(bits, N - t, sub, zeros, i, k);
    }
  }

  // A table is built exactly when no word finds in its way an entry it cannot take.
  lemma BuildIff(t: nat, N: nat, ws: seq<Word>)
    requires t > 0 && Lengthy(ws) && UpTo(N, ws) && Grouped(t, N, ws)
    ensures BuildTable(t, ws).Accepted? <==> Quiet(t, ws)
  {
    if Quiet(t, ws) {
      BuildAccepts(t, ws);
    } else if BuildTable(t, ws).Accepted? {
      var i, k :| 0 <= i < k < |ws| && Clash(t, ws[i], ws[k]);
      AcceptedPair(t, N, ws, seq(Pow2(t), _ => 0), i, k);
    }
  }
}
