// init_vlc for the tables of read_huffman_tables: the checks on lengths and numbers, the order
// in which the words are entered, and exactly which tables come through.
module VlcInit {
  import opened CodeLengths
  import opened Sums
  import opened VlcTables

  const VLC_BITS: nat := 9

  // An element of the array that is sorted: a symbol with its word.
  datatype VlcCode = VlcCode(symbol: nat, word: Word)

  predicate KeysFit(cs: seq<VlcCode>) {
    forall i :: 0 <= i < |cs| ==> |cs[i].word| <= 31
  }

  // The word at the top of 32 bits, without the last of them.
  function Key(c: VlcCode): nat
    requires |c.word| <= 31
  {
    Value(Wide(32, c.word)) / 2
  }

  // What is known of the sort: it permutes, and the keys come out in order. Where codes with
  // equal keys go is not.
  ghost predicate Sorts(order: seq<VlcCode> -> seq<VlcCode>) {
    forall cs: seq<VlcCode> :: KeysFit(cs) ==> SortedAs(cs, order(cs))
  }

  ghost predicate SortedAs(cs: seq<VlcCode>, r: seq<VlcCode>)
    requires KeysFit(cs)
  {
    && multiset(r) == multiset(cs) && KeysFit(r)
    && forall i, k :: 0 <= i < k < |r| ==> Key(r[i]) <= Key(r[k])
  }

  predicate CanEnter(len: nat, bits: nat) {
    len <= 3 * VLC_BITS && len <= 32 && bits < Pow2(len)
  }

  predicate AllCanEnter(lens: seq<nat>, bits: seq<nat>)
    requires |lens| == |bits|
  {
    forall i :: 0 <= i < |lens| && lens[i] > 0 ==> CanEnter(lens[i], bits[i])
  }

  // The codes of the first n symbols that are longer than the table is wide, or of the others
  // that have a word.
  function Copied(lens: seq<nat>, bits: seq<nat>, n: nat, long: bool): (cs: seq<VlcCode>)
    requires |lens| == |bits| && n <= |lens|
  {
    if n == 0 then []
    else if lens[n - 1] > 0 && long == (lens[n - 1] > VLC_BITS) then
      Copied(lens, bits, n - 1, long) + [CodeOf(lens, bits, n - 1)]
    else Copied(lens, bits, n - 1, long)
  }

  function CodeOf(lens: seq<nat>, bits: seq<nat>, i: nat): VlcCode
    requires |lens| == |bits| && i < |lens|
  {
    VlcCode(i, MsbFirst(bits[i], lens[i]))
  }

  lemma {:induction false} CopiedIs(lens: seq<nat>, bits: seq<nat>, n: nat, long: bool)
    requires |lens| == |bits| && n <= |lens|
    ensures forall c :: c in Copied(lens, bits, n, long) ==>
      c.symbol < n && c == CodeOf(lens, bits, c.symbol) && lens[c.symbol] > 0 && long == (lens[c.symbol] > VLC_BITS)
    ensures forall i :: 0 <= i < n && lens[i] > 0 && long == (lens[i] > VLC_BITS) ==>
      CodeOf(lens, bits, i) in Copied(lens, bits, n, long)
    ensures forall c :: multiset(Copied(lens, bits, n, long))[c] <= 1
  {
    if n > 0 { CopiedIs(lens, bits, n - 1, long); }
  }

  // All codes in the order in which they are entered.
  function Entered(order: seq<VlcCode> -> seq<VlcCode>, lens: seq<nat>, bits: seq<nat>): seq<VlcCode>
    requires |lens| == |bits|
  {
    order(Copied(lens, bits, |lens|, true)) + Copied(lens, bits, |lens|, false)
  }

  function WordsOf(cs: seq<VlcCode>): (ws: seq<Word>)
    ensures |ws| == |cs|
  {
    seq(|cs|, i requires 0 <= i < |cs| => cs[i].word)
  }

  function InitVlc(order: seq<VlcCode> -> seq<VlcCode>, lens: seq<nat>, bits: seq<nat>): Verdict
    requires |lens| == |bits| && Sorts(order)
  {
    if !AllCanEnter(lens, bits) then Refused
    else
      EnteredIs(order, lens, bits);
      BuildTable(VLC_BITS, WordsOf(Entered(order, lens, bits)))
  }

  // A word of more than 27 bits, or a number that does not fit its length, is refused.
  lemma BadWordIsRefused(order: seq<VlcCode> -> seq<VlcCode>, lens: seq<nat>, bits: seq<nat>, i: nat)
    requires |lens| == |bits| && Sorts(order) && i < |lens| && lens[i] > 0
    requires lens[i] > 27 || bits[i] >= Pow2(lens[i])
    ensures InitVlc(order, lens, bits).Refused?
  {
    assert !CanEnter(lens[i], bits[i]);
  }

  // The code of every symbol that has a word, once.
  ghost predicate EachOnce(lens: seq<nat>, bits: seq<nat>, m: multiset<VlcCode>)
    requires |lens| == |bits|
  {
    && (forall c :: c in m ==> c.symbol < |lens| && c == CodeOf(lens, bits, c.symbol) && lens[c.symbol] > 0)
    && (forall i :: 0 <= i < |lens| && lens[i] > 0 ==> CodeOf(lens, bits, i) in m)
    && (forall c :: m[c] <= 1)
  }

  // A code is copied at most once, with the long ones or with the others.
  lemma CopiedAtMostOnce(lens: seq<nat>, bits: seq<nat>, c: VlcCode)
    requires |lens| == |bits|
    ensures multiset(Copied(lens, bits, |lens|, true))[c] + multiset(Copied(lens, bits, |lens|, false))[c] <= 1
  {
    CopiedIs(lens, bits, |lens|, true);
    CopiedIs(lens, bits, |lens|, false);
    var longs, shorts := Copied(lens, bits, |lens|, true), Copied(lens, bits, |lens|, false);
    assert multiset(longs)[c] <= 1 && multiset(shorts)[c] <= 1;
    assert multiset(longs)[c] > 0 ==> c in longs;
    assert multiset(shorts)[c] > 0 ==> c in shorts;
  }

  lemma CopiedCode(lens: seq<nat>, bits: seq<nat>, c: VlcCode)
    requires |lens| == |bits|
    requires c in Copied(lens, bits, |lens|, true) || c in Copied(lens, bits, |lens|, false)
    ensures c.symbol < |lens| && c == CodeOf(lens, bits, c.symbol) && lens[c.symbol] > 0
  {
    CopiedIs(lens, bits, |lens|, true);
    CopiedIs(lens, bits, |lens|, false);
  }

  lemma SymbolCopied(lens: seq<nat>, bits: seq<nat>, i: nat)
    requires |lens| == |bits| && i < |lens| && lens[i] > 0
    ensures CodeOf(lens, bits, i) in Copied(lens, bits, |lens|, lens[i] > VLC_BITS)
  {
    CopiedIs(lens, bits, |lens|, lens[i] > VLC_BITS);
  }

  lemma CopiedOnce(lens: seq<nat>, bits: seq<nat>)
    requires |lens| == |bits|
    ensures EachOnce(lens, bits, multiset(Copied(lens, bits, |lens|, true))
      + multiset(Copied(lens, bits, |lens|, false)))
  {
    var m := multiset(Copied(lens, bits, |lens|, true)) + multiset(Copied(lens, bits, |lens|, false));
    forall c | c in m ensures c.symbol < |lens| && c == CodeOf(lens, bits, c.symbol) && lens[c.symbol] > 0 {
      CopiedCode(lens, bits, c);
    }
    forall i: nat | i < |lens| && lens[i] > 0 ensures CodeOf(lens, bits, i) in m {
      SymbolCopied(lens, bits, i);
    }
    forall c ensures m[c] <= 1 {
      CopiedAtMostOnce(lens, bits, c);
    }
  }

  lemma LongsFit(lens: seq<nat>, bits: seq<nat>)
    requires |lens| == |bits| && AllCanEnter(lens, bits)
    ensures KeysFit(Copied(lens, bits, |lens|, true))
  {
    CopiedIs(lens, bits, |lens|, true);
    var longs := Copied(lens, bits, |lens|, true);
    forall i | 0 <= i < |longs| ensures |longs[i].word| <= 31 {
      assert longs[i] in longs;
    }
  }

  // Every symbol that has a word is entered once, long words in order before the others.
  lemma EnteredIs(order: seq<VlcCode> -> seq<VlcCode>, lens: seq<nat>, bits: seq<nat>)
    requires |lens| == |bits| && Sorts(order) && AllCanEnter(lens, bits)
    ensures KeysFit(Copied(lens, bits, |lens|, true))
    ensures SortedAs(Copied(lens, bits, |lens|, true), order(Copied(lens, bits, |lens|, true)))
    ensures EachOnce(lens, bits, multiset(Entered(order, lens, bits)))
    ensures Lengthy(WordsOf(Entered(order, lens, bits)))
  {
    LongsFit(lens, bits);
    CopiedOnce(lens, bits);
    var all := Entered(order, lens, bits);
    forall i | 0 <= i < |all| ensures all[i].word != [] {
      assert all[i] in multiset(all);
    }
  }

  // ---------- Which tables come through ----------

  lemma WideHalf(N: nat, w: Word)
    requires |w| <= N
    ensures Value(Wide(N + 1, w)) / 2 == Value(Wide(N, w))
  {
    assert Wide(N + 1, w)[..N] == Wide(N, w);
  }

  lemma KeyOrder(cs: seq<VlcCode>)
    requires KeysFit(cs) && forall i, k :: 0 <= i < k < |cs| ==> Key(cs[i]) <= Key(cs[k])
    ensures UpTo(31, WordsOf(cs)) && Sorted(31, WordsOf(cs))
  {
    forall i | 0 <= i < |cs| ensures Key(cs[i]) == Value(Wide(31, cs[i].word)) {
      WideHalf(31, cs[i].word);
    }
  }

  lemma GroupedThenShort(t: nat, N: nat, a: seq<Word>, b: seq<Word>)
    requires UpTo(N, a) && Grouped(t, N, a) && UpTo(N, b) && UpTo(t, b)
    ensures UpTo(N, a + b) && Grouped(t, N, a + b)
  {
    var all := a + b;
    assert forall i :: 0 <= i < |all| && |all[i]| > t ==> i < |a| && all[i] == a[i];
    forall i, m, k | 0 <= i < m < k < |all| && |all[i]| > t && |all[k]| > t && all[i][..t] == all[k][..t]
      ensures MeetsStart(t, all[m], all[i])
    {
      assert MeetsStart(t, a[m], a[i]);
    }
  }

  lemma ShortsFit(lens: seq<nat>, bits: seq<nat>)
    requires |lens| == |bits|
    ensures UpTo(VLC_BITS, WordsOf(Copied(lens, bits, |lens|, false)))
  {
    CopiedIs(lens, bits, |lens|, false);
    var shorts := Copied(lens, bits, |lens|, false);
    forall i | 0 <= i < |shorts| ensures |shorts[i].word| <= VLC_BITS {
      assert shorts[i] in shorts;
    }
  }

  lemma EnteredGrouped(order: seq<VlcCode> -> seq<VlcCode>, lens: seq<nat>, bits: seq<nat>)
    requires |lens| == |bits| && Sorts(order) && AllCanEnter(lens, bits)
    ensures UpTo(31, WordsOf(Entered(order, lens, bits)))
    ensures Grouped(VLC_BITS, 31, WordsOf(Entered(order, lens, bits)))
  {
    LongsFit(lens, bits);
    ShortsFit(lens, bits);
    var longs, shorts := order(Copied(lens, bits, |lens|, true)), Copied(lens, bits, |lens|, false);
    assert SortedAs(Copied(lens, bits, |lens|, true), longs);
    KeyOrder(longs);
    SortedIsGrouped(VLC_BITS, 31, WordsOf(longs));
    GroupedThenShort(VLC_BITS, 31, WordsOf(longs), WordsOf(shorts));
    assert WordsOf(Entered(order, lens, bits)) == WordsOf(longs) + WordsOf(shorts);
  }

  // Symbol i has a word with which the longer word of symbol k begins.
  predicate Overlaps(lens: seq<nat>, bits: seq<nat>, i: nat, k: nat)
    requires |lens| == |bits| && i < |lens| && k < |lens|
  {
    0 < lens[i] < lens[k] && MsbFirst(bits[i], lens[i]) <= MsbFirst(bits[k], lens[k])
  }

  ghost predicate EnteredBefore(cs: seq<VlcCode>, i: nat, k: nat) {
    exists a, b :: 0 <= a < b < |cs| && cs[a].symbol == i && cs[b].symbol == k
  }

  // The shorter word ends in a table above the longer one's, and comes before it.
  ghost predicate Overlooked(order: seq<VlcCode> -> seq<VlcCode>, lens: seq<nat>, bits: seq<nat>, i: nat, k: nat)
    requires |lens| == |bits| && i < |lens| && k < |lens|
  {
    Level(VLC_BITS, lens[i]) < Level(VLC_BITS, lens[k]) && EnteredBefore(Entered(order, lens, bits), i, k)
  }

  lemma EnteredAt(cs: seq<VlcCode>, lens: seq<nat>, bits: seq<nat>, i: nat) returns (a: nat)
    requires |lens| == |bits| && EachOnce(lens, bits, multiset(cs)) && i < |lens| && lens[i] > 0
    ensures a < |cs| && cs[a] == CodeOf(lens, bits, i)
  {
    assert CodeOf(lens, bits, i) in cs;
    a :| a < |cs| && cs[a] == CodeOf(lens, bits, i);
  }

  lemma OncePlaced(cs: seq<VlcCode>, a: nat, b: nat)
    requires (forall c :: multiset(cs)[c] <= 1) && a < b < |cs|
    ensures cs[a] != cs[b]
  {
    var front, back, x, y := cs[..b], cs[b..], cs[a], cs[b];
    assert cs == front + back && front[a] == x && back[0] == y;
    assert x in front && y in back;
    assert multiset(cs)[x] == multiset(front)[x] + multiset(back)[x];
  }

  // Two entered codes clash exactly when they overlap and are not overlooked.
  lemma QuietEntered(cs: seq<VlcCode>, lens: seq<nat>, bits: seq<nat>, a: nat, b: nat)
    requires |lens| == |bits| && EachOnce(lens, bits, multiset(cs)) && a < b < |cs|
    ensures cs[a].symbol < |lens| && cs[b].symbol < |lens|
    ensures var i, k := cs[a].symbol, cs[b].symbol;
      Clash(VLC_BITS, cs[a].word, cs[b].word) <==>
        (Overlaps(lens, bits, i, k) && Level(VLC_BITS, lens[i]) >= Level(VLC_BITS, lens[k]))
          || Overlaps(lens, bits, k, i)
  {
    assert cs[a] in multiset(cs) && cs[b] in multiset(cs);
    var u, w := cs[a].word, cs[b].word;
    ClashIff(VLC_BITS, u, w);
    if |w| <= |u| { LevelMonotone(VLC_BITS, |w|, |u|); }
  }

  ghost predicate NoneNoticed(order: seq<VlcCode> -> seq<VlcCode>, lens: seq<nat>, bits: seq<nat>)
    requires |lens| == |bits|
  {
    forall i, k :: 0 <= i < |lens| && 0 <= k < |lens| && Overlaps(lens, bits, i, k)
      ==> Overlooked(order, lens, bits, i, k)
  }

  lemma QuietOverlooks(cs: seq<VlcCode>, lens: seq<nat>, bits: seq<nat>, i: nat, k: nat)
    requires |lens| == |bits| && EachOnce(lens, bits, multiset(cs)) && Quiet(VLC_BITS, WordsOf(cs))
    requires i < |lens| && k < |lens| && Overlaps(lens, bits, i, k)
    ensures Level(VLC_BITS, lens[i]) < Level(VLC_BITS, lens[k]) && EnteredBefore(cs, i, k)
  {
    var a := EnteredAt(cs, lens, bits, i);
    var b := EnteredAt(cs, lens, bits, k);
    var ws := WordsOf(cs);
    if a < b {
      QuietEntered(cs, lens, bits, a, b);
      assert !Clash(VLC_BITS, ws[a], ws[b]);
    } else {
      assert !Clash(VLC_BITS, ws[b], ws[a]);
      QuietEntered(cs, lens, bits, b, a);
    }
  }

  // No later code with the symbol of an earlier one.
  lemma NotBefore(cs: seq<VlcCode>, lens: seq<nat>, bits: seq<nat>, a: nat, b: nat)
    requires |lens| == |bits| && EachOnce(lens, bits, multiset(cs)) && a < b < |cs|
    ensures !EnteredBefore(cs, cs[b].symbol, cs[a].symbol)
  {
    if c, d :| 0 <= c < d < |cs| && cs[c].symbol == cs[b].symbol && cs[d].symbol == cs[a].symbol {
      SymbolOnce(cs, lens, bits, b, c);
      SymbolOnce(cs, lens, bits, a, d);
    }
  }

  lemma SymbolOnce(cs: seq<VlcCode>, lens: seq<nat>, bits: seq<nat>, a: nat, b: nat)
    requires |lens| == |bits| && EachOnce(lens, bits, multiset(cs)) && a < |cs| && b < |cs|
      && cs[a].symbol == cs[b].symbol
    ensures a == b
  {
    assert cs[a] in multiset(cs) && cs[b] in multiset(cs);
    if a < b { OncePlaced(cs, a, b); } else if b < a { OncePlaced(cs, b, a); }
  }

  lemma InitBuilds(order: seq<VlcCode> -> seq<VlcCode>, lens: seq<nat>, bits: seq<nat>) returns (cs: seq<VlcCode>)
    requires |lens| == |bits| && Sorts(order) && AllCanEnter(lens, bits)
    ensures cs == Entered(order, lens, bits) && EachOnce(lens, bits, multiset(cs))
    ensures InitVlc(order, lens, bits).Accepted? <==> Quiet(VLC_BITS, WordsOf(cs))
  {
    cs := Entered(order, lens, bits);
    EnteredIs(order, lens, bits);
    EnteredGrouped(order, lens, bits);
    BuildIff(VLC_BITS, 31, WordsOf(cs));
  }

  lemma QuietWhenNoneNoticed(order: seq<VlcCode> -> seq<VlcCode>, lens: seq<nat>, bits: seq<nat>, cs: seq<VlcCode>)
    requires |lens| == |bits| && cs == Entered(order, lens, bits) && EachOnce(lens, bits, multiset(cs))
    requires NoneNoticed(order, lens, bits)
    ensures Quiet(VLC_BITS, WordsOf(cs))
  {
    forall a, b | 0 <= a < b < |cs| ensures !Clash(VLC_BITS, cs[a].word, cs[b].word) {
      QuietEntered(cs, lens, bits, a, b);
      NotBefore(cs, lens, bits, a, b);
    }
  }

  // Tables that pass the checks come through exactly when every word with which another begins
  // is overlooked. It then has more than 9 bits, the other has more than one subtable further
  // down, and equal keys happen to be sorted that way.
  lemma InitIff(order: seq<VlcCode> -> seq<VlcCode>, lens: seq<nat>, bits: seq<nat>)
    requires |lens| == |bits| && Sorts(order) && AllCanEnter(lens, bits)
    ensures InitVlc(order, lens, bits).Accepted? <==> NoneNoticed(order, lens, bits)
  {
    var cs := InitBuilds(order, lens, bits);
    if Quiet(VLC_BITS, WordsOf(cs)) {
      forall i, k | 0 <= i < |lens| && 0 <= k < |lens| && Overlaps(lens, bits, i, k)
        ensures Overlooked(order, lens, bits, i, k)
      {
        QuietOverlooks(cs, lens, bits, i, k);
      }
    }
    if NoneNoticed(order, lens, bits) { QuietWhenNoneNoticed(order, lens, bits, cs); }
  }

  lemma PlaceByLength(order: seq<VlcCode> -> seq<VlcCode>, lens: seq<nat>, bits: seq<nat>, a: nat)
    requires |lens| == |bits| && Sorts(order) && AllCanEnter(lens, bits) && a < |Entered(order, lens, bits)|
    ensures Entered(order, lens, bits)[a].symbol < |lens|
    ensures a < |order(Copied(lens, bits, |lens|, true))| <==> lens[Entered(order, lens, bits)[a].symbol] > VLC_BITS
  {
    LongsFit(lens, bits);
    CopiedIs(lens, bits, |lens|, true);
    CopiedIs(lens, bits, |lens|, false);
    var longs, shorts := Copied(lens, bits, |lens|, true), Copied(lens, bits, |lens|, false);
    assert SortedAs(longs, order(longs));
    var c := Entered(order, lens, bits)[a];
    if a < |order(longs)| {
      assert c in multiset(order(longs));
      assert c in longs;
    } else {
      assert c == shorts[a - |order(longs)|];
    }
  }

  // A word of at most 9 bits is entered after all longer ones.
  lemma ShortsComeLast(order: seq<VlcCode> -> seq<VlcCode>, lens: seq<nat>, bits: seq<nat>, i: nat, k: nat)
    requires |lens| == |bits| && Sorts(order) && AllCanEnter(lens, bits) && i < |lens| && k < |lens|
    requires 0 < lens[i] <= VLC_BITS < lens[k]
    ensures !EnteredBefore(Entered(order, lens, bits), i, k)
  {
    var cs := Entered(order, lens, bits);
    forall a | 0 <= a < |cs|
      ensures cs[a].symbol < |lens|
      ensures a < |order(Copied(lens, bits, |lens|, true))| <==> lens[cs[a].symbol] > VLC_BITS
    {
      PlaceByLength(order, lens, bits, a);
    }
  }
}
