// read_huffman_tables as the source runs it: the frequency table is read from the stream,
// the merge loop works in place on three arrays, and the walk up the links fills the tables
// of lengths and bits.
module HuffmanTables {
  import opened Sums
  import opened CodeLengths
  import opened Forests
  import opened HuffmanCode
  import opened HuffmanDepth
  import opened VlcTables
  import opened VlcInit

  // ---------- Reading the frequencies ----------

  function Overlay(freq: seq<nat>, at: nat, values: seq<nat>): (r: seq<nat>)
    requires at + |values| <= |freq|
    ensures |r| == |freq|
  {
    freq[..at] + values + freq[at + |values|..]
  }

  lemma OverlayNext(freq: seq<nat>, at: nat, values: seq<nat>, x: nat)
    requires at + |values| < |freq|
    ensures Overlay(freq, at, values + [x]) == Overlay(freq, at, values)[at + |values| := x]
  {
  }

  // The bytes of a table, and the zero padding every input buffer carries; `size` counts the
  // former.
  predicate Padded(buf: seq<nat>, size: nat) {
    |buf| >= size + 64 && forall i :: 0 <= i < |buf| ==> buf[i] <= 255
  }

  // Runs of frequencies for the byte values start..end, from ptr on, up to a zero start; where
  // the table ends.
  datatype Reading = Overrun | Read(freq: seq<nat>, ptr: nat)

  function ReadRuns(buf: seq<nat>, size: nat, ptr: nat, start: nat, end: nat, freq: seq<nat>): Reading
    requires Padded(buf, size) && ptr <= size + 2 && start <= 255 && end <= 255 && |freq| == NODES
    decreases size + 2 - ptr
  {
    var n := if end < start then 0 else end - start + 1;
    if size - ptr < n + 1 then Overrun
    else
      var f := Overlay(freq, start, buf[ptr..ptr + n]);
      if buf[ptr + n] == 0 then Read(f, ptr + n + 1)
      else ReadRuns(buf, size, ptr + n + 2, buf[ptr + n], buf[ptr + n + 1], f)
  }

  function Aligned(n: nat): (r: nat)
    ensures n <= r < n + 4 && r % 4 == 0
  {
    if n % 4 == 0 then n else n + (4 - n % 4)
  }

  // A table in the form it has in the stream.
  datatype Run = Run(start: nat, values: seq<nat>) {
    predicate Valid() {
      values != [] && start + |values| <= 256 && forall i :: 0 <= i < |values| ==> values[i] <= 255
    }
  }

  predicate ValidRuns(runs: seq<Run>) {
    && runs != []
    && (forall k :: 0 <= k < |runs| ==> runs[k].Valid())
    && (forall k :: 0 < k < |runs| ==> runs[k].start > 0)
  }

  function Wire(runs: seq<Run>): seq<nat>
    requires ValidRuns(runs)
  {
    var r := runs[0];
    [r.start, r.start + |r.values| - 1] + r.values + (if |runs| == 1 then [0] else Wire(runs[1..]))
  }

  function Applied(freq: seq<nat>, runs: seq<Run>): seq<nat>
    requires |freq| == NODES && forall k :: 0 <= k < |runs| ==> runs[k].Valid()
    decreases |runs|
  {
    if runs == [] then freq
    else
      assert runs[0].Valid();
      Applied(Overlay(freq, runs[0].start, runs[0].values), runs[1..])
  }

  // The run has a frequency for symbol i.
  predicate Covers(r: Run, i: nat) {
    r.start <= i < r.start + |r.values|
  }

  // It is the last of the runs that has.
  predicate LastToCover(runs: seq<Run>, i: nat, k: nat) {
    k < |runs| && Covers(runs[k], i) && forall m :: k < m < |runs| ==> !Covers(runs[m], i)
  }

  // Every symbol has the frequency of the last run that covers it.
  lemma {:induction false} AppliedAt(freq: seq<nat>, runs: seq<Run>, i: nat)
    requires |freq| == NODES && (forall k :: 0 <= k < |runs| ==> runs[k].Valid()) && i < NODES
    ensures |Applied(freq, runs)| == NODES
    ensures (forall k :: 0 <= k < |runs| ==> !Covers(runs[k], i)) ==> Applied(freq, runs)[i] == freq[i]
    ensures forall k: nat :: LastToCover(runs, i, k) ==> Applied(freq, runs)[i] == runs[k].values[i - runs[k].start]
    decreases |runs|
  {
    if runs != [] {
      var first, rest := runs[0], runs[1..];
      assert first.Valid() && forall k :: 0 <= k < |rest| ==> rest[k] == runs[k + 1];
      AppliedAt(Overlay(freq, first.start, first.values), rest, i);
      forall k: nat | LastToCover(runs, i, k) ensures Applied(freq, runs)[i] == runs[k].values[i - runs[k].start] {
        if k > 0 { assert LastToCover(rest, i, k - 1); }
      }
    }
  }

  lemma Within(buf: seq<nat>, at: nat, w: seq<nat>, i: nat, j: nat)
    requires at + |w| <= |buf| && buf[at..at + |w|] == w && i <= j <= |w|
    ensures buf[at + i..at + j] == w[i..j]
    ensures i < |w| ==> buf[at + i] == w[i]
  {
    var whole := buf[at..at + |w|];
    assert i < |w| ==> whole[i] == buf[at + i];
    forall k | 0 <= k < j - i ensures buf[at + i..at + j][k] == w[i..j][k] {
      assert whole[i + k] == buf[at + (i + k)];
    }
  }

  lemma WireParts(runs: seq<Run>)
    requires ValidRuns(runs)
    ensures var r, w := runs[0], Wire(runs);
      var n := |r.values|;
      && |w| > 2 + n > 2 && w[0] == r.start && w[1] == r.start + n - 1 && w[2..2 + n] == r.values
      && (|runs| == 1 ==> |w| == 3 + n && w[2 + n] == 0)
      && (|runs| > 1 ==> ValidRuns(runs[1..]) && |w| == 2 + n + |Wire(runs[1..])| && w[2 + n..|w|] == Wire(runs[1..]))
  {
    assert runs[0].Valid();
    var w := Wire(runs);
    assert w[2 + |runs[0].values|..|w|] == w[2 + |runs[0].values|..];
  }

  lemma RunsGoOn(buf: seq<nat>, size: nat, ptr: nat, start: nat, end: nat, freq: seq<nat>, next: nat)
    requires Padded(buf, size) && ptr <= next < size && start <= 255 && end <= 255 && |freq| == NODES
    requires next - ptr == if end < start then 0 else end - start + 1
    ensures var f := Overlay(freq, start, buf[ptr..next]);
      ReadRuns(buf, size, ptr, start, end, freq)
        == if buf[next] == 0 then Read(f, next + 1) else ReadRuns(buf, size, next + 2, buf[next], buf[next + 1], f)
  {
  }

  // The buffer holds the runs from `at` on.
  ghost predicate Holds(buf: seq<nat>, size: nat, at: nat, runs: seq<Run>) {
    && Padded(buf, size) && ValidRuns(runs)
    && at + |Wire(runs)| <= size && buf[at..at + |Wire(runs)|] == Wire(runs)
  }

  lemma HoldsRest(buf: seq<nat>, size: nat, at: nat, runs: seq<Run>, next: nat)
    requires Holds(buf, size, at, runs) && next == at + 2 + |runs[0].values|
    ensures next < size && (|runs| == 1 ==> buf[next] == 0 && at + |Wire(runs)| == next + 1)
    ensures |runs| > 1 ==>
      Holds(buf, size, next, runs[1..]) && next + |Wire(runs[1..])| == at + |Wire(runs)| && buf[next] > 0
  {
    WireParts(runs);
    Within(buf, at, Wire(runs), next - at, |Wire(runs)|);
    if |runs| > 1 {
      assert runs[1..][0] == runs[1];
      MoreHeld(buf, size, next, runs[1..], at + |Wire(runs)|);
    }
  }

  lemma MoreHeld(buf: seq<nat>, size: nat, next: nat, more: seq<Run>, end: nat)
    requires Padded(buf, size) && ValidRuns(more) && more[0].start > 0
    requires next <= end <= size && buf[next..end] == Wire(more)
    ensures Holds(buf, size, next, more) && next < size && buf[next] > 0
  {
    WireParts(more);
    Within(buf, next, Wire(more), 0, 0);
  }

  // The first run as it stands in the buffer.
  lemma FirstHeld(buf: seq<nat>, size: nat, at: nat, runs: seq<Run>, next: nat)
    requires Holds(buf, size, at, runs) && next == at + 2 + |runs[0].values|
    ensures next < size && |runs[0].values| > 0
    ensures buf[at] == runs[0].start && buf[at + 1] == runs[0].start + |runs[0].values| - 1
    ensures buf[at + 2..next] == runs[0].values
  {
    var wire := Wire(runs);
    WireParts(runs);
    Within(buf, at, wire, 0, 0);
    Within(buf, at, wire, 1, 1);
    Within(buf, at, wire, 2, next - at);
  }

  lemma ReadFirst(buf: seq<nat>, size: nat, at: nat, runs: seq<Run>, freq: seq<nat>, next: nat)
    requires Holds(buf, size, at, runs) && |freq| == NODES && next == at + 2 + |runs[0].values|
    ensures runs[0].Valid() && next < size
    ensures var f := Overlay(freq, runs[0].start, runs[0].values);
      ReadRuns(buf, size, at + 2, buf[at], buf[at + 1], freq)
        == if buf[next] == 0 then Read(f, next + 1) else ReadRuns(buf, size, next + 2, buf[next], buf[next + 1], f)
  {
    assert runs[0].Valid();
    FirstHeld(buf, size, at, runs, next);
    RunsGoOn(buf, size, at + 2, buf[at], buf[at + 1], freq, next);
  }

  // Reading what was written gives the frequencies of the runs, later ones over earlier ones.
  lemma {:induction false} ReadWire(buf: seq<nat>, size: nat, at: nat, runs: seq<Run>, freq: seq<nat>)
    requires Holds(buf, size, at, runs) && |freq| == NODES
    ensures at + 1 < |buf| && buf[at] <= 255 && buf[at + 1] <= 255
    ensures ReadRuns(buf, size, at + 2, buf[at], buf[at + 1], freq) == Read(Applied(freq, runs), at + |Wire(runs)|)
    decreases |runs|
  {
    var next := at + 2 + |runs[0].values|;
    HoldsRest(buf, size, at, runs, next);
    ReadFirst(buf, size, at, runs, freq, next);
    if |runs| > 1 {
      ReadWire(buf, size, next, runs[1..], Overlay(freq, runs[0].start, runs[0].values));
    }
  }

  // A table is accepted only if it ends within the input.
  lemma {:induction false} EndsInside(buf: seq<nat>, size: nat, ptr: nat, start: nat, end: nat, freq: seq<nat>)
    requires Padded(buf, size) && ptr <= size + 2 && start <= 255 && end <= 255 && |freq| == NODES
    ensures var r := ReadRuns(buf, size, ptr, start, end, freq); r.Read? ==> ptr < r.ptr <= size && |r.freq| == NODES
    decreases size + 2 - ptr
  {
    var next := ptr + if end < start then 0 else end - start + 1;
    if next < size {
      RunsGoOn(buf, size, ptr, start, end, freq, next);
      if buf[next] != 0 {
        EndsInside(buf, size, next + 2, buf[next], buf[next + 1], Overlay(freq, start, buf[ptr..next]));
      }
    }
  }

  // Returns the position after the table.
  method ReadFrequencies(buf: seq<nat>, size: nat, frequency: array<nat>) returns (ok: bool, ptr: nat)
    requires Padded(buf, size)
    requires frequency.Length == NODES && forall i :: 0 <= i < NODES ==> frequency[i] == 0
    modifies frequency
    ensures var r := ReadRuns(buf, size, 2, buf[0], buf[1], old(frequency[..]));
      && ok == (r.Read? && Aligned(r.ptr) <= size)
      && (ok ==> |r.freq| == NODES && frequency[..] == r.freq[256 := 1] && ptr == Aligned(r.ptr))
    ensures ok ==> Table(frequency[..])
  {
    ok, ptr := ReadAllRuns(buf, size, frequency);
    if ok {
      frequency[256] := 1;
      ptr := Align(ptr);
      ok := ptr <= size;
    }
  }

  // The loop over the runs.
  method ReadAllRuns(buf: seq<nat>, size: nat, frequency: array<nat>) returns (ok: bool, ptr: nat)
    requires Padded(buf, size) && Bytes(frequency[..])
    modifies frequency
    ensures var r := ReadRuns(buf, size, 2, buf[0], buf[1], old(frequency[..]));
      if ok then r == Read(frequency[..], ptr) else r.Overrun?
    ensures Bytes(frequency[..])
  {
    ok, ptr := false, 2;
    var start: nat, end: nat := buf[0], buf[1];
    ghost var all := ReadRuns(buf, size, 2, start, end, frequency[..]);
    while true
      invariant 2 <= ptr <= size + 2 && start <= 255 && end <= 255
      invariant Bytes(frequency[..])
      invariant all == ReadRuns(buf, size, ptr, start, end, frequency[..])
      decreases size + 2 - ptr
    {
      var run := if end < start then 0 else end - start + 1;
      if size - ptr < run + 1 {
        return;
      }
      RunsGoOn(buf, size, ptr, start, end, frequency[..], ptr + run);
      ptr := CopyRun(buf, ptr, start, end, frequency);
      start := buf[ptr];
      ptr := ptr + 1;
      if start == 0 {
        break;
      }
      end := buf[ptr];
      ptr := ptr + 1;
    }
    ok := true;
  }

  // The loop that moves on to a multiple of four.
  method Align(from: nat) returns (ptr: nat)
    ensures ptr == Aligned(from)
  {
    ptr := from;
    while ptr % 4 != 0
      invariant from <= ptr <= Aligned(from)
      decreases Aligned(from) - ptr
    {
      ptr := ptr + 1;
    }
  }

  // What may stand in the array while the runs are read.
  ghost predicate Bytes(freq: seq<nat>) {
    && |freq| == NODES
    && (forall i :: 0 <= i < 256 ==> freq[i] <= 255)
    && (forall i :: 256 <= i < NODES ==> freq[i] == 0)
  }

  method CopyRun(buf: seq<nat>, from: nat, start: nat, end: nat, frequency: array<nat>) returns (ptr: nat)
    requires start <= 255 && end <= 255 && Bytes(frequency[..])
    requires from + (if end < start then 0 else end - start + 1) <= |buf|
    requires forall i :: 0 <= i < |buf| ==> buf[i] <= 255
    modifies frequency
    ensures var n := if end < start then 0 else end - start + 1;
      && ptr == from + n && Bytes(frequency[..])
      && frequency[..] == Overlay(old(frequency[..]), start, buf[from..from + n])
  {
    ptr := from;
    var i := start;
    while i <= end
      invariant i == start || start <= i <= end + 1
      invariant ptr == from + (i - start)
      invariant Bytes(frequency[..])
      invariant frequency[..] == Overlay(old(frequency[..]), start, buf[from..ptr])
    {
      OverlayNext(old(frequency[..]), start, buf[from..ptr], buf[ptr]);
      assert buf[from..ptr + 1] == buf[from..ptr] + [buf[ptr]];
      frequency[i] := buf[ptr];
      ptr := ptr + 1;
      i := i + 1;
    }
  }

  // ---------- The merge loop ----------

  // One scan for the two lightest live nodes below j; the sentinel stands for "none".
  method FindTwoLeast(frequency: array<nat>, j: nat) returns (min0: nat, min1: nat, smallest0: nat, smallest1: nat)
    requires j <= frequency.Length
    requires forall i :: 0 <= i < j ==> frequency[i] < SENTINEL
    ensures min1 == SENTINEL ==> forall a: nat, b: nat :: !TwoLeast(frequency[..], j, a, b)
    ensures min1 != SENTINEL ==>
      TwoLeast(frequency[..], j, smallest0, smallest1) && min0 == frequency[smallest0] && min1 == frequency[smallest1]
  {
    min0, min1, smallest0, smallest1 := SENTINEL, SENTINEL, 0, 0;
    ghost var freq := frequency[..];
    for i := 0 to j
      invariant min1 != SENTINEL ==>
        TwoLeast(freq, i, smallest0, smallest1) && min0 == freq[smallest0] && min1 == freq[smallest1]
      invariant min1 == SENTINEL && min0 != SENTINEL ==>
        smallest0 < i && 0 < freq[smallest0] == min0 && forall k :: 0 <= k < i && k != smallest0 ==> freq[k] == 0
      invariant min1 == SENTINEL && min0 == SENTINEL ==> forall k :: 0 <= k < i ==> freq[k] == 0
      invariant min0 <= min1 <= SENTINEL
    {
      if frequency[i] == 0 {
      } else if frequency[i] < min1 {
        if frequency[i] < min0 {
          min1, smallest1 := min0, smallest0;
          min0, smallest0 := frequency[i], i;
        } else {
          min1, smallest1 := frequency[i], i;
        }
      }
    }
  }

  lemma WeightsBelowSentinel(freq: seq<nat>, f0: seq<nat>)
    requires Sum(freq) == Sum(f0) && Table(f0)
    ensures forall i :: 0 <= i < |freq| ==> freq[i] < SENTINEL
  {
    TableWeight(f0);
    forall i: nat | i < |freq| ensures freq[i] < SENTINEL {
      SumAtLeast(freq, i);
    }
  }

  // Makes node j the parent of the two nodes found.
  method JoinNodes(frequency: array<nat>, up: array<int>, flag: array<nat>, j: nat,
                   min0: nat, min1: nat, smallest0: nat, smallest1: nat)
    requires frequency.Length == up.Length == flag.Length == NODES && frequency != flag
    requires smallest0 < j < NODES && smallest1 < j && smallest0 != smallest1
    requires min0 == frequency[smallest0] && min1 == frequency[smallest1]
    modifies frequency, up, flag
    ensures Forest(frequency[..], up[..], flag[..])
      == old(MergeAt(Forest(frequency[..], up[..], flag[..]), j, smallest0, smallest1))
  {
    frequency[j] := min0 + min1;
    flag[smallest0] := 0;
    flag[smallest1] := 1;
    up[smallest0] := j;
    up[smallest1] := j;
    frequency[smallest0] := 0;
    frequency[smallest1] := 0;
  }

  // What holds between two rounds of the loop.
  ghost predicate Underway(f0: seq<nat>, s: Forest, j: nat)
    requires Table(f0)
  {
    && |s.freq| == |s.up| == |s.flag| == NODES && SYMBOLS <= j <= NODES
    && Build(s, j) == Final(f0) && Sum(s.freq) == Sum(f0)
    && forall i :: j <= i < NODES ==> s.freq[i] == 0
  }

  lemma MergeKeepsUnderway(f0: seq<nat>, s: Forest, j: nat, a: nat, b: nat)
    requires Table(f0) && Underway(f0, s, j) && j < NODES && TwoLeast(s.freq, j, a, b)
    ensures Underway(f0, MergeAt(s, j, a, b), j + 1)
  {
    MergeConserves(s.freq, a, b, j, MergeAt(s, j, a, b).freq);
    var Pair(c, d) := Pick(s.freq, j);
    TwoLeastUnique(s.freq, j, a, b, c, d);
  }

  lemma StopsHere(f0: seq<nat>, s: Forest, j: nat)
    requires Table(f0) && Underway(f0, s, j)
    requires j == NODES || forall a: nat, b: nat :: !TwoLeast(s.freq, j, a, b)
    ensures s == Final(f0)
  {
  }

  // The loop over the merge nodes 257..511, in place.
  method MergeNodes(frequency: array<nat>, up: array<int>, flag: array<nat>)
    requires frequency.Length == up.Length == flag.Length == NODES && frequency != flag
    requires Table(frequency[..]) && Forest(frequency[..], up[..], flag[..]) == Initial(frequency[..])
    modifies frequency, up, flag
    ensures Forest(frequency[..], up[..], flag[..]) == Final(old(frequency[..]))
  {
    ghost var f0 := frequency[..];
    var j := SYMBOLS;
    while j < NODES
      invariant Underway(f0, Forest(frequency[..], up[..], flag[..]), j)
    {
      ghost var s := Forest(frequency[..], up[..], flag[..]);
      WeightsBelowSentinel(s.freq, f0);
      var min0, min1, smallest0, smallest1 := FindTwoLeast(frequency, j);
      if min1 == SENTINEL {
        break;
      }
      MergeKeepsUnderway(f0, s, j, smallest0, smallest1);
      JoinNodes(frequency, up, flag, j, min0, min1, smallest0, smallest1);
      j := j + 1;
    }
    StopsHere(f0, Forest(frequency[..], up[..], flag[..]), j);
  }

  // ---------- The walk up the links ----------

  // Length and bits of one symbol's word; `overflow` tells whether the length test fired.
  method WalkUp(up: array<int>, flag: array<nat>, symbol: nat) returns (bits: nat, len: nat, overflow: bool)
    requires up.Length == flag.Length == NODES && symbol < NODES && Rising(up[..])
    requires forall i :: 0 <= i < NODES && up[i] != -1 ==> flag[i] <= 1
    ensures len == |PathWord(up[..], flag[..], symbol)| && bits == Value(PathWord(up[..], flag[..], symbol))
    ensures overflow <==> len > 31
  {
    var node := symbol;
    bits, len, overflow := 0, 0, false;
    ghost var w: Word := [];
    while up[node] != -1
      invariant node < NODES
      invariant PathWord(up[..], flag[..], symbol) == PathWord(up[..], flag[..], node) + w
      invariant len == |w| && bits == Value(w)
      invariant overflow <==> len > 31
      decreases NODES - node
    {
      ghost var b := flag[node] == 1;
      ValueCons(b, w);
      assert PathWord(up[..], flag[..], node) + w == PathWord(up[..], flag[..], up[node]) + ([b] + w);
      w := [b] + w;
      bits := bits + flag[node] * Pow2(len);
      len := len + 1;
      if len > 31 {
        overflow := true;
      }
      node := up[node];
    }
    assert PathWord(up[..], flag[..], symbol) == w;
  }

  lemma LinksAreWalkable(freq: seq<nat>)
    requires Table(freq)
    ensures |Final(freq).up| == |Final(freq).flag| == NODES && Rising(Final(freq).up)
    ensures forall i :: 0 <= i < NODES && Final(freq).up[i] != -1 ==> Final(freq).flag[i] <= 1
  {
    var n := FinalInv(freq, NODES);
  }

  lemma WordOfSymbol(freq: seq<nat>, i: nat, w: Word)
    requires Table(freq) && i < SYMBOLS && Rising(Final(freq).up) && |Final(freq).up| == |Final(freq).flag| == NODES
    requires w == PathWord(Final(freq).up, Final(freq).flag, i)
    ensures |w| <= LONGEST_WORD && w == Code(freq)[i]
  {
    if freq[i] > 0 { WordsAreShort(freq, i); } else { UnusedHasNoWord(freq, i); }
  }

  // The words of the symbols as two tables.
  ghost function Lens(freq: seq<nat>): (l: seq<nat>)
    requires Table(freq)
    ensures |l| == SYMBOLS
  {
    seq(SYMBOLS, i requires 0 <= i < SYMBOLS => |Code(freq)[i]|)
  }

  ghost function Numbers(freq: seq<nat>): (n: seq<nat>)
    requires Table(freq)
    ensures |n| == SYMBOLS
  {
    seq(SYMBOLS, i requires 0 <= i < SYMBOLS => Value(Code(freq)[i]))
  }

  // The loop over all symbols: the tables spell the word of each, and the length test never
  // fires.
  method FillTables(up: array<int>, flag: array<nat>, ghost freq: seq<nat>, lenTab: array<nat>, bitsTab: array<nat>)
      returns (overflow: bool)
    requires up.Length == flag.Length == NODES && lenTab.Length == bitsTab.Length == SYMBOLS
    requires lenTab != bitsTab && lenTab != flag && bitsTab != flag
    requires Table(freq) && up[..] == Final(freq).up && flag[..] == Final(freq).flag
    modifies lenTab, bitsTab
    ensures !overflow && lenTab[..] == Lens(freq) && bitsTab[..] == Numbers(freq)
  {
    LinksAreWalkable(freq);
    overflow := false;
    for symbol := 0 to SYMBOLS
      invariant up[..] == Final(freq).up && flag[..] == Final(freq).flag && !overflow
      invariant lenTab[..symbol] == Lens(freq)[..symbol] && bitsTab[..symbol] == Numbers(freq)[..symbol]
    {
      var bits, len, long := WalkUp(up, flag, symbol);
      WordOfSymbol(freq, symbol, PathWord(up[..], flag[..], symbol));
      bitsTab[symbol] := bits;
      lenTab[symbol] := len;
      overflow := overflow || long;
    }
  }

  // The whole construction after the frequencies are read.
  method AssignCodes(frequency: array<nat>) returns (lenTab: array<nat>, bitsTab: array<nat>, overflow: bool)
    requires frequency.Length == NODES && Table(frequency[..])
    modifies frequency
    ensures fresh(lenTab) && fresh(bitsTab) && !overflow
    ensures lenTab[..] == Lens(old(frequency[..])) && bitsTab[..] == Numbers(old(frequency[..]))
  {
    ghost var freq := frequency[..];
    var up, flag := new int[NODES](i => -1), new nat[NODES](i => 0);
    MergeNodes(frequency, up, flag);
    lenTab, bitsTab := new nat[SYMBOLS], new nat[SYMBOLS];
    overflow := FillTables(up, flag, freq, lenTab, bitsTab);
  }

  // read_huffman_tables: from the bytes of the stream to the tables of lengths and bits, which
  // init_vlc accepts or refuses. `order` is the sort it uses.
  method ReadHuffmanTables(buf: seq<nat>, size: nat, order: seq<VlcCode> -> seq<VlcCode>)
      returns (ok: bool, ptr: nat, lenTab: array<nat>, bitsTab: array<nat>)
    requires Padded(buf, size) && Sorts(order)
    ensures var r := ReadRuns(buf, size, 2, buf[0], buf[1], seq(NODES, _ => 0));
      if r.Read? && Aligned(r.ptr) <= size then
        && |r.freq| == NODES && Table(r.freq[256 := 1])
        && lenTab[..] == Lens(r.freq[256 := 1]) && bitsTab[..] == Numbers(r.freq[256 := 1])
        && ok == InitVlc(order, lenTab[..], bitsTab[..]).Accepted?
        && (ok ==> ptr == Aligned(r.ptr))
      else !ok
  {
    var frequency := new nat[NODES](_ => 0);
    assert frequency[..] == seq(NODES, _ => 0);
    lenTab, bitsTab := new nat[0], new nat[0];
    ok, ptr := ReadFrequencies(buf, size, frequency);
    if ok {
      var overflow;
      lenTab, bitsTab, overflow := AssignCodes(frequency);
      ok := InitVlc(order, lenTab[..], bitsTab[..]) == Accepted;
    }
  }

  lemma WordAgain(freq: seq<nat>, i: nat)
    requires Table(freq) && i < SYMBOLS
    ensures MsbFirst(Numbers(freq)[i], Lens(freq)[i]) == Code(freq)[i]
  {
    ReadBack(Code(freq)[i]);
  }

  // The tables, as init_vlc reads them, give a prefix code exactly when at most 256 symbols
  // are used.
  lemma TablesArePrefixCode(freq: seq<nat>, lenTab: seq<nat>, bitsTab: seq<nat>)
    requires Table(freq) && lenTab == Lens(freq) && bitsTab == Numbers(freq)
    ensures LiveCount(freq) <= 256 <==>
      forall i, k :: 0 <= i < SYMBOLS && 0 <= k < SYMBOLS && i != k && freq[i] > 0 && freq[k] > 0
        ==> !(MsbFirst(bitsTab[i], lenTab[i]) <= MsbFirst(bitsTab[k], lenTab[k]))
  {
    forall i: nat | i < SYMBOLS ensures MsbFirst(bitsTab[i], lenTab[i]) == Code(freq)[i] { WordAgain(freq, i); }
    PrefixFreeIff(freq);
  }
}
