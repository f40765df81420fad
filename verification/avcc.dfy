// H264AVCSampleProvider: packets of length-prefixed NAL units (ISO/IEC 14496-15) are rewritten
// as a byte stream with start codes (ITU-T H.264 Annex B), key frames with the parameter sets
// of the configuration record in front.
module Avcc {
  import opened Common

  const START_CODE: seq<byte> := [0, 0, 0, 1]

  // The writer's bytes so far and whether the call succeeded.
  datatype Result = Result(out: seq<byte>, ok: bool)

  function Be32(data: seq<byte>, i: nat): (n: nat)
    requires i + 4 <= |data|
    ensures n < U32
  {
    var b0: nat, b1: nat, b2: nat, b3: nat := data[i], data[i + 1], data[i + 2], data[i + 3];
    b0 * 0x100_0000 + b1 * 0x1_0000 + b2 * 0x100 + b3
  }

  function Be32Bytes(n: nat): (b: seq<byte>)
    requires n < U32
    ensures |b| == 4
  {
    [n / 0x100 / 0x100 / 0x100, n / 0x100 / 0x100 % 0x100, n / 0x100 % 0x100, n % 0x100]
  }

  lemma Be32RoundTrip(n: nat, rest: seq<byte>)
    requires n < U32
    ensures Be32(Be32Bytes(n) + rest, 0) == n
  {
  }

  lemma Be32BytesOf(data: seq<byte>, i: nat)
    requires i + 4 <= |data|
    ensures Be32Bytes(Be32(data, i)) == data[i..i + 4]
  {
    var b0: nat, b1: nat, b2: nat := data[i], data[i + 1], data[i + 2];
    assert Be32(data, i) / 0x100 == b0 * 0x1_0000 + b1 * 0x100 + b2;
    assert Be32(data, i) / 0x100 / 0x100 == b0 * 0x100 + b1;
  }

  // ---------- The two formats ----------

  // A NAL unit whose length fits the four-byte prefix.
  type Nal = b: seq<byte> | |b| < U32

  function LengthPrefixed(nals: seq<Nal>): seq<byte> {
    if nals == [] then [] else Be32Bytes(|nals[0]|) + nals[0] + LengthPrefixed(nals[1..])
  }

  function ByteStream(nals: seq<Nal>): seq<byte> {
    if nals == [] then [] else START_CODE + nals[0] + ByteStream(nals[1..])
  }

  lemma {:induction false} SameLength(nals: seq<Nal>)
    ensures |ByteStream(nals)| == |LengthPrefixed(nals)|
  {
    if nals != [] { SameLength(nals[1..]); }
  }

  // ---------- What the loop writes ----------

  // The rewriting of data from position i on, without wrap-around.
  function Rewritten(data: seq<byte>, i: nat): Result
    requires i <= |data|
    decreases |data| - i
  {
    if |data| < i + 4 then Result([], false) else
      var end := i + 4 + Be32(data, i);
      if |data| < end then Result(START_CODE, false)
      else if end < |data| then
        var rest := Rewritten(data, end);
        Result(START_CODE + data[i + 4..end] + rest.out, rest.ok)
      else Result(START_CODE + data[i + 4..end], true)
  }

  lemma UnitAt(data: seq<byte>, i: nat, u: Nal, rest: seq<byte>)
    requires i <= |data| && data[i..] == Be32Bytes(|u|) + u + rest
    ensures i + 4 + |u| <= |data| && Be32(data, i) == |u|
    ensures data[i + 4..i + 4 + |u|] == u && data[i + 4 + |u|..] == rest
  {
    var size, front := Be32Bytes(|u|), data[..i];
    assert data == front + size + u + rest;
    assert data[i] == size[0] && data[i + 1] == size[1] && data[i + 2] == size[2] && data[i + 3] == size[3];
    Be32RoundTrip(|u|, []);
    assert size + [] == size;
  }

  lemma RewritesOne(data: seq<byte>, i: nat, u: Nal)
    requires i + 4 + |u| <= |data| && Be32(data, i) == |u| && data[i + 4..i + 4 + |u|] == u
    ensures var end := i + 4 + |u|;
      Rewritten(data, i) == if end == |data| then Result(START_CODE + u, true)
        else Result(START_CODE + u + Rewritten(data, end).out, Rewritten(data, end).ok)
  {
  }

  // From position i on the data are these units, one after the other.
  ghost predicate LaidOut(data: seq<byte>, i: nat, nals: seq<Nal>)
    decreases |nals|
  {
    if nals == [] then i == |data|
    else
      && i + 4 + |nals[0]| <= |data| && Be32(data, i) == |nals[0]| && data[i + 4..i + 4 + |nals[0]|] == nals[0]
      && LaidOut(data, i + 4 + |nals[0]|, nals[1..])
  }

  lemma {:induction false} PrefixedIsLaidOut(data: seq<byte>, i: nat, nals: seq<Nal>)
    requires i <= |data| && data[i..] == LengthPrefixed(nals)
    ensures LaidOut(data, i, nals)
    decreases |nals|
  {
    if nals != [] {
      UnitAt(data, i, nals[0], LengthPrefixed(nals[1..]));
      PrefixedIsLaidOut(data, i + 4 + |nals[0]|, nals[1..]);
    }
  }

  // Every nonempty list of NAL units is rewritten to its byte stream.
  lemma {:induction false} RewritesAll(data: seq<byte>, i: nat, nals: seq<Nal>)
    requires i <= |data| && LaidOut(data, i, nals) && nals != []
    ensures Rewritten(data, i) == Result(ByteStream(nals), true)
    decreases |nals|
  {
    RewritesOne(data, i, nals[0]);
    if |nals| > 1 {
      RewritesAll(data, i + 4 + |nals[0]|, nals[1..]);
    } else {
      OneUnit(nals);
    }
  }

  lemma OneUnit(nals: seq<Nal>)
    requires |nals| == 1
    ensures ByteStream(nals) == START_CODE + nals[0]
  {
    assert nals[1..] == [];
  }

  // The list of NAL units a successful rewriting has read.
  ghost function Units(data: seq<byte>, i: nat): (nals: seq<Nal>)
    requires i <= |data| && Rewritten(data, i).ok
    ensures nals != []
    decreases |data| - i
  {
    var end := i + 4 + Be32(data, i);
    [data[i + 4..end]] + if end < |data| then Units(data, end) else []
  }

  lemma {:induction false} UnitsAreInput(data: seq<byte>, i: nat)
    requires i <= |data| && Rewritten(data, i).ok
    ensures data[i..] == LengthPrefixed(Units(data, i))
    decreases |data| - i
  {
    var end := i + 4 + Be32(data, i);
    var unit: Nal, rest := data[i + 4..end], if end < |data| then Units(data, end) else [];
    Be32BytesOf(data, i);
    PrefixedCons(unit, rest);
    if end < |data| { UnitsAreInput(data, end); }
    CutUnit(data, i, end);
  }

  lemma PrefixedCons(unit: Nal, rest: seq<Nal>)
    ensures LengthPrefixed([unit] + rest) == Be32Bytes(|unit|) + unit + LengthPrefixed(rest)
  {
    assert ([unit] + rest)[1..] == rest;
  }

  lemma CutUnit(data: seq<byte>, i: nat, end: nat)
    requires i + 4 <= end <= |data|
    ensures data[i..] == data[i..i + 4] + data[i + 4..end] + data[end..]
  {
  }

  // The rewriting succeeds exactly on nonempty lists of length-prefixed units, and then
  // writes their byte stream, byte for byte as long as the input.
  lemma RewritesIff(data: seq<byte>)
    ensures Rewritten(data, 0).ok <==> exists nals: seq<Nal> :: nals != [] && data == LengthPrefixed(nals)
    ensures forall nals: seq<Nal> :: nals != [] && data == LengthPrefixed(nals) ==>
      Rewritten(data, 0) == Result(ByteStream(nals), true) && |Rewritten(data, 0).out| == |data|
  {
    assert data[0..] == data;
    forall nals: seq<Nal> | nals != [] && data == LengthPrefixed(nals)
      ensures Rewritten(data, 0) == Result(ByteStream(nals), true) && |Rewritten(data, 0).out| == |data|
    {
      PrefixedIsLaidOut(data, 0, nals);
      RewritesAll(data, 0, nals);
      SameLength(nals);
    }
    if Rewritten(data, 0).ok {
      UnitsAreInput(data, 0);
      assert data == LengthPrefixed(Units(data, 0));
    }
  }

  // ---------- Reading a byte stream back ----------

  predicate CodeAt(s: seq<byte>, k: nat) {
    k + 4 <= |s| && s[k..k + 4] == START_CODE
  }

  predicate Free(nal: seq<byte>) {
    forall k :: 0 <= k <= |nal| - 4 ==> !CodeAt(nal, k)
  }

  // The next start code at or after i, or the end.
  function NextCode(s: seq<byte>, i: nat): (k: nat)
    requires i <= |s|
    ensures i <= k <= |s| && (k < |s| ==> CodeAt(s, k))
    ensures forall j :: i <= j < k ==> !CodeAt(s, j)
    decreases |s| - i
  {
    if i == |s| || CodeAt(s, i) then i else NextCode(s, i + 1)
  }

  // The stream cut at its start codes.
  function Split(s: seq<byte>): seq<seq<byte>>
    decreases |s|
  {
    if !CodeAt(s, 0) then [] else
      var k := NextCode(s, 4);
      [s[4..k]] + Split(s[k..])
  }

  // A start code is found neither across the end of a unit nor inside one that has none.
  lemma NoCodeBefore(nal: seq<byte>, rest: seq<byte>, k: nat)
    requires Free(nal) && 4 <= k < 4 + |nal| && (rest == [] || CodeAt(rest, 0))
    ensures !CodeAt(START_CODE + nal + rest, k)
  {
    var s := START_CODE + nal + rest;
    var d := k - 4;
    if CodeAt(s, k) && d + 4 <= |nal| {
      assert s[k..k + 4] == nal[d..d + 4];
      assert CodeAt(nal, d);
    } else if d + 4 > |nal| && k + 4 <= |s| {
      var m := d + 3 - |nal|;
      assert rest[0..4][m] == 0 && s[k + 3] == rest[m];
      assert s[k..k + 4][3] == s[k + 3];
    }
  }

  lemma StartsWithCode(nals: seq<Nal>)
    ensures nals != [] ==> CodeAt(ByteStream(nals), 0)
  {
    if nals != [] { assert ByteStream(nals)[0..4] == START_CODE; }
  }

  lemma {:induction false} SplitRecovers(nals: seq<Nal>)
    requires forall i :: 0 <= i < |nals| ==> Free(nals[i])
    ensures Split(ByteStream(nals)) == nals
  {
    if nals != [] {
      var rest := ByteStream(nals[1..]);
      var s := START_CODE + nals[0] + rest;
      StartsWithCode(nals);
      StartsWithCode(nals[1..]);
      var end := 4 + |nals[0]|;
      assert s[end..] == rest && s[4..end] == nals[0];
      forall k: nat | 4 <= k < end ensures !CodeAt(s, k) {
        NoCodeBefore(nals[0], rest, k);
      }
      assert rest != [] ==> CodeAt(s, end) by {
        if rest != [] { assert s[end..end + 4] == rest[0..4]; }
      }
      assert NextCode(s, 4) == end;
      SplitRecovers(nals[1..]);
    }
  }

  lemma SubSlice(s: seq<byte>, from: nat, to: nat, j: nat)
    requires from + j + 4 <= to <= |s|
    ensures s[from..to][j..j + 4] == s[from + j..from + j + 4]
  {
    var piece := s[from..to];
    var a, b := piece[j..j + 4], s[from + j..from + j + 4];
    forall m | 0 <= m < 4 ensures a[m] == b[m] {
      assert a[m] == piece[j + m];
    }
  }

  lemma {:induction false} PiecesAreFree(s: seq<byte>)
    ensures forall i :: 0 <= i < |Split(s)| ==> Free(Split(s)[i])
    decreases |s|
  {
    if CodeAt(s, 0) {
      var k := NextCode(s, 4);
      var piece := s[4..k];
      forall j: nat | j + 4 <= |piece| ensures !CodeAt(piece, j) {
        assert !CodeAt(s, j + 4);
        SubSlice(s, 4, k, j);
      }
      PiecesAreFree(s[k..]);
    }
  }

  // Cutting the written stream at its start codes gives the NAL units back exactly when none
  // of them contains a start code.
  lemma SplitIff(nals: seq<Nal>)
    ensures Split(ByteStream(nals)) == nals <==> forall i :: 0 <= i < |nals| ==> Free(nals[i])
  {
    if forall i :: 0 <= i < |nals| ==> Free(nals[i]) {
      SplitRecovers(nals);
    }
    PiecesAreFree(ByteStream(nals));
  }

  // ---------- Parameter sets ----------

  // The codec's extra data: nothing, or bytes followed by zero padding that may be read.
  datatype ExtraData = Null | Bytes(data: seq<byte>)

  function At(x: ExtraData, i: nat): byte {
    if x.Bytes? && i < |x.data| then x.data[i] else 0
  }

  function SizeOf(x: ExtraData): nat {
    if x.Bytes? then |x.data| else 0
  }

  // What GetSPSAndPPSBuffer writes: the one SPS and the one PPS it expects.
  function ParameterSets(x: ExtraData): Result {
    if x.Null? then Result([], false) else
      var sps: nat := At(x, 7);
      if |x.data| < 8 + sps then Result([], false) else
        var first := START_CODE + x.data[8..8 + sps];
        if |x.data| < 8 + sps + 3 then Result(first, false) else
          var pps: nat := At(x, 8 + sps + 2);
          if |x.data| < 8 + sps + 3 + pps then Result(first, false)
          else Result(first + START_CODE + x.data[11 + sps..11 + sps + pps], true)
  }

  function Be16Bytes(n: nat): (b: seq<byte>)
    requires n < 0x1_0000
  {
    [n / 0x100, n % 0x100]
  }

  // A parameter set whose length fits the two-byte prefix.
  type ParameterSet = b: seq<byte> | |b| < 0x1_0000

  function Prefixed16(sets: seq<ParameterSet>): seq<byte> {
    if sets == [] then [] else Be16Bytes(|sets[0]|) + sets[0] + Prefixed16(sets[1..])
  }

  // A configuration record (ISO/IEC 14496-15, section 5.2.4.1): version, profile, compatibility,
  // level and length size first, then the SPS and the PPS with their numbers, extensions last.
  function ConfigRecord(head: seq<byte>, spss: seq<ParameterSet>, ppss: seq<ParameterSet>,
                        extensions: seq<byte>): seq<byte>
    requires |head| == 5 && |spss| < 32 && |ppss| < 256
  {
    head + [0xE0 + |spss|] + Prefixed16(spss) + [|ppss|] + Prefixed16(ppss) + extensions
  }

  // A list of sets from position i on: its first one, and the rest.
  lemma FirstSet(r: seq<byte>, i: nat, sets: seq<ParameterSet>, rest: seq<byte>)
    requires i <= |r| && r[i..] == Prefixed16(sets) + rest && sets != []
    ensures var n := |sets[0]|;
      && i + 2 + n <= |r| && r[i] == n / 0x100 && r[i + 1] == n % 0x100 && r[i + 2..i + 2 + n] == sets[0]
      && r[i + 2 + n..] == Prefixed16(sets[1..]) + rest
  {
    var u: seq<byte>, tail := sets[0], Prefixed16(sets[1..]);
    Regroup(Be16Bytes(|u|), u, tail, rest);
    CutThree(r, i, Be16Bytes(|u|), u, tail + rest);
  }

  lemma Regroup(size: seq<byte>, u: seq<byte>, tail: seq<byte>, rest: seq<byte>)
    ensures size + u + tail + rest == size + (u + (tail + rest))
  {
  }

  lemma CutThree(r: seq<byte>, i: nat, size: seq<byte>, u: seq<byte>, more: seq<byte>)
    requires i <= |r| && |size| == 2 && r[i..] == size + (u + more)
    ensures |r| == i + 2 + |u| + |more| && r[i] == size[0] && r[i + 1] == size[1]
    ensures r[i + 2..i + 2 + |u|] == u && r[i + 2 + |u|..] == more
  {
    CutOne(r, i, size, u + more);
    CutOne(r, i + 2, u, more);
    assert r[i..i + 2][0] == r[i] && r[i..i + 2][1] == r[i + 1];
  }

  lemma CutOne(r: seq<byte>, i: nat, a: seq<byte>, b: seq<byte>)
    requires i <= |r| && r[i..] == a + b
    ensures |r| == i + |a| + |b| && r[i..i + |a|] == a && r[i + |a|..] == b
  {
    var tail := r[i..];
    assert |tail| == |a| + |b|;
    assert tail[..|a|] == a && tail[|a|..] == b;
    assert r[i..i + |a|] == tail[..|a|] && r[i + |a|..] == tail[|a|..];
  }

  // The parts the code takes for the SPS and the PPS.
  lemma TwoParts(r: seq<byte>) returns (first: seq<byte>, second: seq<byte>)
    requires ParameterSets(Bytes(r)).ok
    ensures 8 <= |r| && |first| == r[7] && 11 + |first| <= |r| && |second| == r[10 + |first|]
    ensures 11 + |first| + |second| <= |r|
    ensures first == r[8..8 + |first|] && second == r[11 + |first|..11 + |first| + |second|]
    ensures ParameterSets(Bytes(r)).out == START_CODE + first + START_CODE + second
  {
    var n: nat := r[7];
    var m: nat := r[10 + n];
    first, second := r[8..8 + n], r[11 + n..11 + n + m];
  }

  // Two parts cannot be the stream of units whose first one goes on past the first part.
  lemma FirstPartEnds(first: seq<byte>, second: seq<byte>, units: seq<Nal>)
    requires units != [] && Free(units[0])
    requires START_CODE + first + START_CODE + second == ByteStream(units)
    ensures |units[0]| < |first| + 4
  {
    var u, k := units[0], |first|;
    var out := START_CODE + first + START_CODE + second;
    if k + 4 <= |u| {
      forall j | 0 <= j < 4 ensures u[k + j] == START_CODE[j] {
        assert out[4 + k + j] == START_CODE[j];
        assert ByteStream(units)[4 + (k + j)] == u[k + j];
      }
      assert u[k..k + 4] == START_CODE;
      assert CodeAt(u, k);
    }
  }

  // If the first part is the first unit, the second is the rest.
  lemma SecondPart(first: seq<byte>, second: seq<byte>, units: seq<Nal>)
    requires units != [] && first == units[0] && START_CODE + first + START_CODE + second == ByteStream(units)
    ensures |units| > 1 && second == units[1] + ByteStream(units[2..])
  {
    var front, back, rest := START_CODE + first, START_CODE + second, ByteStream(units[1..]);
    Joined(START_CODE, first, START_CODE, second);
    SameTail(front, back, rest);
    if |units| > 1 {
      NextUnit(units);
      SameTail(START_CODE, second, units[1] + ByteStream(units[2..]));
    }
  }

  lemma NextUnit(units: seq<Nal>)
    requires |units| > 1
    ensures ByteStream(units[1..]) == START_CODE + (units[1] + ByteStream(units[2..]))
  {
    assert units[1..][1..] == units[2..];
  }

  lemma SameTail(a: seq<byte>, b: seq<byte>, c: seq<byte>)
    requires a + b == a + c
    ensures b == c
  {
    assert b == (a + b)[|a|..] && c == (a + c)[|a|..];
  }

  ghost predicate Proper(sets: seq<ParameterSet>) {
    forall i :: 0 <= i < |sets| ==> sets[i] != [] && Free(sets[i])
  }

  lemma LengthOfFirst(r: seq<byte>, ppss: seq<ParameterSet>)
    requires |r| > 7 && ppss != [] && Proper(ppss) && r[7] == |ppss[0]| / 0x100
    ensures ParameterSets(Bytes(r)) != Result(ByteStream(ppss), true)
  {
    if ParameterSets(Bytes(r)) == Result(ByteStream(ppss), true) {
      var first, second := TwoParts(r);
      FirstPartEnds(first, second, ppss);
      assert START_CODE + first == START_CODE;
      ShortFirst(second, ppss);
    }
  }

  // The record after the number of its SPS.
  lemma RecordLists(head: seq<byte>, spss: seq<ParameterSet>, ppss: seq<ParameterSet>, extensions: seq<byte>)
      returns (r: seq<byte>, tail: seq<byte>)
    requires |head| == 5 && |spss| < 32 && |ppss| < 256
    ensures r == ConfigRecord(head, spss, ppss, extensions) && tail == [|ppss|] + (Prefixed16(ppss) + extensions)
    ensures 6 <= |r| && r[6..] == Prefixed16(spss) + tail
  {
    r, tail := ConfigRecord(head, spss, ppss, extensions), [|ppss|] + (Prefixed16(ppss) + extensions);
    var front := head + [0xE0 + |spss|];
    assert r == front + (Prefixed16(spss) + tail);
  }

  // Without an SPS the length of the PPS is read at the wrong place.
  lemma NoSps(head: seq<byte>, ppss: seq<ParameterSet>, extensions: seq<byte>)
    requires |head| == 5 && |ppss| < 256 && Proper(ppss)
    ensures ParameterSets(Bytes(ConfigRecord(head, [], ppss, extensions))) != Result(ByteStream(ppss), true)
  {
    if ppss != [] {
      var r, tail := RecordLists(head, [], ppss, extensions);
      assert [] + tail == tail;
      CutOne(r, 6, [|ppss|], Prefixed16(ppss) + extensions);
      FirstSet(r, 7, ppss, extensions);
      LengthOfFirst(r, ppss);
    }
  }

  lemma ShortFirst(second: seq<byte>, units: seq<Nal>)
    requires units != [] && 0 < |units[0]| < 4
    ensures START_CODE + START_CODE + second != ByteStream(units)
  {
    var out, rest := START_CODE + START_CODE + second, ByteStream(units[1..]);
    assert out[7] == 1;
    StartsWithCode(units[1..]);
    if rest != [] {
      assert ByteStream(units)[7] == rest[3 - |units[0]|];
      assert rest[..4] == START_CODE;
    }
  }

  // With an SPS the first part is that SPS, of less than 256 bytes, and the second the rest.
  lemma FirstIsSps(r: seq<byte>, units: seq<Nal>) returns (first: seq<byte>, second: seq<byte>)
    requires |r| >= 8 && units != [] && |units[0]| < 0x1_0000 && Free(units[0]) && r[7] == |units[0]| % 0x100
    requires 8 + |units[0]| <= |r| && r[8..8 + |units[0]|] == units[0]
    requires ParameterSets(Bytes(r)) == Result(ByteStream(units), true)
    ensures |units[0]| < 0x100 && |units| > 1 && 11 + |units[0]| + |second| <= |r| && |second| == r[10 + |units[0]|]
    ensures second == r[11 + |units[0]|..11 + |units[0]| + |second|] == units[1] + ByteStream(units[2..])
  {
    first, second := TwoParts(r);
    FirstPartEnds(first, second, units);
    SecondPart(first, second, units);
  }

  // Where a second SPS follows, its first byte is taken for a length and the part read is the SPS
  // moved by one byte: it can only repeat that byte, and so does the byte after it.
  lemma {:induction false} MovedByOne(r: seq<byte>, i: nat, v: seq<byte>, rest: seq<byte>, k: nat)
    requires k < |v| && i + 1 + |v| + |rest| <= |r|
    requires r[i..i + |v|] == v && r[i + 1..i + 1 + |v| + |rest|] == v + rest
    ensures v[k] == v[0] && r[i + 1 + k] == v[k]
  {
    assert r[i + 1..i + 1 + |v| + |rest|][k] == v[k];
    if k > 0 {
      MovedByOne(r, i, v, rest, k - 1);
      assert r[i..i + |v|][k] == r[i + k];
    }
  }

  lemma MovedPart(r: seq<byte>, i: nat, v: seq<byte>, rest: seq<byte>, second: seq<byte>)
    requires v != [] && |v| <= |second| && i + 1 + |second| <= |r| && r[i..i + |v|] == v && |second| == r[i]
    requires second == r[i + 1..i + 1 + |second|] == v + rest
    ensures r[i + |v|] == |second| && |second| == |v| + |rest|
    ensures |rest| >= 2 ==> r[i + |v| + 1] == rest[0] && r[i + |v| + 2] == rest[1]
  {
    MovedByOne(r, i, v, rest, |v| - 1);
    assert r[i] == r[i..i + |v|][0];
    if |rest| >= 2 {
      assert second[|v|] == rest[0] && second[|v| + 1] == rest[1];
    }
  }

  lemma TwoSets(r: seq<byte>, spss: seq<ParameterSet>, tail: seq<byte>)
    requires 6 <= |r| && r[6..] == Prefixed16(spss) + tail && |spss| >= 2
    ensures var q := 10 + |spss[0]| + |spss[1]|;
      && q <= |r| && r[8..8 + |spss[0]|] == spss[0] && r[7] == |spss[0]| % 0x100
      && r[10 + |spss[0]|..q] == spss[1] && r[q..] == Prefixed16(spss[2..]) + tail
  {
    FirstSet(r, 6, spss, tail);
    FirstSet(r, 8 + |spss[0]|, spss[1..], tail);
    assert spss[1..][1..] == spss[2..];
  }

  lemma AfterLast(r: seq<byte>, q: nat, ppss: seq<ParameterSet>, extensions: seq<byte>)
    requires |ppss| < 256 && q <= |r| && r[q..] == [|ppss|] + (Prefixed16(ppss) + extensions)
    ensures q < |r| && r[q] == |ppss|
    ensures ppss != [] ==> q + 2 < |r| && r[q + 1] == |ppss[0]| / 0x100 && r[q + 2] == |ppss[0]| % 0x100
  {
    CutOne(r, q, [|ppss|], Prefixed16(ppss) + extensions);
    assert r[q..q + 1][0] == r[q];
    if ppss != [] { FirstSet(r, q + 1, ppss, extensions); }
  }

  // The lists after the second SPS.
  lemma AfterSecond(head: seq<byte>, spss: seq<ParameterSet>, ppss: seq<ParameterSet>, extensions: seq<byte>)
      returns (r: seq<byte>, q: nat)
    requires |head| == 5 && 2 <= |spss| < 32 && |ppss| < 256
    ensures r == ConfigRecord(head, spss, ppss, extensions) && q == 10 + |spss[0]| + |spss[1]| < |r|
    ensures r[8..8 + |spss[0]|] == spss[0] && r[7] == |spss[0]| % 0x100
    ensures r[10 + |spss[0]|..q] == spss[1]
    ensures |spss| > 2 ==> r[q] == |spss[2]| / 0x100
    ensures |spss| == 2 ==> r[q] == |ppss|
    ensures |spss| == 2 && ppss != [] ==> q + 2 < |r| && r[q + 1] == |ppss[0]| / 0x100 && r[q + 2] == |ppss[0]| % 0x100
  {
    var tail;
    r, tail := RecordLists(head, spss, ppss, extensions);
    q := 10 + |spss[0]| + |spss[1]|;
    TwoSets(r, spss, tail);
    if |spss| > 2 {
      FirstSet(r, q, spss[2..], tail);
    } else {
      assert Prefixed16(spss[2..]) + tail == tail;
      AfterLast(r, q, ppss, extensions);
    }
  }

  lemma LaterUnits(units: seq<Nal>, rest: seq<byte>)
    requires |units| >= 2 && rest == ByteStream(units[2..])
    ensures |units| > 2 ==> |rest| >= 4 + |units[2]| && rest[0] == 0 && rest[1] == 0
    ensures |units| == 2 ==> rest == []
  {
    if |units| == 2 {
      assert units[2..] == [];
    }
  }

  lemma SecondSpsAt(r: seq<byte>, q: nat, spss: seq<ParameterSet>, ppss: seq<ParameterSet>)
    requires |spss| >= 2 && Proper(spss) && Proper(ppss) && q == 10 + |spss[0]| + |spss[1]| < |r|
    requires r[8..8 + |spss[0]|] == spss[0] && r[7] == |spss[0]| % 0x100 && r[10 + |spss[0]|..q] == spss[1]
    requires |spss| > 2 ==> r[q] == |spss[2]| / 0x100
    requires |spss| == 2 ==> r[q] == |ppss|
    requires |spss| == 2 && ppss != [] ==>
      q + 2 < |r| && r[q + 1] == |ppss[0]| / 0x100 && r[q + 2] == |ppss[0]| % 0x100
    ensures ParameterSets(Bytes(r)) != Result(ByteStream(spss + ppss), true)
  {
    if ParameterSets(Bytes(r)) == Result(ByteStream(spss + ppss), true) {
      var units := spss + ppss;
      var second, rest := SecondIsMoved(r, q, units);
      LaterUnits(units, rest);
    }
  }

  lemma SecondIsMoved(r: seq<byte>, q: nat, units: seq<Nal>) returns (second: seq<byte>, rest: seq<byte>)
    requires |units| >= 2 && |units[0]| < 0x1_0000 && Free(units[0]) && units[1] != []
    requires q == 10 + |units[0]| + |units[1]| < |r|
    requires r[8..8 + |units[0]|] == units[0] && r[7] == |units[0]| % 0x100 && r[10 + |units[0]|..q] == units[1]
    requires ParameterSets(Bytes(r)) == Result(ByteStream(units), true)
    ensures rest == ByteStream(units[2..]) && |second| == |units[1]| + |rest| && r[q] == |second|
    ensures |rest| >= 2 ==> q + 2 < |r| && r[q + 1] == rest[0] && r[q + 2] == rest[1]
  {
    var first;
    first, second := FirstIsSps(r, units);
    rest := ByteStream(units[2..]);
    MovedPart(r, 10 + |units[0]|, units[1], rest, second);
  }

  lemma SecondSps(head: seq<byte>, spss: seq<ParameterSet>, ppss: seq<ParameterSet>, extensions: seq<byte>)
    requires |head| == 5 && 2 <= |spss| < 32 && |ppss| < 256 && Proper(spss) && Proper(ppss)
    ensures ParameterSets(Bytes(ConfigRecord(head, spss, ppss, extensions))) != Result(ByteStream(spss + ppss), true)
  {
    var r, q := AfterSecond(head, spss, ppss, extensions);
    SecondSpsAt(r, q, spss, ppss);
  }

  // With one SPS, where the list of PPS begins.
  lemma AfterSps(head: seq<byte>, sps: ParameterSet, ppss: seq<ParameterSet>, extensions: seq<byte>)
      returns (r: seq<byte>)
    requires |head| == 5 && |ppss| < 256
    ensures r == ConfigRecord(head, [sps], ppss, extensions) && 9 + |sps| <= |r|
    ensures r[7] == |sps| % 0x100 && r[8..8 + |sps|] == sps && r[9 + |sps|..] == Prefixed16(ppss) + extensions
  {
    var tail;
    r, tail := RecordLists(head, [sps], ppss, extensions);
    FirstSet(r, 6, [sps], tail);
    assert [sps][1..] == [] && [] + tail == tail;
    CutOne(r, 8 + |sps|, [|ppss|], Prefixed16(ppss) + extensions);
  }

  lemma OneSps(head: seq<byte>, sps: ParameterSet, ppss: seq<ParameterSet>, extensions: seq<byte>)
    requires |head| == 5 && |ppss| < 256 && Proper([sps]) && Proper(ppss)
    requires ParameterSets(Bytes(ConfigRecord(head, [sps], ppss, extensions))) == Result(ByteStream([sps] + ppss), true)
    ensures |ppss| == 1 && |sps| < 0x100 && |ppss[0]| < 0x100
  {
    var units := [sps] + ppss;
    var r := AfterSps(head, sps, ppss, extensions);
    assert [sps][0] == sps;
    var first, second := FirstIsSps(r, units);
    LaterUnits(units, ByteStream(units[2..]));
    FirstSet(r, 9 + |sps|, ppss, extensions);
  }

  // One SPS and one PPS are written as they are when both are shorter than 256 bytes.
  lemma OneOfEach(head: seq<byte>, sps: ParameterSet, pps: ParameterSet, extensions: seq<byte>)
    requires |head| == 5 && |sps| < 0x100 && |pps| < 0x100
    ensures ParameterSets(Bytes(ConfigRecord(head, [sps], [pps], extensions))) == Result(ByteStream([sps, pps]), true)
  {
    var r := AfterSps(head, sps, [pps], extensions);
    FirstSet(r, 9 + |sps|, [pps], extensions);
    BothWritten(r, sps, pps);
  }

  lemma BothWritten(r: seq<byte>, sps: Nal, pps: Nal)
    requires 11 + |sps| + |pps| <= |r| && r[7] == |sps| && r[10 + |sps|] == |pps|
    requires r[8..8 + |sps|] == sps && r[11 + |sps|..11 + |sps| + |pps|] == pps
    ensures ParameterSets(Bytes(r)) == Result(ByteStream([sps, pps]), true)
  {
    TwoUnits(sps, pps);
  }

  // Of a record whose parameter sets are nonempty and without start codes, all are written, and
  // nothing else, exactly when there is one SPS and one PPS, both shorter than 256 bytes.
  lemma ParameterSetsIff(head: seq<byte>, spss: seq<ParameterSet>, ppss: seq<ParameterSet>, extensions: seq<byte>)
    requires |head| == 5 && |spss| < 32 && |ppss| < 256 && Proper(spss) && Proper(ppss)
    ensures ParameterSets(Bytes(ConfigRecord(head, spss, ppss, extensions))) == Result(ByteStream(spss + ppss), true)
      <==> |spss| == 1 && |ppss| == 1 && |spss[0]| < 0x100 && |ppss[0]| < 0x100
  {
    if |spss| == 0 {
      assert [] + ppss == ppss;
      NoSps(head, ppss, extensions);
    } else if |spss| >= 2 {
      SecondSps(head, spss, ppss, extensions);
    } else {
      assert spss == [spss[0]];
      if |ppss| == 1 && |spss[0]| < 0x100 && |ppss[0]| < 0x100 {
        assert ppss == [ppss[0]] && spss + ppss == [spss[0], ppss[0]];
        OneOfEach(head, spss[0], ppss[0], extensions);
      } else if ParameterSets(Bytes(ConfigRecord(head, spss, ppss, extensions)))
          == Result(ByteStream(spss + ppss), true) {
        OneSps(head, spss[0], ppss, extensions);
      }
    }
  }

  lemma TwoUnits(a: Nal, b: Nal)
    ensures ByteStream([a, b]) == START_CODE + a + START_CODE + b
  {
    assert [a, b][1..] == [b] && [b][1..] == [];
    assert ByteStream([b]) == START_CODE + b;
  }

  // What WriteAVPacketToStream writes for a packet.
  function Sample(x: ExtraData, key: bool, data: seq<byte>): Result {
    if !key then Rewritten(data, 0) else
      var sets := ParameterSets(x);
      if !sets.ok then sets else
        var rest := Rewritten(data, 0);
        Result(sets.out + rest.out, rest.ok)
  }

  lemma {:induction false} ByteStreamAppend(a: seq<Nal>, b: seq<Nal>)
    ensures ByteStream(a + b) == ByteStream(a) + ByteStream(b)
  {
    if a == [] {
      assert a + b == b;
    } else {
      assert (a + b)[0] == a[0] && (a + b)[1..] == a[1..] + b;
      ByteStreamAppend(a[1..], b);
    }
  }

  // A key frame becomes one byte stream that starts with the record's parameter sets.
  lemma KeyFrameSample(head: seq<byte>, sps: ParameterSet, pps: ParameterSet, extensions: seq<byte>, nals: seq<Nal>)
    requires |head| == 5 && |sps| < 0x100 && |pps| < 0x100 && nals != []
    ensures Sample(Bytes(ConfigRecord(head, [sps], [pps], extensions)), true, LengthPrefixed(nals))
      == Result(ByteStream([sps, pps] + nals), true)
  {
    OneOfEach(head, sps, pps, extensions);
    RewritesIff(LengthPrefixed(nals));
    ByteStreamAppend([sps, pps], nals);
  }

  // A record that ends before its PPS does is refused, with its SPS written if that is complete.
  lemma CutRecordFails(head: seq<byte>, sps: ParameterSet, pps: ParameterSet, n: nat)
    requires |head| == 5 && |sps| < 0x100 && |pps| < 0x100 && n < |ConfigRecord(head, [sps], [pps], [])|
    ensures var r := ParameterSets(Bytes(ConfigRecord(head, [sps], [pps], [])[..n]));
      !r.ok && r.out == if n < 8 + |sps| then [] else START_CODE + sps
  {
    var record := ConfigRecord(head, [sps], [pps], []);
    RecordIs(record, head, sps, pps);
    if n > 7 { assert record[..n][7] == record[7]; }
    if n >= 8 + |sps| {
      assert record[..n][8..8 + |sps|] == record[8..8 + |sps|];
    }
    if n > 8 + |sps| + 2 { assert record[..n][8 + |sps| + 2] == record[8 + |sps| + 2]; }
  }

  lemma RecordIs(record: seq<byte>, head: seq<byte>, sps: ParameterSet, pps: ParameterSet)
    requires |head| == 5 && |sps| < 0x100 && |pps| < 0x100 && record == ConfigRecord(head, [sps], [pps], [])
    ensures |record| == 11 + |sps| + |pps| && record[7] == |sps| && record[8..8 + |sps|] == sps
    ensures record[8 + |sps| + 2] == |pps|
  {
    assert [sps][1..] == [] && [pps][1..] == [];
    assert Prefixed16([sps]) == Be16Bytes(|sps|) + sps && Prefixed16([pps]) == Be16Bytes(|pps|) + pps;
    var front := head + [0xE1] + Be16Bytes(|sps|);
    assert record == front + sps + [1] + Be16Bytes(|pps|) + pps;
    assert |front| == 8 && front[7] == |sps|;
  }

  // Any other frame becomes its own units alone, whatever the record; a packet that is no list of
  // units fails, key frame or not.
  lemma OtherSample(x: ExtraData, nals: seq<Nal>, data: seq<byte>)
    requires nals != []
    ensures Sample(x, false, LengthPrefixed(nals)) == Result(ByteStream(nals), true)
    ensures (!exists units: seq<Nal> :: units != [] && data == LengthPrefixed(units)) ==>
      !Sample(x, false, data).ok && !Sample(x, true, data).ok
  {
    RewritesIff(LengthPrefixed(nals));
    RewritesIff(data);
  }

  // ---------- The functions themselves ----------

  // The two 32-bit guards together decide the unbounded comparison, whatever the values.
  lemma GuardsDecide(packetSize: nat, index: nat, size: nat)
    requires packetSize < U32 && index < U32 && size < U32
    ensures packetSize < (index + size) % U32 || U32 - 1 - index < size <==> packetSize < index + size
  {
  }

  // With the bytes w written and position i reached, the call is to end with this result.
  ghost predicate EndsIn(data: seq<byte>, i: nat, w: seq<byte>, total: Result) {
    i <= |data| && total == Result(w + Rewritten(data, i).out, Rewritten(data, i).ok)
  }

  // One unit of the loop, on top of what was written before it.
  lemma MoreUnits(data: seq<byte>, i: nat, w: seq<byte>, total: Result, u: Nal)
    requires i + 4 + |u| < |data| && Be32(data, i) == |u| && data[i + 4..i + 4 + |u|] == u
    requires EndsIn(data, i, w, total)
    ensures EndsIn(data, i + 4 + |u|, w + START_CODE + u, total)
  {
    RewritesOne(data, i, u);
    Joined(w, START_CODE, u, Rewritten(data, i + 4 + |u|).out);
  }

  lemma LastUnit(data: seq<byte>, i: nat, w: seq<byte>, total: Result, u: Nal)
    requires i + 4 + |u| == |data| && Be32(data, i) == |u| && data[i + 4..i + 4 + |u|] == u
    requires EndsIn(data, i, w, total)
    ensures total == Result(w + START_CODE + u, true)
  {
    RewritesOne(data, i, u);
    Joined(w, START_CODE, u, []);
  }

  lemma Joined(a: seq<byte>, b: seq<byte>, c: seq<byte>, d: seq<byte>)
    ensures a + (b + c + d) == a + b + c + d && a + (b + c) == a + b + c
    ensures a + b + (c + d) == a + b + c + d
  {
  }

  class SampleProvider {
    const extradata: ExtraData
    var written: seq<byte>   // the data writer

    constructor (extradata: ExtraData)
      ensures this.extradata == extradata && written == []
    {
      this.extradata, written := extradata, [];
    }

    // One round of the loop of WriteNALPacket, with index and size in 32 bits.
    method WriteUnit(data: seq<byte>, index: nat) returns (ok: bool, next: nat)
      requires index <= |data| < 0x8000_0000
      modifies this
      ensures ok ==> index + 4 <= |data| && next == index + 4 + Be32(data, index) <= |data|
      ensures ok ==> written == old(written) + START_CODE + data[index + 4..next]
      ensures !ok ==> EndsIn(data, index, old(written), Result(written, false))
    {
      var packetSize: nat := |data|;
      next := index;
      if packetSize < (next + 4) % U32 {
        return false, next;
      }
      var size := Be32(data, next);
      written := written + START_CODE;
      next := (next + 4) % U32;
      GuardsDecide(packetSize, next, size);
      if packetSize < (next + size) % U32 || U32 - 1 - next < size {
        return false, next;
      }
      written := written + data[next..next + size];
      next := (next + size) % U32;
      ok := true;
    }

    // WriteNALPacket.
    method WriteNALPacket(data: seq<byte>) returns (ok: bool)
      requires |data| < 0x8000_0000
      modifies this
      ensures Result(written, ok) == Result(old(written) + Rewritten(data, 0).out, Rewritten(data, 0).ok)
    {
      var index := 0;
      ok := true;
      ghost var total := Result(written + Rewritten(data, 0).out, Rewritten(data, 0).ok);
      while true
        invariant EndsIn(data, index, written, total)
        decreases |data| - index
      {
        ghost var w, i := written, index;
        ok, index := WriteUnit(data, index);
        if !ok {
          return;
        }
        ghost var u: Nal := data[i + 4..index];
        if index >= |data| {
          LastUnit(data, i, w, total, u);
          return;
        }
        MoreUnits(data, i, w, total, u);
      }
    }

    // GetSPSAndPPSBuffer. Lengths are read from the padding if the record is too short.
    method GetSPSAndPPSBuffer() returns (ok: bool)
      modifies this
      ensures Result(written, ok) == Result(old(written) + ParameterSets(extradata).out, ParameterSets(extradata).ok)
    {
      if extradata.Null? && SizeOf(extradata) < 8 {
        return false;
      }
      var spsLength: nat := At(extradata, 7);
      if SizeOf(extradata) < 8 + spsLength {
        return false;
      }
      written := written + START_CODE;
      written := written + extradata.data[8..8 + spsLength];
      if SizeOf(extradata) < 8 + spsLength + 3 {
        return false;
      }
      var ppsLength: nat := At(extradata, 8 + spsLength + 3 - 1);
      if SizeOf(extradata) < 8 + spsLength + 3 + ppsLength {
        return false;
      }
      written := written + START_CODE;
      written := written + extradata.data[8 + spsLength + 3..8 + spsLength + 3 + ppsLength];
      ok := true;
    }

    // WriteAVPacketToStream.
    method WriteAVPacketToStream(key: bool, data: seq<byte>) returns (ok: bool)
      requires |data| < 0x8000_0000
      modifies this
      ensures Result(written, ok)
        == Result(old(written) + Sample(extradata, key, data).out, Sample(extradata, key, data).ok)
    {
      ok := true;
      if key {
        ok := GetSPSAndPPSBuffer();
      }
      if ok {
        ok := WriteNALPacket(data);
      }
    }
  }
}
