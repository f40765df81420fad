// 8svx.c: the first packet holds the whole sound; each call decodes the next 2048 bytes of each
// channel from 4-bit deltas, with the last value of the channel kept between calls.
module DeltaDecode {
  import opened Common

  const FIBONACCI: seq<int> := [-34, -21, -13, -8, -5, -3, -2, -1, 0, 1, 2, 3, 5, 8, 13, 21]
  const EXPONENTIAL: seq<int> := [-128, -64, -32, -16, -8, -4, -2, -1, 0, 1, 2, 4, 8, 16, 32, 64]

  const MAX_FRAME_SIZE: nat := 2048
  const HEADER: nat := 2

  // ---------- Delta decoding ----------

  function Clip(x: int): byte {
    if x < 0 then 0 else if x > 255 then 255 else x
  }

  // The k-th delta: the low half of a byte comes first.
  function Nibble(src: seq<byte>, k: nat): (r: nat)
    requires k < 2 * |src|
    ensures r < 16
  {
    if k % 2 == 0 then src[k / 2] % 16 else src[k / 2] / 16
  }

  // All samples of a channel at once.
  function Decoded(table: seq<int>, first: byte, src: seq<byte>): (r: seq<byte>)
    requires |table| == 16
    ensures |r| == 2 * |src|
  {
    if src == [] then []
    else
      var n := |src| - 1;
      var before := Decoded(table, first, src[..n]);
      var low := Clip((if n == 0 then first else before[2 * n - 1]) + table[src[n] % 16]);
      before + [low, Clip(low + table[src[n] / 16])]
  }

  function Last(table: seq<int>, first: byte, src: seq<byte>): byte
    requires |table| == 16
  {
    if src == [] then first else Decoded(table, first, src)[2 * |src| - 1]
  }

  // What sample k must be, given the one before it.
  function Step(table: seq<int>, first: byte, src: seq<byte>, out: seq<byte>, k: nat): byte
    requires |table| == 16 && k < |out| == 2 * |src|
  {
    Clip((if k == 0 then first else out[k - 1]) + table[Nibble(src, k)])
  }

  ghost predicate DecodedUpTo(table: seq<int>, first: byte, src: seq<byte>, out: seq<byte>, n: nat)
    requires |table| == 16 && n <= |out| == 2 * |src|
  {
    forall k :: 0 <= k < n ==> Follows(table, first, src, out, k)
  }

  ghost predicate Follows(table: seq<int>, first: byte, src: seq<byte>, out: seq<byte>, k: nat)
    requires |table| == 16 && k < |out| == 2 * |src|
  {
    out[k] == Step(table, first, src, out, k)
  }

  lemma TwoMore(table: seq<int>, first: byte, src: seq<byte>, out: seq<byte>, next: seq<byte>, i: nat)
    requires |table| == 16 && i < |src| && |out| == |next| == 2 * |src|
    requires DecodedUpTo(table, first, src, out, 2 * i)
    requires forall k :: 0 <= k < 2 * i ==> next[k] == out[k]
    requires next[2 * i] == Clip((if i == 0 then first else out[2 * i - 1]) + table[src[i] % 16])
    requires next[2 * i + 1] == Clip(next[2 * i] + table[src[i] / 16])
    ensures DecodedUpTo(table, first, src, next, 2 * (i + 1))
  {
    Nibbles(src, i);
    var n := 2 * i;
    assert Follows(table, first, src, next, n) && Follows(table, first, src, next, n + 1);
    forall k | 0 <= k < n ensures Follows(table, first, src, next, k) {
      assert Follows(table, first, src, out, k);
    }
  }

  lemma Nibbles(src: seq<byte>, i: nat)
    requires i < |src|
    ensures Nibble(src, 2 * i) == src[i] % 16 && Nibble(src, 2 * i + 1) == src[i] / 16
  {
  }

  // Each sample is the previous one plus a delta, clipped.
  lemma {:induction false} DecodedStep(table: seq<int>, first: byte, src: seq<byte>, k: nat)
    requires |table| == 16 && k < 2 * |src|
    ensures Decoded(table, first, src)[k] == Step(table, first, src, Decoded(table, first, src), k)
  {
    var n := |src| - 1;
    var d, before := Decoded(table, first, src), Decoded(table, first, src[..n]);
    assert |before| == 2 * n;
    if k < 2 * n {
      DecodedStep(table, first, src[..n], k);
      assert Nibble(src[..n], k) == Nibble(src, k);
      assert d[k] == before[k];
      assert k > 0 ==> d[k - 1] == before[k - 1];
    } else if k == 2 * n {
      assert Nibble(src, k) == src[n] % 16;
      assert k > 0 ==> d[k - 1] == before[k - 1];
    } else {
      assert k == 2 * n + 1 && Nibble(src, k) == src[n] / 16;
    }
  }

  // That determines them all.
  lemma {:induction false} DecodedUnique(table: seq<int>, first: byte, src: seq<byte>, out: seq<byte>, n: nat, k: nat)
    requires |table| == 16 && k < n <= |out| == 2 * |src|
    requires DecodedUpTo(table, first, src, out, n)
    ensures out[k] == Decoded(table, first, src)[k]
    decreases k
  {
    if k > 0 { DecodedUnique(table, first, src, out, n, k - 1); }
    DecodedStep(table, first, src, k);
    assert Follows(table, first, src, out, k);
  }

  // Decoding can stop anywhere and go on from the last value.
  lemma {:induction false} DecodedAppend(table: seq<int>, first: byte, a: seq<byte>, b: seq<byte>)
    requires |table| == 16
    ensures Decoded(table, first, a + b) == Decoded(table, first, a) + Decoded(table, Last(table, first, a), b)
    ensures Last(table, first, a + b) == Last(table, Last(table, first, a), b)
    decreases |b|
  {
    if b == [] {
      assert a + b == a;
    } else {
      var init, x := b[..|b| - 1], b[|b| - 1];
      DecodedAppend(table, first, a, init);
      AppendedByte(table, first, Last(table, first, a), a + init, init, x, Decoded(table, first, a));
      assert init + [x] == b && (a + init) + [x] == a + b;
    }
  }

  // If the samples of two stretches agree, after `front`, so do they with one byte more.
  lemma AppendedByte(table: seq<int>, f: byte, g: byte, u: seq<byte>, v: seq<byte>, x: byte, front: seq<byte>)
    requires |table| == 16 && Last(table, f, u) == Last(table, g, v)
    requires Decoded(table, f, u) == front + Decoded(table, g, v)
    ensures Decoded(table, f, u + [x]) == front + Decoded(table, g, v + [x])
    ensures Last(table, f, u + [x]) == Last(table, g, v + [x])
  {
    DecodedMore(table, f, u, x, u + [x]);
    DecodedMore(table, g, v, x, v + [x]);
    Regroup(front, Decoded(table, g, v), Pair(table, Last(table, g, v), x));
  }

  lemma Regroup(a: seq<byte>, b: seq<byte>, c: seq<byte>)
    ensures (a + b) + c == a + (b + c)
  {
  }

  // The two samples of a byte, from the value before it.
  function Pair(table: seq<int>, before: byte, x: byte): (r: seq<byte>)
    requires |table| == 16
    ensures |r| == 2
  {
    var low := Clip(before + table[x % 16]);
    [low, Clip(low + table[x / 16])]
  }

  lemma DecodedMore(table: seq<int>, first: byte, src: seq<byte>, x: byte, all: seq<byte>)
    requires |table| == 16 && all == src + [x]
    ensures Decoded(table, first, all) == Decoded(table, first, src) + Pair(table, Last(table, first, src), x)
    ensures Last(table, first, all) == Pair(table, Last(table, first, src), x)[1]
  {
    assert all[..|src|] == src;
  }

  // ---------- Runs ----------

  // What the context keeps: the last values, the stored channels, how much of them is decoded.
  datatype State = State(acc: seq<byte>, data: seq<seq<byte>>, idx: nat)

  ghost predicate Good(s: State) {
    && 1 <= |s.data| <= 2 && |s.acc| == |s.data|
    && s.idx <= |s.data[0]|
    && forall c :: 0 <= c < |s.data| ==> |s.data[c]| == |s.data[0]|
  }

  function Piece(s: State): int
    requires |s.data| > 0
  {
    Min(MAX_FRAME_SIZE, |s.data[0]| - s.idx)
  }

  function Next(table: seq<int>, s: State): (t: State)
    requires |table| == 16 && Good(s)
    ensures Good(t) && t.data == s.data && t.idx == s.idx + Piece(s)
  {
    State(seq(|s.data|, c requires 0 <= c < |s.data| => Last(table, s.acc[c], s.data[c][s.idx..s.idx + Piece(s)])),
          s.data, s.idx + Piece(s))
  }

  // The samples of one call, for one channel.
  function Samples(table: seq<int>, s: State, c: nat): seq<byte>
    requires |table| == 16 && Good(s) && c < |s.data|
  {
    Decoded(table, s.acc[c], s.data[c][s.idx..s.idx + Piece(s)])
  }

  // The first ch channels have had their piece of a call.
  ghost predicate PieceDone(table: seq<int>, s: State, samples: seq<seq<byte>>, acc: seq<byte>, ch: nat)
    requires |table| == 16 && Good(s)
  {
    && |samples| == ch <= |acc| == |s.data|
    && (forall c :: 0 <= c < ch ==> ChannelDone(table, s, samples, acc, c))
    && (forall c :: ch <= c < |acc| ==> ChannelKept(s, acc, c))
  }

  ghost predicate ChannelDone(table: seq<int>, s: State, samples: seq<seq<byte>>, acc: seq<byte>, c: nat)
    requires |table| == 16 && Good(s) && c < |samples| <= |acc| == |s.data|
  {
    samples[c] == Samples(table, s, c) && acc[c] == Next(table, s).acc[c]
  }

  ghost predicate ChannelKept(s: State, acc: seq<byte>, c: nat)
    requires c < |acc| == |s.acc|
  {
    acc[c] == s.acc[c]
  }

  lemma NextPiece(table: seq<int>, s: State, samples: seq<seq<byte>>, all: seq<byte>, ch: nat)
    requires |table| == 16 && Good(s) && ch < |s.data| <= |all|
    requires PieceDone(table, s, samples, all[..|s.data|], ch)
    ensures var last := Last(table, all[ch], s.data[ch][s.idx..s.idx + Piece(s)]);
      var piece := Decoded(table, all[ch], s.data[ch][s.idx..s.idx + Piece(s)]);
      PieceDone(table, s, samples + [piece], all[ch := last][..|s.data|], ch + 1)
  {
    var acc := all[..|s.data|];
    var last := Last(table, all[ch], s.data[ch][s.idx..s.idx + Piece(s)]);
    var more := samples + [Decoded(table, all[ch], s.data[ch][s.idx..s.idx + Piece(s)])];
    var next := all[ch := last][..|s.data|];
    assert ChannelKept(s, acc, ch);
    forall c: nat | c <= ch ensures ChannelDone(table, s, more, next, c) {
      if c < ch { assert ChannelDone(table, s, samples, acc, c); }
    }
    forall c: nat | ch < c < |next| ensures ChannelKept(s, next, c) {
      assert ChannelKept(s, acc, c);
    }
  }

  lemma AllPieces(table: seq<int>, s: State, samples: seq<seq<byte>>, acc: seq<byte>)
    requires |table| == 16 && Good(s) && PieceDone(table, s, samples, acc, |s.data|)
    ensures acc == Next(table, s).acc && forall c :: 0 <= c < |s.data| ==> samples[c] == Samples(table, s, c)
  {
    forall c: nat | c < |s.data| ensures samples[c] == Samples(table, s, c) && acc[c] == Next(table, s).acc[c] {
      assert ChannelDone(table, s, samples, acc, c);
    }
  }

  // The samples of n calls in a row.
  function Heard(table: seq<int>, s: State, c: nat, n: nat): seq<byte>
    requires |table| == 16 && Good(s) && c < |s.data|
    decreases n
  {
    if n == 0 then [] else Samples(table, s, c) + Heard(table, Next(table, s), c, n - 1)
  }

  function After(table: seq<int>, s: State, n: nat): (t: State)
    requires |table| == 16 && Good(s)
    ensures Good(t) && t.data == s.data
    ensures t.idx == Min(s.idx + MAX_FRAME_SIZE * n, |s.data[0]|)
    decreases n
  {
    if n == 0 then s else After(table, Next(table, s), n - 1)
  }

  lemma DecodedSlices(table: seq<int>, first: byte, src: seq<byte>, i: nat, j: nat, k: nat)
    requires |table| == 16 && i <= j <= k <= |src|
    ensures Decoded(table, first, src[i..k])
      == Decoded(table, first, src[i..j]) + Decoded(table, Last(table, first, src[i..j]), src[j..k])
  {
    DecodedAppend(table, first, src[i..j], src[j..k]);
    assert src[i..j] + src[j..k] == src[i..k];
  }

  // One call continues where the one before it stopped.
  lemma NextSlices(table: seq<int>, s: State, c: nat, end: nat)
    requires |table| == 16 && Good(s) && c < |s.data| && Next(table, s).idx <= end <= |s.data[c]|
    ensures var t := Next(table, s);
      Decoded(table, s.acc[c], s.data[c][s.idx..end])
        == Samples(table, s, c) + Decoded(table, t.acc[c], t.data[c][t.idx..end])
  {
    DecodedSlices(table, s.acc[c], s.data[c], s.idx, Next(table, s).idx, end);
  }

  // n calls give exactly what decoding their bytes at once gives.
  lemma {:induction false} HeardAtOnce(table: seq<int>, s: State, c: nat, n: nat, end: nat)
    requires |table| == 16 && Good(s) && c < |s.data| && end == After(table, s, n).idx
    ensures Heard(table, s, c, n) == Decoded(table, s.acc[c], s.data[c][s.idx..end])
    decreases n
  {
    if n == 0 {
      assert s.data[c][s.idx..s.idx] == [];
    } else {
      HeardAtOnce(table, Next(table, s), c, n - 1, end);
      NextSlices(table, s, c, end);
    }
  }

  function Frames(size: nat): nat {
    (size + MAX_FRAME_SIZE - 1) / MAX_FRAME_SIZE
  }

  // Call n (from 0) gives a frame exactly if n < ceil(size / 2048).
  lemma FrameIff(table: seq<int>, s: State, n: nat)
    requires |table| == 16 && Good(s) && s.idx == 0
    ensures Piece(After(table, s, n)) > 0 <==> n < Frames(|s.data[0]|)
  {
  }

  // All frames together: the one-shot decoding of the whole channel, two samples a byte.
  lemma ChunkedIsOneShot(table: seq<int>, s: State, c: nat, n: nat)
    requires |table| == 16 && Good(s) && s.idx == 0 && c < |s.data| && n >= Frames(|s.data[0]|)
    ensures Heard(table, s, c, n) == Decoded(table, s.acc[c], s.data[c])
    ensures |Heard(table, s, c, n)| == 2 * |s.data[c]|
  {
    FrameIff(table, s, n);
    HeardAtOnce(table, s, c, n, |s.data[c]|);
    assert s.data[c][0..|s.data[c]|] == s.data[c];
  }

  // ---------- The first packet ----------

  function Biased(b: byte): byte {
    var x: int := b;
    (x + 128) % 256
  }

  // A packet is cut into as many equal parts as there are channels, an odd byte left over; a
  // part is a byte that is not used, the start value (less 128), and the deltas.
  function Part(packet: seq<byte>, channels: nat, c: nat): (r: seq<byte>)
    requires 1 <= channels <= 2 && c < channels
    ensures |r| == |packet| / channels
  {
    var n := |packet| / channels;
    if c == 0 then packet[..n] else packet[n..2 * n]
  }

  function Stored(packet: seq<byte>, channels: nat): (s: State)
    requires 1 <= channels <= 2 && |packet| >= (HEADER + 1) * channels
    ensures Good(s) && s.idx == 0 && |s.data| == channels
    ensures |s.data[0]| == |packet| / channels - HEADER
  {
    State(seq(channels, c requires 0 <= c < channels => Biased(Part(packet, channels, c)[1])),
          seq(channels, c requires 0 <= c < channels => Part(packet, channels, c)[HEADER..]), 0)
  }

  // From the first packet on: per channel the decoding of its part, complete after
  // ceil(size / 2048) frames.
  lemma PacketIsOneShot(table: seq<int>, packet: seq<byte>, channels: nat, c: nat, n: nat)
    requires |table| == 16 && 1 <= channels <= 2 && c < channels && |packet| >= (HEADER + 1) * channels
    requires n >= Frames(|packet| / channels - HEADER)
    ensures var part := Part(packet, channels, c);
      Heard(table, Stored(packet, channels), c, n) == Decoded(table, Biased(part[1]), part[HEADER..])
  {
    ChunkedIsOneShot(table, Stored(packet, channels), c, n);
  }

  // The bytes reported as used, from call number `frame` on.
  function Used(table: seq<int>, s: State, frame: nat, n: nat): nat
    requires |table| == 16 && Good(s)
    decreases n
  {
    if n == 0 || Piece(s) <= 0 then 0
    else ((if frame == 0 then HEADER else 0) + Piece(s)) * |s.data| + Used(table, Next(table, s), frame + 1, n - 1)
  }

  lemma {:induction false} UsedLater(table: seq<int>, s: State, frame: nat, n: nat)
    requires |table| == 16 && Good(s) && frame > 0
    ensures Used(table, s, frame, n) == (After(table, s, n).idx - s.idx) * |s.data|
    decreases n
  {
    if n > 0 && Piece(s) > 0 {
      var t := Next(table, s);
      UsedLater(table, t, frame + 1, n - 1);
      Spread(Piece(s), After(table, s, n).idx - t.idx, |s.data|);
    }
  }

  lemma Spread(a: int, b: int, n: nat)
    ensures (a + b) * n == a * n + b * n
  {
  }

  lemma OddLeft(size: nat, channels: nat)
    requires 1 <= channels <= 2
    ensures size / channels * channels == size - size % channels
  {
  }

  lemma AllUsed(table: seq<int>, s: State, n: nat)
    requires |table| == 16 && Good(s) && s.idx == 0 && |s.data[0]| > 0 && n >= Frames(|s.data[0]|)
    ensures Used(table, s, 0, n) == (HEADER + |s.data[0]|) * |s.data|
  {
    var t, size := Next(table, s), |s.data[0]|;
    FrameIff(table, s, n);
    assert After(table, t, n - 1).idx == size;
    UsedLater(table, t, 1, n - 1);
    Spread(HEADER + Piece(s), size - t.idx, |s.data|);
  }

  // The frames report the whole packet as used, but for the odd byte.
  lemma WholePacketUsed(table: seq<int>, packet: seq<byte>, channels: nat, n: nat)
    requires |table| == 16 && 1 <= channels <= 2 && |packet| >= (HEADER + 1) * channels
    requires n >= Frames(|packet| / channels - HEADER)
    ensures Used(table, Stored(packet, channels), 0, n) == |packet| - |packet| % channels
  {
    var s := Stored(packet, channels);
    AllUsed(table, s, n);
    OddLeft(|packet|, channels);
  }

  // ---------- The decoder ----------

  // NullPacket: the size of a packet that is not there is read, and what follows is undefined.
  datatype Result = NullPacket | Invalid | NoFrame(used: int) | Frame(samples: seq<seq<byte>>, used: int)

  class EightSvxContext {
    const table: seq<int>
    const channels: nat
    var fibAcc: array<byte>
    var data: Option<seq<seq<byte>>>
    var dataSize: int
    var dataIdx: nat

    ghost predicate Valid()
      reads this, fibAcc
    {
      && |table| == 16 && 1 <= channels <= 2 && fibAcc.Length == 2
      && (data.Some? ==> |data.value| == channels && dataSize == |data.value[0]| && Good(View()))
    }

    ghost function View(): State
      requires data.Some? && channels <= fibAcc.Length
      reads this, fibAcc
    {
      State(fibAcc[..channels], data.value, dataIdx)
    }

    constructor (exponential: bool, channels: nat)
      requires 1 <= channels <= 2
      ensures Valid() && data.None? && this.channels == channels && fresh(fibAcc)
      ensures table == if exponential then EXPONENTIAL else FIBONACCI
    {
      this.table := if exponential then EXPONENTIAL else FIBONACCI;
      this.channels := channels;
      fibAcc := new byte[2];
      data, dataSize, dataIdx := None, 0, 0;
    }

    static method Delta(dst: array<byte>, src: seq<byte>, state: byte, table: seq<int>) returns (val: byte)
      requires |table| == 16 && dst.Length == 2 * |src|
      modifies dst
      ensures dst[..] == Decoded(table, state, src)
      ensures val == Last(table, state, src)
    {
      val := state;
      var i := 0;
      while i < |src|
        invariant 0 <= i <= |src|
        invariant val == if i == 0 then state else dst[2 * i - 1]
        invariant DecodedUpTo(table, state, src, dst[..], 2 * i)
      {
        var d := src[i];
        ghost var before := dst[..];
        val := Clip(val + table[d % 16]);
        dst[2 * i] := val;
        val := Clip(val + table[d / 16]);
        dst[2 * i + 1] := val;
        TwoMore(table, state, src, before, dst[..], i);
        i := i + 1;
      }
      forall k | 0 <= k < 2 * |src| ensures dst[..][k] == Decoded(table, state, src)[k] {
        DecodedUnique(table, state, src, dst[..], 2 * |src|, k);
      }
    }

    // The first packet is stored; without one there is nothing to decode.
    method Store(packet: seq<byte>) returns (ok: bool)
      requires Valid() && data.None?
      modifies this`data, this`dataSize, this`dataIdx, fibAcc
      ensures Valid() && ok == (|packet| >= (HEADER + 1) * channels)
      ensures if ok then data.Some? && View() == Stored(packet, channels) else data.None?
    {
      var chanSize := |packet| / channels - HEADER;
      if |packet| < (HEADER + 1) * channels { return false; }
      fibAcc[0] := Biased(packet[1]);
      if channels == 2 { fibAcc[1] := Biased(packet[2 + chanSize + 1]); }
      dataIdx, dataSize := 0, chanSize;
      var first := packet[HEADER..HEADER + chanSize];
      if channels == 2 {
        data := Some([first, packet[2 * HEADER + chanSize..2 * HEADER + 2 * chanSize]]);
      } else {
        data := Some([first]);
      }
      ghost var s := Stored(packet, channels);
      assert data.value[0] == s.data[0];
      if channels == 2 { assert data.value[1] == s.data[1]; }
      assert data.value == s.data;
      assert fibAcc[..channels] == s.acc;
      ok := true;
    }

    method DecodeChannel(ch: nat, bufSize: nat) returns (samples: seq<byte>)
      requires |table| == 16 && fibAcc.Length == 2 && ch < 2
      requires data.Some? && ch < |data.value| && dataIdx + bufSize <= |data.value[ch]|
      modifies fibAcc
      ensures var src := data.value[ch][dataIdx..dataIdx + bufSize];
        && samples == Decoded(table, old(fibAcc[ch]), src)
        && fibAcc[..] == old(fibAcc[..])[ch := Last(table, old(fibAcc[ch]), src)]
    {
      var dst := new byte[2 * bufSize];
      var val := Delta(dst, data.value[ch][dataIdx..dataIdx + bufSize], fibAcc[ch], table);
      fibAcc[ch] := val;
      samples := dst[..];
    }

    // The loop over the channels: the next piece of each.
    method DecodePiece(bufSize: nat) returns (samples: seq<seq<byte>>)
      requires Valid() && data.Some? && bufSize == Piece(View())
      modifies fibAcc
      ensures fibAcc[..channels] == Next(table, old(View())).acc
      ensures |samples| == channels && forall c :: 0 <= c < channels ==> samples[c] == Samples(table, old(View()), c)
    {
      ghost var s := View();
      var ch := 0;
      samples := [];
      while ch < channels
        invariant 0 <= ch <= channels && PieceDone(table, s, samples, fibAcc[..channels], ch)
      {
        ghost var had, all := samples, fibAcc[..];
        var piece := DecodeChannel(ch, bufSize);
        samples := samples + [piece];
        assert fibAcc[..channels] == fibAcc[..][..channels];
        NextPiece(table, s, had, all, ch);
        ch := ch + 1;
      }
      AllPieces(table, s, samples, fibAcc[..channels]);
    }

    method DecodeFrame(packet: Option<seq<byte>>, frameNumber: nat) returns (r: Result)
      requires Valid()
      modifies this`data, this`dataSize, this`dataIdx, fibAcc
      ensures Valid()
      ensures old(data).None? && (packet.None? || |packet.value| < (HEADER + 1) * channels)
        ==> r == Invalid && data.None?
      ensures old(data).None? && packet.Some? && |packet.value| >= (HEADER + 1) * channels ==>
        Decodes(Stored(packet.value, channels), frameNumber, r)
      ensures old(data).Some? ==>
        if old(Piece(View())) > 0 then Decodes(old(View()), frameNumber, r)
        else data.Some? && View() == old(View()) && r == if packet.Some? then NoFrame(|packet.value|) else NullPacket
    {
      if data.None? && packet.Some? {
        var ok := Store(packet.value);
        if !ok { return Invalid; }
      }
      if data.None? { return Invalid; }
      var bufSize := Min(MAX_FRAME_SIZE, dataSize - dataIdx);
      if bufSize <= 0 {
        r := if packet.Some? then NoFrame(|packet.value|) else NullPacket;
        return;
      }
      r := NextFrame(bufSize, frameNumber);
    }

    // The end of a call that has something to decode.
    method NextFrame(bufSize: nat, frameNumber: nat) returns (r: Result)
      requires Valid() && data.Some? && 0 < bufSize == Piece(View())
      modifies this`dataIdx, fibAcc
      ensures Valid() && Decodes(old(View()), frameNumber, r)
    {
      ghost var s := View();
      var samples := DecodePiece(bufSize);
      dataIdx := dataIdx + bufSize;
      assert View() == Next(table, s);
      r := Frame(samples, ((if frameNumber == 0 then HEADER else 0) + bufSize) * channels);
    }

    // A call that gives the next frame from state s.
    ghost predicate Decodes(s: State, frameNumber: nat, r: Result)
      requires Valid() && Good(s) && |s.data| == channels
      reads this, fibAcc
    {
      && data.Some? && View() == Next(table, s)
      && r.Frame? && |r.samples| == channels
      && (forall c :: 0 <= c < channels ==> r.samples[c] == Samples(table, s, c))
      && r.used == ((if frameNumber == 0 then HEADER else 0) + Piece(s)) * channels
    }
  }
}
