// What the nibbles of an 8SVX channel, its start value and the clipping mean.
module DeltaWriter {
  import opened Common
  import opened DeltaDecode

  // ---------- Deltas in bytes ----------

  predicate Nibbles(ds: seq<nat>) {
    |ds| % 2 == 0 && forall k :: 0 <= k < |ds| ==> ds[k] < 16
  }

  // Two deltas to a byte, the first in the low half.
  function Pack(ds: seq<nat>): (r: seq<byte>)
    requires Nibbles(ds)
    ensures |r| * 2 == |ds|
  {
    seq(|ds| / 2, i requires 0 <= i < |ds| / 2 => Both(ds[2 * i], ds[2 * i + 1]))
  }

  function Both(lo: nat, hi: nat): byte
    requires lo < 16 && hi < 16
  {
    lo + 16 * hi
  }

  // The value in 0..255 that is nearest.
  function Nearest(x: int): (r: byte)
    ensures 0 <= x <= 255 ==> r == x
    ensures forall v: byte :: Distance(r, x) <= Distance(v, x)
  {
    if x < 0 then 0 else if x > 255 then 255 else x
  }

  function Distance(a: int, b: int): nat {
    if a < b then b - a else a - b
  }

  lemma Unpacked(ds: seq<nat>, k: nat)
    requires Nibbles(ds) && k < |ds|
    ensures Nibble(Pack(ds), k) == ds[k]
  {
    var i := k / 2;
    assert Pack(ds)[i] == Both(ds[2 * i], ds[2 * i + 1]);
    Halves(ds[2 * i], ds[2 * i + 1]);
    assert k == 2 * i || k == 2 * i + 1;
  }

  lemma Halves(lo: nat, hi: nat)
    requires lo < 16 && hi < 16
    ensures Both(lo, hi) % 16 == lo && Both(lo, hi) / 16 == hi
  {
  }

  // Packed deltas are decoded to their sums: each sample is the one before plus the delta the table
  // gives, or what is nearest to that.
  lemma DecodedBack(table: seq<int>, first: byte, ds: seq<nat>, k: nat)
    requires |table| == 16 && Nibbles(ds) && k < |ds|
    ensures var r := Decoded(table, first, Pack(ds));
      |r| == |ds| && r[k] == Nearest((if k == 0 then first else r[k - 1]) + table[ds[k]])
  {
    Unpacked(ds, k);
    DecodedStep(table, first, Pack(ds), k);
  }

  // ---------- The start value ----------

  // A byte as a signed number in two's complement.
  function Signed(b: byte): (r: int)
    ensures -128 <= r <= 127 && (r - b) % 256 == 0
  {
    if b < 128 then b else b - 256
  }

  // A signed start value becomes the sample that stands for it: 128 more.
  lemma StartIsShifted(b: byte)
    ensures Biased(b) == Signed(b) + 128
  {
  }

  // ---------- The packet ----------

  // The channels stand one after the other; a byte left over belongs to none.
  lemma PartsBack(left: seq<byte>, right: seq<byte>, odd: seq<byte>)
    requires |left| == |right| && |odd| <= 1
    ensures Part(left + right + odd, 2, 0) == left && Part(left + right + odd, 2, 1) == right
    ensures Part(left, 1, 0) == left
  {
    var packet := left + right + odd;
    assert |packet| / 2 == |left|;
    assert packet[..|left|] == left && packet[|left|..2 * |left|] == right;
  }

  lemma PartIs(part: seq<byte>, unused: byte, start: byte, deltas: seq<byte>)
    requires part == [unused, start] + deltas
    ensures |part| == 2 + |deltas| && part[1] == start && part[2..] == deltas
  {
  }

  // A mono or stereo packet gives, for each channel, the sums of its deltas from its start value.
  lemma PacketBack(table: seq<int>, packet: seq<byte>, channels: nat, c: nat, unused: byte, start: byte, ds: seq<nat>,
                   n: nat)
    requires |table| == 16 && 1 <= channels <= 2 && c < channels && Nibbles(ds)
    requires |packet| >= (HEADER + 1) * channels && Part(packet, channels, c) == [unused, start] + Pack(ds)
    requires n >= Frames(|packet| / channels - HEADER)
    ensures Heard(table, Stored(packet, channels), c, n) == Decoded(table, Signed(start) + 128, Pack(ds))
  {
    PacketIsOneShot(table, packet, channels, c, n);
    PartIs(Part(packet, channels, c), unused, start, Pack(ds));
    StartIsShifted(start);
  }

  // ---------- The tables ----------

  // The one table holds the Fibonacci numbers and their negatives, the other the powers of two.
  lemma TablesAre()
    ensures |FIBONACCI| == |EXPONENTIAL| == 16 && FIBONACCI[8] == EXPONENTIAL[8] == 0
    ensures FIBONACCI[9] == 1 && FIBONACCI[10] == 2 && EXPONENTIAL[9] == 1
    ensures forall k :: 9 <= k < 14 ==> FIBONACCI[k + 2] == FIBONACCI[k] + FIBONACCI[k + 1]
    ensures forall k :: 9 <= k < 15 ==> EXPONENTIAL[k + 1] == 2 * EXPONENTIAL[k]
    ensures forall k :: 1 <= k < 8 ==> FIBONACCI[k] == -FIBONACCI[16 - k] && EXPONENTIAL[k] == -EXPONENTIAL[16 - k]
    ensures FIBONACCI[0] == FIBONACCI[1] + FIBONACCI[2] && EXPONENTIAL[0] == 2 * EXPONENTIAL[1]
  {
  }
}
