// The inter-frame decoder of 4xm.c: every 8x8 block is split by codes from the bitstream into
// rectangles that are copied from the last frame, filled, kept or given literally.
module BlockCodes {

  // ---------- The variable-length codes ----------

  // block_type_tab: (code, length) of the seven block types; length 0 means not available.
  function Entry(oldVersion: bool, index: nat, blockType: nat): (nat, nat)
    requires index < 4 && blockType < 7
  {
    var row: seq<(nat, nat)> :=
      if !oldVersion then
        if index == 0 then [(0, 1), (2, 2), (6, 3), (14, 4), (30, 5), (31, 5), (0, 0)]
        else if index == 1 then [(0, 1), (0, 0), (2, 2), (6, 3), (14, 4), (15, 4), (0, 0)]
        else if index == 2 then [(0, 1), (2, 2), (0, 0), (6, 3), (14, 4), (15, 4), (0, 0)]
        else [(0, 1), (0, 0), (0, 0), (2, 2), (6, 3), (14, 4), (15, 4)]
      else
        if index == 0 then [(1, 2), (4, 3), (5, 3), (0, 2), (6, 3), (7, 3), (0, 0)]
        else if index == 1 then [(1, 2), (0, 0), (2, 2), (0, 2), (6, 3), (7, 3), (0, 0)]
        else if index == 2 then [(1, 2), (2, 2), (0, 0), (0, 2), (6, 3), (7, 3), (0, 0)]
        else [(1, 2), (0, 0), (0, 0), (0, 2), (2, 2), (6, 3), (7, 3)];
    row[blockType]
  }

  // size2index[log2h][log2w]; the entry for a 1x1 block is the byte -1, that is 255.
  function SizeIndex(log2h: nat, log2w: nat): nat
    requires log2h < 4 && log2w < 4
  {
    if log2h == 0 && log2w == 0 then 255
    else if log2h == 0 then (if log2w == 1 then 3 else 1)
    else if log2w == 0 then (if log2h == 1 then 3 else 2)
    else 0
  }

  function BitAt(bits: nat -> bool, pos: nat): nat {
    if bits(pos) then 1 else 0
  }

  // The next five bits, most significant first.
  function Peek5(bits: nat -> bool, pos: nat): (v: nat)
    ensures v < 32
  {
    16 * BitAt(bits, pos) + 8 * BitAt(bits, pos + 1) + 4 * BitAt(bits, pos + 2) + 2 * BitAt(bits, pos + 3)
      + BitAt(bits, pos + 4)
  }

  // The peeked bits start with the code of this block type.
  predicate Matches(entry: (nat, nat), v: nat) {
    match entry.1
    case 1 => v / 16 == entry.0
    case 2 => v / 8 == entry.0
    case 3 => v / 4 == entry.0
    case 4 => v / 2 == entry.0
    case 5 => v == entry.0
    case _ => false
  }

  // The block type whose code the bits start with, 7 if there is none.
  function Lookup(oldVersion: bool, index: nat, v: nat, from: nat): (k: nat)
    requires index < 4 && from <= 7
    ensures k <= 7
    ensures k < 7 ==> Matches(Entry(oldVersion, index, k), v)
    ensures forall i :: from <= i < k ==> !Matches(Entry(oldVersion, index, i), v)
    decreases 7 - from
  {
    if from == 7 then 7
    else if Matches(Entry(oldVersion, index, from), v) then from
    else Lookup(oldVersion, index, v, from + 1)
  }

  // Block type and code length by the value of the next five bits.
  datatype Code = Code(blockType: nat, length: nat)

  function CodeAt(oldVersion: bool, index: nat, v: nat): (c: Code)
    requires index < 4 && v < 32
    ensures c.blockType < 7
  {
    if oldVersion then
      if v < 8 then Code(3, 2)
      else if v < 16 then Code(0, 2)
      else if v < 24 then
        if index == 0 then (if v < 20 then Code(1, 3) else Code(2, 3))
        else Code(if index == 1 then 2 else if index == 2 then 1 else 4, 2)
      else Code((if v < 28 then 4 else 5) + (if index == 3 then 1 else 0), 3)
    else
      if v < 16 then Code(0, 1)
      else if v < 24 then Code(if index == 0 || index == 2 then 1 else if index == 1 then 2 else 3, 2)
      else if v < 28 then Code(if index == 0 then 2 else if index == 3 then 4 else 3, 3)
      else if v < 30 then Code(if index == 0 then 3 else if index == 3 then 5 else 4, 4)
      else if index == 0 then Code(if v == 30 then 4 else 5, 5)
      else Code(if index == 3 then 6 else 5, 4)
  }

  lemma OneEntryMatches(oldVersion: bool, index: nat, k: nat, v: nat)
    requires index < 4 && k < 7 && v < 32
    ensures Matches(Entry(oldVersion, index, k), v) <==> k == CodeAt(oldVersion, index, v).blockType
  {
    if k == 0 {} else if k == 1 {} else if k == 2 {} else if k == 3 {} else if k == 4 {} else if k == 5 {} else {}
  }

  // All eight tables are complete prefix codes: whatever the next bits are, they start with
  // the code of exactly one block type, which the lookup finds.
  lemma TablesComplete(oldVersion: bool, index: nat, v: nat)
    requires index < 4 && v < 32
    ensures Lookup(oldVersion, index, v, 0) == CodeAt(oldVersion, index, v).blockType
    ensures Entry(oldVersion, index, CodeAt(oldVersion, index, v).blockType).1 == CodeAt(oldVersion, index, v).length
    ensures forall k :: 0 <= k < 7 ==>
      (Matches(Entry(oldVersion, index, k), v) <==> k == CodeAt(oldVersion, index, v).blockType)
  {
    forall k | 0 <= k < 7 {
      OneEntryMatches(oldVersion, index, k, v);
    }
  }

  // A split is only ever coded for a side longer than one pixel whose halves still hold two
  // pixels, and the literal pair only for two-pixel blocks.
  lemma SplitsLeaveTwoPixels(oldVersion: bool, log2w: nat, log2h: nat, v: nat)
    requires log2w < 4 && log2h < 4 && log2w + log2h > 0 && v < 32
    ensures SizeIndex(log2h, log2w) < 4
    ensures CodeAt(oldVersion, SizeIndex(log2h, log2w), v).blockType == 1 ==> log2h > 0 && log2w + log2h > 1
    ensures CodeAt(oldVersion, SizeIndex(log2h, log2w), v).blockType == 2 ==> log2w > 0 && log2w + log2h > 1
    ensures CodeAt(oldVersion, SizeIndex(log2h, log2w), v).blockType == 6 ==> log2w + log2h == 1
  {
  }
}
