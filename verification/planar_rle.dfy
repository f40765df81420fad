// 8bps.c: planes of run-length coded rows are decoded into the interleaved bytes of a frame.
module PlanarRle {
  import opened Common

  // ---------- Set-up ----------

  datatype PixelFormat = Pal8 | Bgr24 | ZeroRgb32 | Rgb32

  // planemap: the byte of a pixel that each plane fills; inc: the bytes of a pixel.
  datatype Setup = Setup(planemap: seq<nat>, inc: nat)

  // `with0` is the format chosen for 24 bits: 32 bits with an unused byte, or 24.
  function Init(depth: int, with0: bool, bigEndian: bool): Option<Setup> {
    if depth == 8 then Some(Setup([0], 1))
    else if depth == 24 then Some(Setup([2, 1, 0], if with0 then 4 else 3))
    else if depth == 32 then Some(Setup(if bigEndian then [1, 2, 3, 0] else [2, 1, 0, 3], 4))
    else None
  }

  // Every plane has a byte of the pixel to itself.
  ghost predicate Disjoint(s: Setup) {
    && s.inc > 0
    && (forall p :: 0 <= p < |s.planemap| ==> s.planemap[p] < s.inc)
    && (forall p, q :: 0 <= p < q < |s.planemap| ==> s.planemap[p] != s.planemap[q])
  }

  lemma InitDisjoint(depth: int, with0: bool, bigEndian: bool)
    ensures var s := Init(depth, with0, bigEndian);
      (s.Some? <==> depth in {8, 24, 32}) && (s.Some? ==> Disjoint(s.value))
  {
  }

  // Where red, green and blue stand in a pixel of the format.
  function ColourBytes(f: PixelFormat, bigEndian: bool): seq<nat> {
    match f
    case Pal8 => [0]
    case Bgr24 => [2, 1, 0]
    case ZeroRgb32 => if bigEndian then [1, 2, 3] else [2, 1, 0]
    case Rgb32 => if bigEndian then [1, 2, 3, 0] else [2, 1, 0, 3]
  }

  function FormatOf(depth: int, with0: bool): PixelFormat {
    if depth == 8 then Pal8 else if depth == 24 then (if with0 then ZeroRgb32 else Bgr24) else Rgb32
  }

  // One pixel as the decoder stores it, a value for each plane, over the bytes that were there.
  function StoredPixel(s: Setup, values: seq<byte>, was: seq<byte>): (pixel: seq<byte>)
    requires |values| == |s.planemap| && |was| == s.inc && forall p :: 0 <= p < |s.planemap| ==> s.planemap[p] < s.inc
    ensures |pixel| == s.inc
  {
    StoredPlanes(s, values, was, |values|)
  }

  function StoredPlanes(s: Setup, values: seq<byte>, was: seq<byte>, n: nat): (pixel: seq<byte>)
    requires |values| == |s.planemap| && |was| == s.inc && forall p :: 0 <= p < |s.planemap| ==> s.planemap[p] < s.inc
    requires n <= |values|
    ensures |pixel| == s.inc
  {
    if n == 0 then was else StoredPlanes(s, values, was, n - 1)[s.planemap[n - 1] := values[n - 1]]
  }

  // What the pixel format reads from it: red, green, blue and, in that order, what else it has.
  function AsColours(f: PixelFormat, bigEndian: bool, pixel: seq<byte>): seq<byte>
    requires forall c :: 0 <= c < |ColourBytes(f, bigEndian)| ==> ColourBytes(f, bigEndian)[c] < |pixel|
  {
    var bytes := ColourBytes(f, bigEndian);
    seq(|bytes|, c requires 0 <= c < |bytes| => pixel[bytes[c]])
  }

  ghost predicate ColoursRight(s: Setup, f: PixelFormat, bigEndian: bool)
    requires forall p :: 0 <= p < |s.planemap| ==> s.planemap[p] < s.inc
    requires forall c :: 0 <= c < |ColourBytes(f, bigEndian)| ==> ColourBytes(f, bigEndian)[c] < s.inc
  {
    forall values: seq<byte>, was: seq<byte> :: |values| == |s.planemap| && |was| == s.inc
      ==> AsColours(f, bigEndian, StoredPixel(s, values, was)) == values
  }

  lemma {:induction false} PlanesStay(s: Setup, values: seq<byte>, was: seq<byte>, n: nat)
    requires Disjoint(s) && |values| == |s.planemap| && |was| == s.inc && n <= |values|
    ensures forall p :: 0 <= p < n ==> StoredPlanes(s, values, was, n)[s.planemap[p]] == values[p]
  {
    if n > 0 { PlanesStay(s, values, was, n - 1); }
  }

  lemma RightWhenSame(s: Setup, f: PixelFormat, bigEndian: bool)
    requires Disjoint(s) && ColourBytes(f, bigEndian) == s.planemap
    ensures ColoursRight(s, f, bigEndian)
  {
    forall values: seq<byte>, was: seq<byte> | |values| == |s.planemap| && |was| == s.inc
      ensures AsColours(f, bigEndian, StoredPixel(s, values, was)) == values
    {
      PlanesStay(s, values, was, |values|);
    }
  }

  lemma WrongOnBigEndian()
    ensures !ColoursRight(Setup([2, 1, 0], 4), ZeroRgb32, true)
  {
    var s, values: seq<byte>, was: seq<byte> := Setup([2, 1, 0], 4), [1, 2, 3], [0, 0, 0, 0];
    PlanesStay(s, values, was, 3);
    assert AsColours(ZeroRgb32, true, StoredPixel(s, values, was))[0] == values[1];
  }

  // Every pixel shows the values of its planes, whatever they are, except for 24 bits decoded into
  // 32 on a big-endian machine.
  lemma ColoursIff(depth: int, with0: bool, bigEndian: bool)
    requires depth in {8, 24, 32}
    ensures var s := Init(depth, with0, bigEndian);
      s.Some? && Disjoint(s.value)
      && (ColoursRight(s.value, FormatOf(depth, with0), bigEndian) <==> !(depth == 24 && with0 && bigEndian))
  {
    if depth == 24 && with0 && bigEndian {
      WrongOnBigEndian();
    } else {
      RightWhenSame(Init(depth, with0, bigEndian).value, FormatOf(depth, with0), bigEndian);
    }
  }

  // ---------- One row of a plane ----------

  datatype Status = Done | Invalid

  // The pixels stored, and where reading goes on.
  datatype Row = Row(pixels: seq<byte>, dp: int, status: Status)

  function Repeat(b: byte, n: nat): (r: seq<byte>)
    ensures |r| == n && forall k :: 0 <= k < n ==> r[k] == b
  {
    seq(n, _ => b)
  }

  // Subtraction of the unsigned 32-bit counter.
  function Less(dlen: nat, n: nat): (r: nat)
    requires dlen < U32 && n < U32
    ensures r < U32 && r == (dlen - n) % U32
  {
    if dlen >= n then dlen - n else dlen - n + U32
  }

  // The row loop: `dlen` bytes are announced, `left` pixels fit before the end of the row. A
  // run that does not fit ends the row.
  function RunRow(buf: seq<byte>, dp: int, dlen: nat, left: int): (r: Row)
    requires dp >= 0 && dlen < U32
    ensures r.dp >= dp && (left >= 0 ==> |r.pixels| <= left)
    decreases |buf| - dp
  {
    if dlen == 0 then Row([], dp, Done)
    else if |buf| - dp <= 1 then Row([], dp, Invalid)
    else if buf[dp] <= 127 then
      var n := buf[dp] + 1;
      if left < n then Row([], dp + 1, Done)
      else if |buf| - (dp + 1) < n then Row([], dp + 1, Invalid)
      else
        var rest := RunRow(buf, dp + 1 + n, Less(dlen, n + 1), left - n);
        rest.(pixels := buf[dp + 1..dp + 1 + n] + rest.pixels)
    else
      var n := 257 - buf[dp];
      if left < n then Row([], dp + 1, Done)
      else
        var rest := RunRow(buf, dp + 2, Less(dlen, 2), left - n);
        rest.(pixels := Repeat(buf[dp + 1], n) + rest.pixels)
  }

  // The run-length code itself, from dp to end, if that is a whole number of runs.
  function Expand(buf: seq<byte>, dp: nat, end: nat): Option<seq<byte>>
    requires dp <= end <= |buf|
    decreases end - dp
  {
    if dp == end then Some([])
    else if buf[dp] <= 127 then
      var n := buf[dp] + 1;
      if end < dp + 1 + n then None
      else
        var rest := Expand(buf, dp + 1 + n, end);
        if rest.None? then None else Some(buf[dp + 1..dp + 1 + n] + rest.value)
    else if end < dp + 2 then None
    else
      var rest := Expand(buf, dp + 2, end);
      if rest.None? then None else Some(Repeat(buf[dp + 1], 257 - buf[dp]) + rest.value)
  }

  // The code of a row stands from dp to end, is complete, and its pixels fit.
  predicate RowFits(buf: seq<byte>, dp: nat, end: nat, left: int) {
    && dp <= end <= |buf|
    && Expand(buf, dp, end).Some?
    && |Expand(buf, dp, end).value| <= left
  }

  // The loop takes such a row apart into exactly its expansion.
  lemma {:induction false} RowExpands(buf: seq<byte>, dp: nat, end: nat, left: int)
    requires RowFits(buf, dp, end, left) && end - dp < U32
    ensures RunRow(buf, dp, end - dp, left) == Row(Expand(buf, dp, end).value, end, Done)
    decreases end - dp
  {
    if dp < end {
      if buf[dp] <= 127 {
        RowExpands(buf, dp + 2 + buf[dp], end, left - (buf[dp] + 1));
      } else {
        RowExpands(buf, dp + 2, end, left - (257 - buf[dp]));
      }
    }
  }

  // ---------- All rows ----------

  // Where the lengths of plane p begin.
  function LinesAt(height: nat, p: nat): nat {
    if p == 0 then 0 else LinesAt(height, p - 1) + 2 * height
  }

  lemma {:induction false} LinesAtIs(height: nat, p: nat)
    ensures LinesAt(height, p) == p * (2 * height)
  {
    if p > 0 { LinesAtIs(height, p - 1); }
  }

  // The two bytes in the table of lengths, the high one first.
  function LengthAt(buf: seq<byte>, height: nat, p: nat, row: nat): (n: nat)
    requires LinesAt(height, p) + 2 * row + 2 <= |buf|
    ensures n < 0x1_0000
  {
    var hi: int, lo: int := buf[LinesAt(height, p) + 2 * row], buf[LinesAt(height, p) + 2 * row + 1];
    hi * 256 + lo
  }

  // Rows of one plane from `row` on, until one is invalid.
  datatype Rows = Rows(rows: seq<seq<byte>>, dp: int, status: Status)

  function PlaneRows(buf: seq<byte>, height: nat, width: nat, p: nat, row: nat, dp: int): (r: Rows)
    requires dp >= 0 && row <= height
    ensures |r.rows| <= height - row && (r.status.Done? ==> |r.rows| == height - row)
    ensures r.dp >= 0
    decreases height - row
  {
    if row == height then Rows([], dp, Done)
    else if |buf| - LinesAt(height, p) < 2 * row + 2 then Rows([], dp, Invalid)
    else
      var r := RunRow(buf, dp, LengthAt(buf, height, p, row), width);
      if r.status.Invalid? then Rows([r.pixels], r.dp, Invalid)
      else
        var rest := PlaneRows(buf, height, width, p, row + 1, r.dp);
        rest.(rows := [r.pixels] + rest.rows)
  }

  datatype Planes = Planes(planes: seq<seq<seq<byte>>>, status: Status)

  function PlanesFrom(buf: seq<byte>, height: nat, width: nat, count: nat, p: nat, dp: int): (r: Planes)
    requires dp >= 0 && p <= count
    ensures |r.planes| <= count - p && (r.status.Done? ==> |r.planes| == count - p)
    decreases count - p
  {
    if p == count then Planes([], Done)
    else
      var rows := PlaneRows(buf, height, width, p, 0, dp);
      if rows.status.Invalid? then Planes([rows.rows], Invalid)
      else
        var rest := PlanesFrom(buf, height, width, count, p + 1, rows.dp);
        rest.(planes := [rows.rows] + rest.planes)
  }

  // ----- Packets whose lengths are right -----

  // Where a row's code begins: after the table and all rows before it.
  function Start(buf: seq<byte>, height: nat, count: nat, p: nat, row: nat): (s: nat)
    requires p < count && row <= height && LinesAt(height, count) <= |buf|
    decreases p, row
  {
    if row > 0 then
      InTable(height, count, p);
      Start(buf, height, count, p, row - 1) + LengthAt(buf, height, p, row - 1)
    else if p > 0 then Start(buf, height, count, p - 1, height)
    else LinesAt(height, count)
  }

  lemma {:induction false} InTable(height: nat, count: nat, p: nat)
    requires p < count
    ensures LinesAt(height, p) + 2 * height <= LinesAt(height, count)
    decreases count
  {
    if p + 1 < count { InTable(height, count - 1, p); }
  }

  // A row of a plane, expanded.
  function Decoded(buf: seq<byte>, height: nat, count: nat, p: nat, row: nat): Option<seq<byte>>
    requires p < count && row < height && LinesAt(height, count) <= |buf|
  {
    var dp, end := Start(buf, height, count, p, row), Start(buf, height, count, p, row + 1);
    if dp <= end <= |buf| then Expand(buf, dp, end) else None
  }

  ghost predicate ConsistentAt(buf: seq<byte>, height: nat, width: nat, count: nat, p: nat, row: nat)
    requires p < count && row < height && LinesAt(height, count) <= |buf|
  {
    RowFits(buf, Start(buf, height, count, p, row), Start(buf, height, count, p, row + 1), width)
  }

  // The announced lengths cut the packet into complete codes of rows that fit.
  ghost predicate Consistent(buf: seq<byte>, height: nat, width: nat, count: nat) {
    && LinesAt(height, count) <= |buf|
    && forall p, row :: 0 <= p < count && 0 <= row < height ==> ConsistentAt(buf, height, width, count, p, row)
  }

  // One row: its code is taken apart, and the next row's begins where it ends.
  lemma RowReached(buf: seq<byte>, height: nat, width: nat, count: nat, p: nat, row: nat)
    requires Consistent(buf, height, width, count) && p < count && row < height
    ensures var pixels, next := Decoded(buf, height, count, p, row), Start(buf, height, count, p, row + 1);
      && pixels.Some?
      && var r, rest := PlaneRows(buf, height, width, p, row, Start(buf, height, count, p, row)),
           PlaneRows(buf, height, width, p, row + 1, next);
      r == rest.(rows := [pixels.value] + rest.rows)
  {
    InTable(height, count, p);
    assert ConsistentAt(buf, height, width, count, p, row);
    RowExpands(buf, Start(buf, height, count, p, row), Start(buf, height, count, p, row + 1), width);
  }

  // The rows of a plane from `row` on, expanded.
  function RowsDecoded(buf: seq<byte>, height: nat, count: nat, p: nat, row: nat): (r: seq<seq<byte>>)
    requires p < count && row <= height && LinesAt(height, count) <= |buf|
    ensures |r| == height - row
    decreases height - row
  {
    if row == height then []
    else
      var pixels := Decoded(buf, height, count, p, row);
      [if pixels.Some? then pixels.value else []] + RowsDecoded(buf, height, count, p, row + 1)
  }

  lemma {:induction false} RowsDecodedAt(buf: seq<byte>, height: nat, width: nat, count: nat, p: nat, row: nat, k: nat)
    requires Consistent(buf, height, width, count) && p < count && row <= k < height
    ensures Some(RowsDecoded(buf, height, count, p, row)[k - row]) == Decoded(buf, height, count, p, k)
    decreases height - row
  {
    if row == k {
      assert ConsistentAt(buf, height, width, count, p, k);
    } else {
      RowsDecodedAt(buf, height, width, count, p, row + 1, k);
    }
  }

  lemma {:induction false} PlaneExpands(buf: seq<byte>, height: nat, width: nat, count: nat, p: nat, row: nat)
    requires Consistent(buf, height, width, count) && p < count && row <= height
    ensures PlaneRows(buf, height, width, p, row, Start(buf, height, count, p, row))
         == Rows(RowsDecoded(buf, height, count, p, row), Start(buf, height, count, p, height), Done)
    decreases height - row
  {
    if row < height {
      RowReached(buf, height, width, count, p, row);
      PlaneExpands(buf, height, width, count, p, row + 1);
    }
  }

  // One plane: its rows are expanded, and the next plane's begin where they end.
  lemma PlaneTaken(buf: seq<byte>, height: nat, width: nat, count: nat, p: nat) returns (rest: Planes)
    requires Consistent(buf, height, width, count) && p < count
    ensures PlanesFrom(buf, height, width, count, p, Start(buf, height, count, p, 0))
         == rest.(planes := [RowsDecoded(buf, height, count, p, 0)] + rest.planes)
    ensures if p + 1 == count then rest == Planes([], Done)
      else rest == PlanesFrom(buf, height, width, count, p + 1, Start(buf, height, count, p + 1, 0))
  {
    PlaneExpands(buf, height, width, count, p, 0);
    rest := PlanesFrom(buf, height, width, count, p + 1, Start(buf, height, count, p, height));
  }

  // The planes from p on, expanded.
  function PlanesDecoded(buf: seq<byte>, height: nat, count: nat, p: nat): (r: seq<seq<seq<byte>>>)
    requires p <= count && LinesAt(height, count) <= |buf|
    ensures |r| == count - p
    decreases count - p
  {
    if p == count then [] else [RowsDecoded(buf, height, count, p, 0)] + PlanesDecoded(buf, height, count, p + 1)
  }

  lemma {:induction false} PlanesDecodedAt(buf: seq<byte>, height: nat, count: nat, p: nat, q: nat)
    requires p <= q < count && LinesAt(height, count) <= |buf|
    ensures PlanesDecoded(buf, height, count, p)[q - p] == RowsDecoded(buf, height, count, q, 0)
    decreases count - p
  {
    if p < q {
      PlanesDecodedAt(buf, height, count, p + 1, q);
      var rest, k := PlanesDecoded(buf, height, count, p + 1), q - p;
      assert ([RowsDecoded(buf, height, count, p, 0)] + rest)[k] == rest[k - 1];
    }
  }

  lemma {:induction false} PlanesReached(buf: seq<byte>, height: nat, width: nat, count: nat, p: nat)
    requires Consistent(buf, height, width, count) && p < count
    ensures PlanesFrom(buf, height, width, count, p, Start(buf, height, count, p, 0))
         == Planes(PlanesDecoded(buf, height, count, p), Done)
    decreases count - p
  {
    var rest := PlaneTaken(buf, height, width, count, p);
    if p + 1 < count { PlanesReached(buf, height, width, count, p + 1); }
    assert rest == Planes(PlanesDecoded(buf, height, count, p + 1), Done);
  }

  // A packet with consistent row lengths is accepted, and every row of every plane is the
  // run-length expansion of its own code.
  lemma PlanesExpand(buf: seq<byte>, height: nat, width: nat, count: nat, p: nat, row: nat)
    requires Consistent(buf, height, width, count) && p < count && row < height
    ensures var r := PlanesFrom(buf, height, width, count, 0, LinesAt(height, count));
      && r.status.Done?
      && |r.planes[p]| == height && |r.planes[p][row]| <= width
      && Decoded(buf, height, count, p, row) == Some(r.planes[p][row])
  {
    PlanesReached(buf, height, width, count, 0);
    PlanesDecodedAt(buf, height, count, 0, p);
    RowsDecodedAt(buf, height, width, count, p, 0, row);
    assert ConsistentAt(buf, height, width, count, p, row);
  }

  // ---------- The frame ----------

  // The byte at column j of a row: of the plane that fills this byte of the pixel, the value
  // of its pixel j / inc if it has that many.
  function PixelOf(rows: seq<seq<byte>>, row: nat, k: nat): Option<byte> {
    if row < |rows| && k < |rows[row]| then Some(rows[row][k]) else None
  }

  function PlaneAt(planemap: seq<nat>, m: nat): (p: Option<nat>)
    ensures p.Some? ==> p.value < |planemap| && planemap[p.value] == m
    ensures p.None? ==> m !in planemap
  {
    if planemap == [] then None
    else if planemap[|planemap| - 1] == m then Some(|planemap| - 1)
    else PlaneAt(planemap[..|planemap| - 1], m)
  }

  function Interleaved(s: Setup, planes: seq<seq<seq<byte>>>, row: nat, j: nat, before: byte): byte
    requires s.inc > 0
  {
    var p := PlaneAt(s.planemap, j % s.inc);
    if p.Some? && p.value < |planes| then
      var x := PixelOf(planes[p.value], row, j / s.inc);
      if x.Some? then x.value else before
    else before
  }

  // For an accepted packet, the value of pixel k in plane p stands at column map[p] + k * inc.
  lemma PixelStands(s: Setup, planes: seq<seq<seq<byte>>>, row: nat, p: nat, k: nat, before: byte)
    requires Disjoint(s) && p < |s.planemap| && p < |planes| && row < |planes[p]| && k < |planes[p][row]|
    ensures Interleaved(s, planes, row, s.planemap[p] + k * s.inc, before) == planes[p][row][k]
  {
    Slot(s.inc, s.planemap[p], k, s.planemap[p] + k * s.inc);
    var q := PlaneAt(s.planemap, s.planemap[p]);
    assert s.planemap[q.value] == s.planemap[p];
  }

  lemma Slot(inc: nat, at: nat, k: nat, j: nat)
    requires at < inc
    ensures (j % inc == at && j / inc == k) <==> j == at + k * inc
  {
    assert j == inc * (j / inc) + j % inc;
    if j == at + k * inc {
      DivMod(inc, at, k, j / inc, j % inc);
    }
  }

  lemma DivMod(inc: nat, r: nat, q: nat, q1: int, r1: int)
    requires r < inc && 0 <= r1 < inc && inc * q1 + r1 == r + q * inc
    ensures q1 == q && r1 == r
  {
    NextMultiple(inc, q, q1);
    NextMultiple(inc, q1, q);
  }

  lemma {:induction false} NextMultiple(inc: nat, a: int, b: int)
    ensures a < b ==> inc * b >= inc * a + inc
    decreases b - a
  {
    if a < b - 1 {
      NextMultiple(inc, a, b - 1);
      assert inc * b == inc * (b - 1) + inc;
    } else if a == b - 1 {
      assert inc * b == inc * a + inc;
    }
  }

  // ---------- Rows and frames being filled ----------

  function Shown(before: byte, j: nat, inc: nat, at: nat, pixels: seq<byte>): byte
    requires inc > 0
  {
    if j % inc == at && j / inc < |pixels| then pixels[j / inc] else before
  }

  // A row in which the first pixels of one plane have been stored.
  ghost predicate RowIs(now: seq<byte>, before: seq<byte>, inc: nat, at: nat, pixels: seq<byte>) {
    inc > 0 && now == RowWith(before, inc, at, pixels)
  }

  ghost function RowWith(before: seq<byte>, inc: nat, at: nat, pixels: seq<byte>): (r: seq<byte>)
    requires inc > 0
    ensures |r| == |before|
  {
    seq(|before|, j requires 0 <= j < |before| => Shown(before[j], j, inc, at, pixels))
  }

  lemma RowStart(before: seq<byte>, inc: nat, at: nat)
    requires inc > 0
    ensures RowIs(before, before, inc, at, [])
  {
  }

  lemma RowStep(now: seq<byte>, before: seq<byte>, inc: nat, at: nat, pixels: seq<byte>, x: nat, v: byte)
    requires RowIs(now, before, inc, at, pixels) && at < inc && x == at + |pixels| * inc && x < |now|
    ensures RowIs(now[x := v], before, inc, at, pixels + [v])
  {
    forall j | 0 <= j < |now| ensures now[x := v][j] == Shown(before[j], j, inc, at, pixels + [v]) {
      Slot(inc, at, |pixels|, j);
    }
  }

  lemma Split(n: nat, m: nat, inc: nat)
    ensures (n + m) * inc == n * inc + m * inc
  {
  }

  // Room for n more pixels, in bytes and in pixels.
  lemma RoomIff(linesize: nat, inc: nat, stored: nat, n: nat)
    requires inc > 0
    ensures n * inc <= linesize - stored * inc <==> n <= linesize / inc - stored
  {
    assert (n + stored) * inc == n * inc + stored * inc;
    var q, r := linesize / inc, linesize % inc;
    assert linesize == inc * q + r;
    NextMultiple(inc, q, n + stored);
    NextMultiple(inc, n + stored, q);
  }

  ghost predicate FrameIs(now: seq<seq<byte>>, before: seq<seq<byte>>, s: Setup, planes: seq<seq<seq<byte>>>) {
    && s.inc > 0 && |now| == |before|
    && forall row :: 0 <= row < |now| ==> FrameRowIs(now[row], before[row], s, planes, row)
  }

  ghost predicate FrameRowIs(now: seq<byte>, before: seq<byte>, s: Setup, planes: seq<seq<seq<byte>>>, row: nat)
    requires s.inc > 0
  {
    && |now| == |before|
    && forall j :: 0 <= j < |now| ==> now[j] == Interleaved(s, planes, row, j, before[j])
  }

  // A further row of plane |planes|.
  lemma FrameStep(now: seq<seq<byte>>, before: seq<seq<byte>>, s: Setup, planes: seq<seq<seq<byte>>>,
                  rows: seq<seq<byte>>, pixels: seq<byte>, next: seq<byte>)
    requires Disjoint(s) && |planes| < |s.planemap|
    requires FrameIs(now, before, s, planes + [rows]) && |rows| < |now|
    requires RowIs(next, now[|rows|], s.inc, s.planemap[|planes|], pixels)
    ensures FrameIs(now[|rows| := next], before, s, planes + [rows + [pixels]])
  {
    var p, r := |planes|, |rows|;
    var earlier, later := planes + [rows], planes + [rows + [pixels]];
    forall row | 0 <= row < |now| ensures FrameRowIs(now[r := next][row], before[row], s, later, row) {
      assert FrameRowIs(now[row], before[row], s, earlier, row);
      forall j | 0 <= j < |now[row]| ensures now[r := next][row][j] == Interleaved(s, later, row, j, before[row][j]) {
        var q := PlaneAt(s.planemap, j % s.inc);
        if q.Some? && q.value < p {
          assert earlier[q.value] == later[q.value];
        }
      }
    }
  }

  lemma NewPlane(now: seq<seq<byte>>, before: seq<seq<byte>>, s: Setup, planes: seq<seq<seq<byte>>>)
    requires FrameIs(now, before, s, planes)
    ensures FrameIs(now, before, s, planes + [[]])
  {
    forall row | 0 <= row < |now| ensures FrameRowIs(now[row], before[row], s, planes + [[]], row) {
      assert FrameRowIs(now[row], before[row], s, planes, row);
    }
  }

  // The rest of a row whose first pixels are known.
  ghost predicate Continues(whole: Row, pixels: seq<byte>, rest: Row) {
    whole == rest.(pixels := pixels + rest.pixels)
  }

  lemma Stopped(whole: Row, pixels: seq<byte>, rest: Row)
    requires Continues(whole, pixels, rest) && rest.pixels == []
    ensures whole == rest.(pixels := pixels)
  {
  }

  lemma Continued(whole: Row, pixels: seq<byte>, run: seq<byte>, rest: Row)
    requires Continues(whole, pixels, rest.(pixels := run + rest.pixels))
    ensures Continues(whole, pixels + run, rest)
  {
    assert pixels + (run + rest.pixels) == (pixels + run) + rest.pixels;
  }

  lemma Below(inc: nat, at: nat, k: nat, n: nat, linesize: nat)
    requires at < inc && k < n && n * inc <= linesize
    ensures at + k * inc < linesize && (k + 1) * inc == k * inc + inc
  {
    NextMultiple(inc, k, n);
  }

  ghost predicate RowsContinue(whole: Rows, rows: seq<seq<byte>>, rest: Rows) {
    whole == rest.(rows := rows + rest.rows)
  }

  ghost predicate PlanesContinue(whole: Planes, planes: seq<seq<seq<byte>>>, rest: Planes) {
    whole == rest.(planes := planes + rest.planes)
  }

  // ---------- The decoder ----------

  ghost function RowOf(frame: array2<byte>, row: nat): (r: seq<byte>)
    requires row < frame.Length0
    reads frame
    ensures |r| == frame.Length1
  {
    seq(frame.Length1, j requires 0 <= j < frame.Length1 reads frame => frame[row, j])
  }

  ghost function RowsOf(frame: array2<byte>): (r: seq<seq<byte>>)
    reads frame
    ensures |r| == frame.Length0 && forall i :: 0 <= i < |r| ==> r[i] == RowOf(frame, i)
  {
    seq(frame.Length0, i requires 0 <= i < frame.Length0 reads frame => RowOf(frame, i))
  }

  datatype Turn = More | End | Bad

  class EightBpsContext {
    const setup: Setup

    constructor (setup: Setup)
      requires Disjoint(setup)
      ensures this.setup == setup && Disjoint(this.setup)
    {
      this.setup := setup;
    }

    method StorePixel(frame: array2<byte>, row: nat, x: nat, v: byte)
      requires row < frame.Length0 && x < frame.Length1
      modifies frame
      ensures RowsOf(frame) == old(RowsOf(frame))[row := old(RowOf(frame, row))[x := v]]
    {
      frame[row, x] := v;
      assert RowOf(frame, row) == old(RowOf(frame, row))[x := v];
      assert forall i :: 0 <= i < frame.Length0 && i != row ==> RowOf(frame, i) == old(RowOf(frame, i));
    }

    // The loop over the pixels of a literal run, or of a repeated one.
    method StoreRun(frame: array2<byte>, row: nat, x0: nat, at: nat, buf: seq<byte>, dp: nat, n: nat, repeated: bool,
                    ghost before: seq<byte>, ghost pixels: seq<byte>) returns (x: nat)
      requires row < frame.Length0 && at < setup.inc
      requires if repeated then dp < |buf| else dp + n <= |buf|
      requires x0 == at + |pixels| * setup.inc
      requires n * setup.inc <= frame.Length1 - |pixels| * setup.inc
      requires RowIs(RowOf(frame, row), before, setup.inc, at, pixels)
      modifies frame
      ensures var run := if repeated then Repeat(buf[dp], n) else buf[dp..dp + n];
        && RowIs(RowOf(frame, row), before, setup.inc, at, pixels + run)
        && RowsOf(frame) == old(RowsOf(frame))[row := RowOf(frame, row)]
        && x == at + |pixels + run| * setup.inc
    {
      x := x0;
      var k := 0;
      ghost var run := if repeated then Repeat(buf[dp], n) else buf[dp..dp + n];
      assert pixels + run[..0] == pixels;
      Split(|pixels|, n, setup.inc);
      while k < n
        invariant 0 <= k <= n && x == at + (|pixels| + k) * setup.inc
        invariant RowIs(RowOf(frame, row), before, setup.inc, at, pixels + run[..k])
        invariant RowsOf(frame) == old(RowsOf(frame))[row := RowOf(frame, row)]
      {
        Below(setup.inc, at, |pixels| + k, |pixels| + n, frame.Length1);
        RowStep(RowOf(frame, row), before, setup.inc, at, pixels + run[..k], x, run[k]);
        assert (pixels + run[..k]) + [run[k]] == pixels + run[..k + 1];
        StorePixel(frame, row, x, if repeated then buf[dp] else buf[dp + k]);
        x, k := x + setup.inc, k + 1;
      }
      assert run[..n] == run;
    }

    // One turn of the row loop: `room` is the distance to the end of the row, in bytes.
    method DecodeRun(frame: array2<byte>, row: nat, at: nat, buf: seq<byte>, dp0: nat, dlen0: nat, x0: nat, room0: int,
                     ghost before: seq<byte>, ghost whole: Row, ghost pixels: seq<byte>)
      returns (turn: Turn, dp: nat, dlen: nat, x: nat, room: int, ghost more: seq<byte>)
      requires row < frame.Length0 && at < setup.inc && 0 < dlen0 < U32
      requires At(frame, at, pixels, x0, room0)
      requires Decoding(frame, row, at, before, whole, pixels, buf, dp0, dlen0)
      modifies frame
      ensures RowsOf(frame) == old(RowsOf(frame))[row := RowOf(frame, row)]
      ensures turn.More? ==>
        && dp0 < dp <= |buf| && dlen < U32 && At(frame, at, more, x, room)
        && Decoding(frame, row, at, before, whole, more, buf, dp, dlen)
      ensures turn.End? ==> whole == Row(more, dp, Done)
      ensures turn.Bad? ==> whole.pixels == more && whole.status == Invalid
      ensures RowIs(RowOf(frame, row), before, setup.inc, at, more)
    {
      x, room, more := x0, room0, pixels;
      ghost var left := frame.Length1 / setup.inc - |pixels|;
      var n, repeated;
      turn, n, repeated, dp, dlen := RunHead(frame, at, buf, dp0, dlen0, x, room, pixels);
      if turn != More {
        Stopped(whole, pixels, RunRow(buf, dp0, dlen0, left));
        return;
      }
      x, room, more := TakeRun(frame, row, at, buf, dp, n, repeated, x, room, before, whole, pixels, dlen);
      dp := dp + if repeated then 1 else n;
    }

    // The head of a run: n pixels follow, or one that is repeated n times.
    method RunHead(frame: array2<byte>, at: nat, buf: seq<byte>, dp0: nat, dlen0: nat, x: nat, room: int,
                   ghost pixels: seq<byte>) returns (turn: Turn, n: nat, repeated: bool, dp: nat, dlen: nat)
      requires setup.inc > 0 && 0 < dlen0 < U32 && At(frame, at, pixels, x, room)
      requires |pixels| <= frame.Length1 / setup.inc
      ensures var left := frame.Length1 / setup.inc - |pixels|;
        var whole := RunRow(buf, dp0, dlen0, left);
        match turn
        case End => whole == Row([], dp, Done)
        case Bad => whole.pixels == [] && whole.status == Invalid
        case More =>
          && n <= left && dlen < U32 && dp0 < dp && (if repeated then dp < |buf| else dp + n <= |buf|)
          && var rest := RunRow(buf, dp + if repeated then 1 else n, dlen, left - n);
             whole == rest.(pixels := (if repeated then Repeat(buf[dp], n) else buf[dp..dp + n]) + rest.pixels)
    {
      n, repeated, dp, dlen := 0, false, dp0, dlen0;
      if |buf| - dp <= 1 { return Bad, n, repeated, dp, dlen; }
      var count := buf[dp];
      dp := dp + 1;
      if count <= 127 {
        n := count + 1;
        dlen := (dlen - (n + 1)) % U32;
        assert dlen == Less(dlen0, n + 1);
        var fits := Fits(frame, at, n, x, room, pixels);
        if !fits { return End, n, repeated, dp, dlen; }
        if |buf| - dp < n { return Bad, n, repeated, dp, dlen; }
      } else {
        n, repeated := 257 - count, true;
        var fits := Fits(frame, at, n, x, room, pixels);
        if !fits { return End, n, repeated, dp, dlen; }
        dlen := (dlen - 2) % U32;
        assert dlen == Less(dlen0, 2);
      }
      turn := More;
    }

    // Whether n more pixels fit before the end of the row.
    method Fits(frame: array2<byte>, at: nat, n: nat, x: nat, room: int, ghost pixels: seq<byte>) returns (fits: bool)
      requires setup.inc > 0 && At(frame, at, pixels, x, room) && |pixels| <= frame.Length1 / setup.inc
      ensures fits == (n <= frame.Length1 / setup.inc - |pixels|)
    {
      RoomIff(frame.Length1, setup.inc, |pixels|, 0);
      assert room >= 0;   // as above, signs do not matter
      RoomIff(frame.Length1, setup.inc, |pixels|, n);
      fits := room >= n * setup.inc;
    }

    // A run that fits is stored, and the row goes on behind it.
    method TakeRun(frame: array2<byte>, row: nat, at: nat, buf: seq<byte>, dp: nat, n: nat, repeated: bool,
                   x0: nat, room0: int, ghost before: seq<byte>, ghost whole: Row, ghost pixels: seq<byte>,
                   ghost dlen: nat) returns (x: nat, room: int, ghost more: seq<byte>)
      requires row < frame.Length0 && at < setup.inc && n <= frame.Length1 / setup.inc - |pixels| && dlen < U32
      requires if repeated then dp < |buf| else dp + n <= |buf|
      requires At(frame, at, pixels, x0, room0) && RowIs(RowOf(frame, row), before, setup.inc, at, pixels)
      requires var run := if repeated then Repeat(buf[dp], n) else buf[dp..dp + n];
        var rest := RunRow(buf, dp + if repeated then 1 else n, dlen, frame.Length1 / setup.inc - |pixels| - n);
        Continues(whole, pixels, rest.(pixels := run + rest.pixels))
      modifies frame
      ensures RowsOf(frame) == old(RowsOf(frame))[row := RowOf(frame, row)] && At(frame, at, more, x, room)
      ensures Decoding(frame, row, at, before, whole, more, buf, dp + if repeated then 1 else n, dlen)
    {
      ghost var run := if repeated then Repeat(buf[dp], n) else buf[dp..dp + n];
      RoomIff(frame.Length1, setup.inc, |pixels|, n);
      x := StoreRun(frame, row, x0, at, buf, dp, n, repeated, before, pixels);
      room, more := room0 - n * setup.inc, pixels + run;
      Split(|pixels|, n, setup.inc);
      ghost var next := dp + if repeated then 1 else n;
      Continued(whole, pixels, run, RunRow(buf, next, dlen, frame.Length1 / setup.inc - |more|));
    }

    // Where the next pixel goes, and how far the end of the row is from there.
    ghost predicate At(frame: array2<byte>, at: nat, pixels: seq<byte>, x: nat, room: int) {
      x == at + |pixels| * setup.inc && room == frame.Length1 - |pixels| * setup.inc
    }

    // `pixels` are stored; the code from dp on gives the rest of `whole`.
    ghost predicate Decoding(frame: array2<byte>, row: nat, at: nat, before: seq<byte>, whole: Row, pixels: seq<byte>,
                             buf: seq<byte>, dp: nat, dlen: nat)
      requires row < frame.Length0 && dlen < U32
      reads frame
    {
      && RowIs(RowOf(frame, row), before, setup.inc, at, pixels)
      && |pixels| <= frame.Length1 / setup.inc
      && Continues(whole, pixels, RunRow(buf, dp, dlen, frame.Length1 / setup.inc - |pixels|))
    }

    method DecodeRow(frame: array2<byte>, row: nat, at: nat, buf: seq<byte>, dp0: nat, dlen0: nat)
      returns (ok: bool, dp: nat, ghost pixels: seq<byte>)
      requires row < frame.Length0 && at < setup.inc && dlen0 < U32
      modifies frame
      ensures var r := RunRow(buf, dp0, dlen0, frame.Length1 / setup.inc);
        && ok == r.status.Done? && pixels == r.pixels && (ok ==> dp == r.dp)
        && RowIs(RowOf(frame, row), old(RowOf(frame, row)), setup.inc, at, pixels)
        && RowsOf(frame) == old(RowsOf(frame))[row := RowOf(frame, row)]
    {
      dp, pixels := dp0, [];
      var dlen: nat, x: nat, turn := dlen0, at, More;
      var room: int := frame.Length1;
      ghost var before := RowOf(frame, row);
      ghost var whole := RunRow(buf, dp0, dlen0, frame.Length1 / setup.inc);
      assert [] + whole.pixels == whole.pixels;
      RowStart(before, setup.inc, at);
      while dlen > 0
        invariant dlen < U32 && At(frame, at, pixels, x, room)
        invariant Decoding(frame, row, at, before, whole, pixels, buf, dp, dlen)
        invariant RowsOf(frame) == old(RowsOf(frame))[row := RowOf(frame, row)]
        decreases |buf| - dp
      {
        turn, dp, dlen, x, room, pixels := DecodeRun(frame, row, at, buf, dp, dlen, x, room, before, whole, pixels);
        if turn == End { return true, dp, pixels; }
        if turn == Bad { return false, dp, pixels; }
      }
      assert pixels + [] == pixels;
      ok := true;
    }

    // The rows of plane p. All bytes stored are in their row, at this plane's byte of a pixel.
    method DecodePlane(frame: array2<byte>, buf: seq<byte>, p: nat, dp0: nat,
                       ghost before: seq<seq<byte>>, ghost planes: seq<seq<seq<byte>>>)
      returns (ok: bool, dp: nat, ghost rows: seq<seq<byte>>)
      requires Disjoint(setup) && p == |planes| < |setup.planemap|
      requires FrameIs(RowsOf(frame), before, setup, planes)
      requires frame.Length0 > 0 ==> LinesAt(frame.Length0, p) <= |buf|
      modifies frame
      ensures ok && frame.Length0 > 0 ==> LinesAt(frame.Length0, p + 1) <= |buf|
      ensures var r := PlaneRows(buf, frame.Length0, frame.Length1 / setup.inc, p, 0, dp0);
        && ok == r.status.Done? && rows == r.rows && (ok ==> dp == r.dp)
        && FrameIs(RowsOf(frame), before, setup, planes + [rows])
    {
      dp, rows := dp0, [];
      NewPlane(RowsOf(frame), before, setup, planes);
      var height, row := frame.Length0, 0;
      var lp := p * (2 * height);
      LinesAtIs(height, p);
      ghost var width := frame.Length1 / setup.inc;
      ghost var whole := PlaneRows(buf, height, width, p, 0, dp0);
      assert [] + whole.rows == whole.rows;
      while row < height
        invariant 0 <= row <= height && |rows| == row && (row > 0 ==> lp + 2 * row <= |buf|)
        invariant FrameIs(RowsOf(frame), before, setup, planes + [rows])
        invariant RowsContinue(whole, rows, PlaneRows(buf, height, width, p, row, dp))
      {
        assert lp <= |buf|;   // so it does not matter that the comparison may be one without signs
        if |buf| - lp < row * 2 + 2 {
          assert rows + [] == rows;
          return false, dp, rows;
        }
        var dlen := LengthAt(buf, height, p, row);
        ghost var now := RowsOf(frame);
        ghost var pixels, start := [], dp;
        ok, dp, pixels := DecodeRow(frame, row, setup.planemap[p], buf, dp, dlen);
        FrameStep(now, before, setup, planes, rows, pixels, RowOf(frame, row));
        ghost var rest := PlaneRows(buf, height, width, p, row + 1, dp);
        assert ok ==> rows + ([pixels] + rest.rows) == (rows + [pixels]) + rest.rows;
        rows := rows + [pixels];
        if !ok { return; }
        row := row + 1;
      }
      assert rows + [] == rows;
      ok := true;
    }

    // A plane after the other; the frame is their interleaving, also where a packet ends early.
    method DecodeFrame(frame: array2<byte>, buf: seq<byte>) returns (ok: bool)
      requires Disjoint(setup)
      modifies frame
      ensures var r := PlanesFrom(buf, frame.Length0, frame.Length1 / setup.inc, |setup.planemap|, 0,
                                  LinesAt(frame.Length0, |setup.planemap|));
        && ok == r.status.Done?
        && FrameIs(RowsOf(frame), old(RowsOf(frame)), setup, r.planes)
    {
      var height, count, p := frame.Length0, |setup.planemap|, 0;
      var dp: nat := count * (2 * height);
      LinesAtIs(height, count);
      ghost var width, before := frame.Length1 / setup.inc, RowsOf(frame);
      ghost var planes: seq<seq<seq<byte>>> := [];
      ghost var whole := PlanesFrom(buf, height, width, count, 0, dp);
      assert [] + whole.planes == whole.planes;
      while p < count
        invariant 0 <= p <= count && |planes| == p && (height > 0 ==> LinesAt(height, p) <= |buf|)
        invariant FrameIs(RowsOf(frame), before, setup, planes)
        invariant PlanesContinue(whole, planes, PlanesFrom(buf, height, width, count, p, dp))
      {
        ghost var rows;
        ok, dp, rows := DecodePlane(frame, buf, p, dp, before, planes);
        ghost var rest := PlanesFrom(buf, height, width, count, p + 1, dp);
        assert ok ==> planes + ([rows] + rest.planes) == (planes + [rows]) + rest.planes;
        planes := planes + [rows];
        if !ok { return; }
        p := p + 1;
      }
      assert planes + [] == planes;
      ok := true;
    }
  }

  // ---------- What a consistent packet decodes to ----------

  lemma FrameShows(now: seq<seq<byte>>, before: seq<seq<byte>>, s: Setup, planes: seq<seq<seq<byte>>>, p: nat, row: nat,
                   k: nat)
    requires Disjoint(s) && FrameIs(now, before, s, planes)
    requires p < |s.planemap| && p < |planes| && row < |now| && row < |planes[p]|
    requires k < |planes[p][row]| && |planes[p][row]| <= |now[row]| / s.inc
    ensures s.planemap[p] + k * s.inc < |now[row]| && now[row][s.planemap[p] + k * s.inc] == planes[p][row][k]
  {
    RoomIff(|now[row]|, s.inc, 0, |planes[p][row]|);
    Below(s.inc, s.planemap[p], k, |planes[p][row]|, |now[row]|);
    assert FrameRowIs(now[row], before[row], s, planes, row);
    PixelStands(s, planes, row, p, k, before[row][s.planemap[p] + k * s.inc]);
  }

  // The frame a packet leaves, whatever stood in it before.
  ghost predicate DecodedFrame(buf: seq<byte>, s: Setup, height: nat, linesize: nat, now: seq<seq<byte>>,
                               before: seq<seq<byte>>) {
    && Disjoint(s) && |now| == height && (forall row :: 0 <= row < height ==> |now[row]| == linesize)
    && var lines := LinesAt(height, |s.planemap|);
       FrameIs(now, before, s, PlanesFrom(buf, height, linesize / s.inc, |s.planemap|, 0, lines).planes)
  }

  // Pixel k of plane p, as its row expands to it, stands at byte map[p] of pixel k.
  lemma FrameHoldsPlanes(buf: seq<byte>, s: Setup, height: nat, linesize: nat, now: seq<seq<byte>>,
                         before: seq<seq<byte>>, p: nat, row: nat, k: nat, x: nat)
    requires DecodedFrame(buf, s, height, linesize, now, before)
    requires Consistent(buf, height, linesize / s.inc, |s.planemap|) && p < |s.planemap| && row < height
    requires x == s.planemap[p] + k * s.inc
    ensures var pixels := Decoded(buf, height, |s.planemap|, p, row);
      pixels.Some? && (k < |pixels.value| ==> x < linesize && now[row][x] == pixels.value[k])
  {
    PlanesExpand(buf, height, linesize / s.inc, |s.planemap|, p, row);
    var planes := PlanesFrom(buf, height, linesize / s.inc, |s.planemap|, 0, LinesAt(height, |s.planemap|)).planes;
    if k < |planes[p][row]| { FrameShows(now, before, s, planes, p, row, k); }
  }

  // Every other byte keeps its value.
  lemma OtherBytesKept(buf: seq<byte>, s: Setup, height: nat, linesize: nat, now: seq<seq<byte>>,
                       before: seq<seq<byte>>, row: nat, j: nat)
    requires DecodedFrame(buf, s, height, linesize, now, before)
    requires Consistent(buf, height, linesize / s.inc, |s.planemap|) && row < height && j < linesize
    requires forall p :: 0 <= p < |s.planemap| && s.planemap[p] == j % s.inc ==>
      var pixels := Decoded(buf, height, |s.planemap|, p, row);
      pixels.Some? && j / s.inc >= |pixels.value|
    ensures now[row][j] == before[row][j]
  {
    var planes := PlanesFrom(buf, height, linesize / s.inc, |s.planemap|, 0, LinesAt(height, |s.planemap|)).planes;
    var q := PlaneAt(s.planemap, j % s.inc);
    if q.Some? {
      PlanesExpand(buf, height, linesize / s.inc, |s.planemap|, q.value, row);
    }
    assert FrameRowIs(now[row], before[row], s, planes, row);
  }
}
