// How an 8BPS packet is written: the lengths of all rows' codes, then the codes. Reading is the
// inverse of this.
module PlanarWriter {
  import opened Common
  import opened PlanarRle

  // ---------- Rows ----------

  // Pixels one by one, or one pixel n times.
  datatype Run = Plain(pixels: seq<byte>) | Same(v: byte, n: nat)

  predicate Codable(r: Run) {
    match r
    case Plain(pixels) => 1 <= |pixels| <= 128
    case Same(_, n) => 2 <= n <= 129
  }

  function CodeOf(r: Run): seq<byte>
    requires Codable(r)
  {
    match r
    case Plain(pixels) => [|pixels| - 1] + pixels
    case Same(v, n) => [257 - n, v]
  }

  function PixelsOf(r: Run): seq<byte> {
    match r
    case Plain(pixels) => pixels
    case Same(v, n) => seq(n, _ => v)
  }

  predicate AllCodable(rs: seq<Run>) {
    forall k :: 0 <= k < |rs| ==> Codable(rs[k])
  }

  function Code(rs: seq<Run>): seq<byte>
    requires AllCodable(rs)
  {
    if rs == [] then [] else CodeOf(rs[0]) + Code(rs[1..])
  }

  function Pixels(rs: seq<Run>): seq<byte> {
    if rs == [] then [] else PixelsOf(rs[0]) + Pixels(rs[1..])
  }

  lemma CutCode(buf: seq<byte>, dp: nat, end: nat, first: seq<byte>, rest: seq<byte>, mid: nat)
    requires dp <= end <= |buf| && buf[dp..end] == first + rest && mid == dp + |first|
    ensures mid <= end && buf[dp..mid] == first && buf[mid..end] == rest
  {
    assert buf[dp..end][..|first|] == first && buf[dp..end][|first|..] == rest;
  }

  // The code of runs expands to their pixels.
  lemma {:induction false} ExpandsBack(buf: seq<byte>, dp: nat, end: nat, rs: seq<Run>)
    requires dp <= end <= |buf| && AllCodable(rs) && buf[dp..end] == Code(rs)
    ensures Expand(buf, dp, end) == Some(Pixels(rs))
    decreases |rs|
  {
    if rs == [] {
      assert |buf[dp..end]| == 0;
    } else {
      var first := CodeOf(rs[0]);
      var mid := dp + |first|;
      CutCode(buf, dp, end, first, Code(rs[1..]), mid);
      ExpandsBack(buf, mid, end, rs[1..]);
      ExpandFirst(buf, dp, mid, end, rs[0], Pixels(rs[1..]));
    }
  }

  lemma FirstRun(buf: seq<byte>, dp: nat, mid: nat, r: Run)
    requires Codable(r) && dp <= mid <= |buf| && buf[dp..mid] == CodeOf(r)
    ensures dp < mid
    ensures r.Plain? ==> buf[dp] == |r.pixels| - 1 && mid == dp + 1 + |r.pixels| && buf[dp + 1..mid] == r.pixels
    ensures r.Same? ==> buf[dp] == 257 - r.n && mid == dp + 2 && buf[dp + 1] == r.v
                        && Repeat(buf[dp + 1], 257 - buf[dp]) == PixelsOf(r)
  {
    var c := CodeOf(r);
    assert buf[dp..mid][0] == c[0];
    if r.Plain? {
      assert buf[dp + 1..mid] == buf[dp..mid][1..] == c[1..];
    } else {
      assert buf[dp..mid][1] == c[1];
    }
  }

  lemma ExpandFirst(buf: seq<byte>, dp: nat, mid: nat, end: nat, r: Run, rest: seq<byte>)
    requires Codable(r) && dp <= mid <= end <= |buf| && buf[dp..mid] == CodeOf(r)
    requires Expand(buf, mid, end) == Some(rest)
    ensures Expand(buf, dp, end) == Some(PixelsOf(r) + rest)
  {
    FirstRun(buf, dp, mid, r);
  }

  // ---------- Rows of any bytes ----------

  // What the 32-bit counter has left of `dlen` after n bytes.
  function Counter(dlen: nat, n: nat): nat {
    (dlen - n) % U32
  }

  // The pixels the run at m would store.
  function CountAt(buf: seq<byte>, m: nat): nat
    requires m < |buf|
  {
    if buf[m] <= 127 then buf[m] + 1 else 257 - buf[m]
  }

  // Why reading ends at m, `left` pixels before the end of the row: the counter is down, a run would
  // not fit, or the bytes end.
  predicate EndsAt(buf: seq<byte>, m: nat, counter: nat, left: int, r: Row) {
    if counter == 0 then r.status.Done? && r.dp == m
    else if |buf| - m <= 1 then r.status.Invalid?
    else if CountAt(buf, m) > left then r.status.Done? && r.dp == m + 1
    else buf[m] <= 127 && |buf| - (m + 1) < CountAt(buf, m) && r.status.Invalid?
  }

  // The runs stand from dp on, they fit, and the counter was never down before the last.
  ghost predicate Reads(buf: seq<byte>, dp: nat, dlen: nat, left: int, rs: seq<Run>) {
    && AllCodable(rs) && dp + |Code(rs)| <= |buf| && buf[dp..dp + |Code(rs)|] == Code(rs)
    && |Pixels(rs)| <= left && forall i :: 0 <= i < |rs| ==> Counter(dlen, |Code(rs[..i])|) != 0
  }

  // No run can be taken.
  predicate NoRun(buf: seq<byte>, dp: nat, dlen: nat, left: int) {
    dlen == 0 || |buf| - dp <= 1 || CountAt(buf, dp) > left
    || (buf[dp] <= 127 && |buf| - (dp + 1) < CountAt(buf, dp))
  }

  lemma RowEnds(buf: seq<byte>, dp: nat, dlen: nat, left: int)
    requires dlen < U32 && left >= 0 && dp <= |buf| && NoRun(buf, dp, dlen, left)
    ensures var r := RunRow(buf, dp, dlen, left); r.pixels == [] && EndsAt(buf, dp, Counter(dlen, 0), left, r)
  {
  }

  lemma RowGoesOn(buf: seq<byte>, dp: nat, dlen: nat, left: int, first: Run, mid: nat)
    requires dlen < U32 && left >= 0 && dp <= |buf| && !NoRun(buf, dp, dlen, left)
    requires mid == if buf[dp] <= 127 then dp + 1 + CountAt(buf, dp) else dp + 2
    requires PixelsOf(first) == if buf[dp] <= 127 then buf[dp + 1..mid] else Repeat(buf[dp + 1], CountAt(buf, dp))
    ensures var rest := RunRow(buf, mid, Less(dlen, mid - dp), left - CountAt(buf, dp));
      RunRow(buf, dp, dlen, left) == rest.(pixels := PixelsOf(first) + rest.pixels)
  {
  }

  // Reading ends after these runs, and the row shows their pixels.
  ghost predicate IsRuns(buf: seq<byte>, dp: nat, dlen: nat, left: int, rs: seq<Run>, r: Row) {
    && Reads(buf, dp, dlen, left, rs) && r.pixels == Pixels(rs)
    && EndsAt(buf, dp + |Code(rs)|, Counter(dlen, |Code(rs)|), left - |Pixels(rs)|, r)
  }

  lemma NoneIsRuns(buf: seq<byte>, dp: nat, dlen: nat, left: int)
    requires dlen < U32 && left >= 0 && dp <= |buf| && NoRun(buf, dp, dlen, left)
    ensures IsRuns(buf, dp, dlen, left, [], RunRow(buf, dp, dlen, left))
  {
    RowEnds(buf, dp, dlen, left);
    assert buf[dp..dp] == [];
  }

  lemma RunTaken(buf: seq<byte>, dp: nat, dlen: nat, left: int) returns (first: Run, mid: nat, later: Row)
    requires 0 < dlen < U32 && left >= 0 && dp <= |buf| && !NoRun(buf, dp, dlen, left)
    ensures dp < mid <= |buf| && Codable(first) && mid == dp + |CodeOf(first)| && buf[dp..mid] == CodeOf(first)
    ensures mid - dp <= 129 && |PixelsOf(first)| <= left
    ensures later == RunRow(buf, mid, Less(dlen, mid - dp), left - |PixelsOf(first)|)
    ensures RunRow(buf, dp, dlen, left) == later.(pixels := PixelsOf(first) + later.pixels)
  {
    first, mid := TakeRun(buf, dp);
    RowGoesOn(buf, dp, dlen, left, first, mid);
    later := RunRow(buf, mid, Less(dlen, mid - dp), left - |PixelsOf(first)|);
  }

  // Whatever the bytes, a row is a list of runs up to where reading ends, and shows their pixels.
  lemma {:induction false} RowIsRuns(buf: seq<byte>, dp: nat, dlen: nat, left: int) returns (rs: seq<Run>, r: Row)
    requires dlen < U32 && left >= 0 && dp <= |buf|
    ensures r == RunRow(buf, dp, dlen, left) && IsRuns(buf, dp, dlen, left, rs, r)
    decreases |buf| - dp
  {
    if NoRun(buf, dp, dlen, left) {
      NoneIsRuns(buf, dp, dlen, left);
      return [], RunRow(buf, dp, dlen, left);
    }
    var first, mid, later := RunTaken(buf, dp, dlen, left);
    var rest, same := RowIsRuns(buf, mid, Less(dlen, mid - dp), left - |PixelsOf(first)|);
    r := later.(pixels := PixelsOf(first) + later.pixels);
    rs := OneMoreRun(buf, dp, mid, dlen, left, first, rest, later);
  }

  lemma OneMoreRun(buf: seq<byte>, dp: nat, mid: nat, dlen: nat, left: int, first: Run, rest: seq<Run>, later: Row)
      returns (rs: seq<Run>)
    requires dp <= mid <= |buf| && 0 < dlen < U32 && Codable(first) && mid == dp + |CodeOf(first)|
    requires buf[dp..mid] == CodeOf(first) && mid - dp <= 129 && |PixelsOf(first)| <= left
    requires IsRuns(buf, mid, Less(dlen, mid - dp), left - |PixelsOf(first)|, rest, later)
    ensures IsRuns(buf, dp, dlen, left, rs, later.(pixels := PixelsOf(first) + later.pixels))
  {
    RunThenRest(buf, dp, mid, dlen, left, first, rest);
    rs := [first] + rest;
  }

  lemma TakeRun(buf: seq<byte>, dp: nat) returns (r: Run, mid: nat)
    requires |buf| - dp > 1 && (buf[dp] <= 127 ==> |buf| - (dp + 1) >= CountAt(buf, dp))
    ensures Codable(r) && mid == dp + |CodeOf(r)| <= |buf| && buf[dp..mid] == CodeOf(r)
    ensures |PixelsOf(r)| == CountAt(buf, dp) && mid - dp <= 129
    ensures mid == if buf[dp] <= 127 then dp + 1 + CountAt(buf, dp) else dp + 2
    ensures PixelsOf(r) == if buf[dp] <= 127 then buf[dp + 1..mid] else Repeat(buf[dp + 1], CountAt(buf, dp))
  {
    if buf[dp] <= 127 {
      mid := dp + 1 + CountAt(buf, dp);
      r := Plain(buf[dp + 1..mid]);
      assert buf[dp..mid] == [buf[dp]] + buf[dp + 1..mid];
    } else {
      mid := dp + 2;
      r := Same(buf[dp + 1], CountAt(buf, dp));
      assert buf[dp..mid] == [buf[dp], buf[dp + 1]];
    }
  }

  lemma RunThenRest(buf: seq<byte>, dp: nat, mid: nat, dlen: nat, left: int, first: Run, rest: seq<Run>)
    requires dp <= mid <= |buf| && 0 < dlen < U32 && Codable(first)
    requires buf[dp..mid] == CodeOf(first) && mid - dp <= 129
    requires |PixelsOf(first)| <= left
    requires Reads(buf, mid, Less(dlen, mid - dp), left - |PixelsOf(first)|, rest)
    ensures var rs := [first] + rest;
      && Reads(buf, dp, dlen, left, rs) && Pixels(rs) == PixelsOf(first) + Pixels(rest)
      && |Code(rs)| == (mid - dp) + |Code(rest)|
      && Counter(dlen, |Code(rs)|) == Counter(Less(dlen, mid - dp), |Code(rest)|)
  {
    var rs, n := [first] + rest, |Code(rest)|;
    assert rs[1..] == rest;
    assert buf[dp..mid + n] == buf[dp..mid] + buf[mid..mid + n];
    forall k | 0 <= k < |rs| ensures Codable(rs[k]) {
      if k > 0 { assert rs[k] == rest[k - 1]; }
    }
    forall i | 0 <= i < |rs| ensures Counter(dlen, |Code(rs[..i])|) != 0 {
      if i > 0 {
        assert rs[..i][1..] == rest[..i - 1] && rs[..i][0] == first;
        CountsOn(dlen, mid - dp, |Code(rest[..i - 1])|);
      }
    }
    CountsOn(dlen, mid - dp, n);
  }

  lemma CountsOn(dlen: nat, a: nat, b: nat)
    requires dlen < U32 && a < U32
    ensures Counter(dlen, a + b) == Counter(Less(dlen, a), b)
  {
  }

  // ---------- Packets ----------

  // A 16-bit number, the high byte first.
  predicate LengthWritten(buf: seq<byte>, at: nat, n: nat) {
    at + 2 <= |buf| && n < 0x1_0000 && buf[at] == n / 256 && buf[at + 1] == n % 256
  }

  // The runs of each row of each plane.
  predicate Shaped(rows: seq<seq<seq<Run>>>, height: nat) {
    forall p :: 0 <= p < |rows| ==> |rows[p]| == height && forall row :: 0 <= row < height ==> AllCodable(rows[p][row])
  }

  // Where a row's code is: behind the lengths of all rows, and the codes before it.
  function Place(rows: seq<seq<seq<Run>>>, height: nat, p: nat, row: nat): nat
    requires Shaped(rows, height) && p < |rows| && row <= height
    decreases p, row
  {
    if row > 0 then Place(rows, height, p, row - 1) + |Code(rows[p][row - 1])|
    else if p > 0 then Place(rows, height, p - 1, height)
    else |rows| * (2 * height)
  }

  ghost predicate RowWritten(buf: seq<byte>, rows: seq<seq<seq<Run>>>, height: nat, width: nat, p: nat, row: nat)
    requires Shaped(rows, height) && p < |rows| && row < height
  {
    var code, at := Code(rows[p][row]), Place(rows, height, p, row);
    && LengthWritten(buf, p * (2 * height) + 2 * row, |code|)
    && at + |code| <= |buf| && buf[at..at + |code|] == code && |Pixels(rows[p][row])| <= width
  }

  // The packet holds these rows.
  ghost predicate Written(buf: seq<byte>, rows: seq<seq<seq<Run>>>, height: nat, width: nat) {
    && Shaped(rows, height) && LinesAt(height, |rows|) <= |buf|
    && forall p, row :: 0 <= p < |rows| && 0 <= row < height ==> RowWritten(buf, rows, height, width, p, row)
  }

  lemma LengthRead(buf: seq<byte>, rows: seq<seq<seq<Run>>>, height: nat, width: nat, p: nat, row: nat)
    requires Written(buf, rows, height, width) && p < |rows| && row < height
    ensures LinesAt(height, p) + 2 * row + 2 <= |buf| && LengthAt(buf, height, p, row) == |Code(rows[p][row])|
  {
    LinesAtIs(height, p);
    assert RowWritten(buf, rows, height, width, p, row);
  }

  lemma {:induction false} StartIsPlace(buf: seq<byte>, rows: seq<seq<seq<Run>>>, height: nat, width: nat, p: nat,
                                        row: nat)
    requires Written(buf, rows, height, width) && p < |rows| && row <= height
    ensures Start(buf, height, |rows|, p, row) == Place(rows, height, p, row)
    decreases p, row
  {
    if row > 0 {
      StartIsPlace(buf, rows, height, width, p, row - 1);
      LengthRead(buf, rows, height, width, p, row - 1);
    } else if p > 0 {
      StartIsPlace(buf, rows, height, width, p - 1, height);
    } else {
      LinesAtIs(height, |rows|);
    }
  }

  lemma RowReadBack(buf: seq<byte>, rows: seq<seq<seq<Run>>>, height: nat, width: nat, p: nat, row: nat)
    requires Written(buf, rows, height, width) && p < |rows| && row < height
    ensures Decoded(buf, height, |rows|, p, row) == Some(Pixels(rows[p][row]))
    ensures ConsistentAt(buf, height, width, |rows|, p, row)
  {
    StartIsPlace(buf, rows, height, width, p, row);
    StartIsPlace(buf, rows, height, width, p, row + 1);
    assert RowWritten(buf, rows, height, width, p, row);
    ExpandsBack(buf, Place(rows, height, p, row), Place(rows, height, p, row + 1), rows[p][row]);
  }

  // A packet that was written is accepted, and every row is read as it was written.
  lemma PacketReadBack(buf: seq<byte>, rows: seq<seq<seq<Run>>>, height: nat, width: nat)
    requires Written(buf, rows, height, width)
    ensures Consistent(buf, height, width, |rows|)
    ensures forall p, row :: 0 <= p < |rows| && 0 <= row < height ==>
      Decoded(buf, height, |rows|, p, row) == Some(Pixels(rows[p][row]))
  {
    forall p, row | 0 <= p < |rows| && 0 <= row < height
      ensures ConsistentAt(buf, height, width, |rows|, p, row)
      ensures Decoded(buf, height, |rows|, p, row) == Some(Pixels(rows[p][row]))
    {
      RowReadBack(buf, rows, height, width, p, row);
    }
  }

  // And the frame shows it: pixel k of a row of plane p stands at byte map[p] of pixel k.
  lemma FrameShowsWritten(buf: seq<byte>, rows: seq<seq<seq<Run>>>, s: Setup, height: nat, linesize: nat,
                          now: seq<seq<byte>>, before: seq<seq<byte>>, p: nat, row: nat, k: nat, x: nat)
    requires DecodedFrame(buf, s, height, linesize, now, before) && |rows| == |s.planemap|
    requires Written(buf, rows, height, linesize / s.inc) && p < |rows| && row < height
    requires k < |Pixels(rows[p][row])| && x == s.planemap[p] + k * s.inc
    ensures x < linesize && now[row][x] == Pixels(rows[p][row])[k]
  {
    PacketReadBack(buf, rows, height, linesize / s.inc);
    FrameHoldsPlanes(buf, s, height, linesize, now, before, p, row, k, x);
  }
}
