// decode_p_block, mcdc and the frame loops of decode_p_frame, in place on the frame buffer.
module BlockDecoder {
  import opened Sums
  import opened BlockCodes
  import opened BlockPlans

  type Pixel16 = x: nat | x < 0x1_0000

  // ---------- One leaf, pixel by pixel ----------

  // The first i rows and n pixels of row i of a w x h leaf are stored, everything else is not.
  ghost predicate Partial(op: Op, last: seq<nat>, p0: Picture, p1: Picture, width: nat, height: nat,
                          x: nat, y: nat, w: nat, h: nat, log2w: nat, i: nat, n: nat)
  {
    && PictureSized(p0, width, height) && PictureSized(p1, width, height)
    && forall px: nat, py: nat :: px < width && py < height ==>
         p1[py][px] ==
           if InRect(px, py, x, y, w, h) && (py < y + i || (py == y + i && px < x + n))
           then RenderLeaf(op, last, width, log2w, px - x, py - y, p0[py][px])
           else p0[py][px]
  }

  lemma PartialStart(op: Op, last: seq<nat>, p0: Picture, width: nat, height: nat,
                     x: nat, y: nat, w: nat, h: nat, log2w: nat)
    requires PictureSized(p0, width, height)
    ensures Partial(op, last, p0, p0, width, height, x, y, w, h, log2w, 0, 0)
  {
  }

  // One cell replaced.
  function Stored(p: Picture, px: nat, py: nat, c: Cell): Picture
    requires py < |p| && px < |p[py]|
  {
    p[py := p[py][px := c]]
  }

  lemma PartialStep(op: Op, last: seq<nat>, p0: Picture, p1: Picture, p2: Picture, width: nat, height: nat,
                    x: nat, y: nat, w: nat, h: nat, log2w: nat, i: nat, n: nat)
    requires n < w && i < h && x + w <= width && y + h <= height
    requires Partial(op, last, p0, p1, width, height, x, y, w, h, log2w, i, n)
    requires p2 == Stored(p1, x + n, y + i, RenderLeaf(op, last, width, log2w, n, i, p1[y + i][x + n]))
    ensures Partial(op, last, p0, p2, width, height, x, y, w, h, log2w, i, n + 1)
  {
  }

  lemma PartialRow(op: Op, last: seq<nat>, p0: Picture, p1: Picture, width: nat, height: nat,
                   x: nat, y: nat, w: nat, h: nat, log2w: nat, i: nat)
    requires Partial(op, last, p0, p1, width, height, x, y, w, h, log2w, i, w)
    ensures Partial(op, last, p0, p1, width, height, x, y, w, h, log2w, i + 1, 0)
  {
  }

  lemma PartialDone(op: Op, last: seq<nat>, p0: Picture, p1: Picture, width: nat, height: nat,
                    x: nat, y: nat, log2w: nat, log2h: nat)
    requires log2w < 4 && log2h < 4
    requires Partial(op, last, p0, p1, width, height, x, y, Pow2(log2w), Pow2(log2h), log2w, Pow2(log2h), 0)
    ensures DrawnOnly(Leaf(op), last, p0, p1, width, height, x, y, log2w, log2h)
  {
  }

  // Adding dc to both halves of a 32-bit word, with the carry from the low half.
  lemma PairWord(lo: nat, hi: nat, scale: nat, dc: nat)
    requires lo < 0x1_0000 && hi < 0x1_0000 && scale <= 1 && dc < 0x1_0000
    ensures var word := ((lo + 0x1_0000 * hi) * scale + dc * 0x1_0001) % 0x1_0000_0000;
      && word % 0x1_0000 == (lo * scale + dc) % 0x1_0000
      && word / 0x1_0000 == (hi * scale + dc + (lo * scale + dc) / 0x1_0000) % 0x1_0000
  {
    var l, h := lo * scale + dc, hi * scale + dc;
    assert (lo + 0x1_0000 * hi) * scale + dc * 0x1_0001 == l + 0x1_0000 * h by {
      if scale == 0 {} else {}
    }
  }

  lemma RowsApart(width: nat, a: nat, b: nat)
    requires a < b
    ensures a * width + width <= b * width
  {
    var gap := b - a;
    assert b * width == a * width + gap * width;
    assert gap * width == width + (gap - 1) * width;
    assert (gap - 1) * width >= 0;
  }

  lemma IdxBound(width: nat, height: nat, px: nat, py: nat)
    requires px < width && py < height
    ensures Idx(width, px, py) < width * height
  {
    RowsApart(width, py, height);
  }

  lemma IdxInjective(width: nat, px: nat, py: nat, qx: nat, qy: nat)
    requires px < width && qx < width && Idx(width, px, py) == Idx(width, qx, qy)
    ensures px == qx && py == qy
  {
    if py < qy {
      RowsApart(width, py, qy);
    } else if qy < py {
      RowsApart(width, qy, py);
    }
  }

  lemma LowHalf(v: nat, dc: nat)
    ensures (v + dc * 0x1_0001) % 0x1_0000 == (v + dc) % 0x1_0000
  {
    assert v + dc * 0x1_0001 == (v + dc) + dc * 0x1_0000;
  }

  lemma IdxMoves(width: nat, x: nat, y: nat, dx: nat, dy: nat)
    ensures Idx(width, x + dx, y + dy) == Idx(width, x, y) + width * dy + dx
  {
  }

  lemma PairFits(k: nat, w: nat)
    requires k % 2 == w % 2 == 0 && k < w
    ensures (k + 2) % 2 == 0 && k + 2 <= w
  {
  }

  lemma NextStripAt(width: nat, y: nat)
    ensures Idx(width, 0, y + 8) == Idx(width, 0, y) + 8 * width
  {
  }

  lemma IdxRight(width: nat, x: nat, y: nat, dx: nat)
    ensures Idx(width, x + dx, y) == Idx(width, x, y) + dx
  {
  }

  // Where the lower and the right half of a rectangle begin.
  lemma LowerHalf(width: nat, height: nat, x: nat, y: nat, log2h: nat)
    requires y + Pow2(log2h + 1) <= height
    ensures Idx(width, x, y) + width * Pow2(log2h) == Idx(width, x, y + Pow2(log2h))
    ensures y + Pow2(log2h) <= height && y + Pow2(log2h) + Pow2(log2h) <= height
  {
    IdxMoves(width, x, y, 0, Pow2(log2h));
  }

  lemma RightHalf(width: nat, x: nat, y: nat, log2w: nat)
    requires x + Pow2(log2w + 1) <= width
    ensures Idx(width, x, y) + Pow2(log2w) == Idx(width, x + Pow2(log2w), y)
    ensures x + Pow2(log2w) <= width && x + Pow2(log2w) + Pow2(log2w) <= width
  {
    IdxRight(width, x, y, Pow2(log2w));
  }

  // A source that passes the test keeps every read of a w x h block inside the last frame.
  lemma SourceInside(width: nat, height: nat, src: int, w: nat, h: nat, c: nat, r: nat)
    requires 0 <= src <= width * (height - h + 1) - w && c < w && r < h
    ensures 0 <= src + width * r + c < width * height
  {
    assert (h - 1 - r) * width >= 0;
    assert width * height == width * (height - h + 1) + width * (h - 1);
    assert width * (h - 1) == width * r + (h - 1 - r) * width;
  }

  function LeafOp(scale: nat, src: int, dc: nat): Op {
    if scale == 1 then Copy(src, dc) else Solid(dc)
  }

  // A pixel with the value mcdc computes for it, stored once more.
  function Moved(scale: nat, dc: nat, last: seq<nat>, log2w: nat, n: nat, s: nat, was: Cell): Cell
    requires s + n < |last|
  {
    var carry := if log2w > 0 && n % 2 == 1 then (last[s + n - 1] * scale + dc) / 0x1_0000 else 0;
    Cell((last[s + n] * scale + dc + carry) % 0x1_0000, was.stores + 1)
  }

  // It is that of the leaf for pixel n of row i, where s is where that row's source starts.
  lemma LeafValue(scale: nat, src: int, dc: nat, last: seq<nat>, width: nat, log2w: nat, n: nat, i: nat, s: nat,
                  was: Cell)
    requires scale <= 1 && dc < 0x1_0000 && s + n < |last| && (scale == 1 ==> s == src + Idx(width, 0, i))
    ensures RenderLeaf(LeafOp(scale, src, dc), last, width, log2w, n, i, was)
      == Moved(scale, dc, last, log2w, n, s, was)
  {
    if scale == 1 {
      assert last[s + n] * scale == last[s + n];
      if n > 0 { assert last[s + n - 1] * scale == last[s + n - 1]; }
    }
  }

  lemma PartialOne(scale: nat, src: int, dc: nat, last: seq<nat>, p0: Picture, p1: Picture, p2: Picture,
                   width: nat, height: nat, x: nat, y: nat, w: nat, h: nat, log2w: nat, i: nat, n: nat, s: nat)
    requires n < w && i < h && x + w <= width && y + h <= height
    requires scale <= 1 && dc < 0x1_0000 && s + n < |last| && (scale == 1 ==> s == src + Idx(width, 0, i))
    requires Partial(LeafOp(scale, src, dc), last, p0, p1, width, height, x, y, w, h, log2w, i, n)
    requires p2 == Stored(p1, x + n, y + i, Moved(scale, dc, last, log2w, n, s, p1[y + i][x + n]))
    ensures Partial(LeafOp(scale, src, dc), last, p0, p2, width, height, x, y, w, h, log2w, i, n + 1)
  {
    LeafValue(scale, src, dc, last, width, log2w, n, i, s, p1[y + i][x + n]);
    PartialStep(LeafOp(scale, src, dc), last, p0, p1, p2, width, height, x, y, w, h, log2w, i, n);
  }

  // Two pixels at once: n is even, and `pair` is the row's source moved on by n.
  lemma PartialTwo(scale: nat, src: int, dc: nat, last: seq<nat>, p0: Picture, p1: Picture, p2: Picture,
                   width: nat, height: nat, x: nat, y: nat, w: nat, h: nat, log2w: nat, i: nat, n: nat, s: nat)
    requires n % 2 == 0 && n + 1 < w && i < h && x + w <= width && y + h <= height && log2w > 0
    requires scale <= 1 && dc < 0x1_0000 && s + w <= |last| && (scale == 1 ==> s == src + Idx(width, 0, i))
    requires Partial(LeafOp(scale, src, dc), last, p0, p1, width, height, x, y, w, h, log2w, i, n)
    requires p2 == Stored(Stored(p1, x + n, y + i, Moved(scale, dc, last, 1, 0, s + n, p1[y + i][x + n])),
                          x + n + 1, y + i, Moved(scale, dc, last, 1, 1, s + n, p1[y + i][x + n + 1]))
    ensures Partial(LeafOp(scale, src, dc), last, p0, p2, width, height, x, y, w, h, log2w, i, n + 2)
  {
    var p := Stored(p1, x + n, y + i, Moved(scale, dc, last, 1, 0, s + n, p1[y + i][x + n]));
    MovedOn(scale, dc, last, log2w, n, 0, s, p1[y + i][x + n]);
    MovedOn(scale, dc, last, log2w, n, 1, s, p1[y + i][x + n + 1]);
    PartialOne(scale, src, dc, last, p0, p1, p, width, height, x, y, w, h, log2w, i, n, s);
    PartialOne(scale, src, dc, last, p0, p, p2, width, height, x, y, w, h, log2w, i, n + 1, s);
  }

  lemma MovedOn(scale: nat, dc: nat, last: seq<nat>, log2w: nat, n: nat, m: nat, s: nat, was: Cell)
    requires s + n + m < |last| && n % 2 == 0 && log2w > 0
    ensures Moved(scale, dc, last, 1, m, s + n, was) == Moved(scale, dc, last, log2w, n + m, s, was)
  {
  }

  // What decoding a block leaves behind: success exactly when the parse succeeds, with the
  // parse's picture and cursor; on failure stores stay inside the rectangle.
  ghost predicate Outcome(p: Parse, ok: bool, at: Cursor, last: seq<nat>, p0: Picture, p1: Picture,
                          width: nat, height: nat, x: nat, y: nat, log2w: nat, log2h: nat)
    requires log2w < 4 && log2h < 4
  {
    && PictureSized(p0, width, height) && PictureSized(p1, width, height)
    && ok == p.Parsed?
    && (ok ==> at == p.at && DrawnOnly(p.block, last, p0, p1, width, height, x, y, log2w, log2h))
    && OnlyInside(p0, p1, width, height, x, y, Pow2(log2w), Pow2(log2h))
  }

  lemma OutcomeRows(top: Parse, bottom: Parse, ok: bool, mid: Cursor, at: Cursor, last: seq<nat>, p0: Picture,
                    p1: Picture, p2: Picture, width: nat, height: nat, x: nat, y: nat, log2w: nat, log2h: nat)
    requires log2w < 4 && 0 < log2h < 4
    requires Outcome(top, true, mid, last, p0, p1, width, height, x, y, log2w, log2h - 1)
    requires Outcome(bottom, ok, at, last, p1, p2, width, height, x, y + Pow2(log2h - 1), log2w, log2h - 1)
    ensures Outcome(Below(top.block, bottom), ok, at, last, p0, p2, width, height, x, y, log2w, log2h)
  {
    if ok { DrawRows(top.block, bottom.block, last, p0, p1, p2, width, height, x, y, log2w, log2h); }
  }

  lemma OutcomeColumns(left: Parse, right: Parse, ok: bool, mid: Cursor, at: Cursor, last: seq<nat>, p0: Picture,
                       p1: Picture, p2: Picture, width: nat, height: nat, x: nat, y: nat, log2w: nat, log2h: nat)
    requires 0 < log2w < 4 && log2h < 4
    requires Outcome(left, true, mid, last, p0, p1, width, height, x, y, log2w - 1, log2h)
    requires Outcome(right, ok, at, last, p1, p2, width, height, x + Pow2(log2w - 1), y, log2w - 1, log2h)
    ensures Outcome(Beside(left.block, right), ok, at, last, p0, p2, width, height, x, y, log2w, log2h)
  {
    if ok { DrawColumns(left.block, right.block, last, p0, p1, p2, width, height, x, y, log2w, log2h); }
  }

  // A failure inside one part of a rectangle is a failure inside the rectangle.
  lemma OutcomeWiden(at: Cursor, last: seq<nat>, p0: Picture, p1: Picture, width: nat, height: nat, x: nat, y: nat,
                     w1: nat, h1: nat, log2w: nat, log2h: nat)
    requires w1 <= log2w < 4 && h1 <= log2h < 4
    requires Outcome(Failed, false, at, last, p0, p1, width, height, x, y, w1, h1)
    ensures Outcome(Failed, false, at, last, p0, p1, width, height, x, y, log2w, log2h)
  {
  }

  lemma LiteralDrawn(first: nat, second: nat, last: seq<nat>, p0: Picture, p1: Picture, p2: Picture,
                     width: nat, height: nat, x: nat, y: nat, log2w: nat, log2h: nat)
    requires log2w + log2h == 1 && x + Pow2(log2w) <= width && y + Pow2(log2h) <= height
    requires PictureSized(p0, width, height)
    requires p1 == Stored(p0, x, y, Cell(first, p0[y][x].stores + 1))
    requires p2 == Stored(p1, x + log2w, y + log2h, Cell(second, p1[y + log2h][x + log2w].stores + 1))
    ensures DrawnOnly(Leaf(Literal(first, second)), last, p0, p2, width, height, x, y, log2w, log2h)
  {
    var op, w, h := Literal(first, second), Pow2(log2w), Pow2(log2h);
    PartialStart(op, last, p0, width, height, x, y, w, h, log2w);
    PartialStep(op, last, p0, p0, p1, width, height, x, y, w, h, log2w, 0, 0);
    if log2w > 0 {
      PartialStep(op, last, p0, p1, p2, width, height, x, y, w, h, log2w, 0, 1);
      PartialRow(op, last, p0, p2, width, height, x, y, w, h, log2w, 0);
    } else {
      PartialRow(op, last, p0, p1, width, height, x, y, w, h, log2w, 0);
      PartialStep(op, last, p0, p1, p2, width, height, x, y, w, h, log2w, 1, 0);
      PartialRow(op, last, p0, p2, width, height, x, y, w, h, log2w, 1);
    }
    PartialDone(op, last, p0, p2, width, height, x, y, log2w, log2h);
  }

  // The block's own position is a valid source.
  lemma BlockSourceInside(width: nat, height: nat, x: nat, y: nat, w: nat, h: nat)
    requires x + w <= width && y + h <= height
    ensures 0 <= Idx(width, x, y) <= width * (height - h + 1) - w
  {
    assert (height - h - y) * width >= 0;
    assert width * (height - h + 1) == (height - h - y) * width + y * width + width;
  }

  class FourXFrame {
    const f: Input
    const frame: array<Pixel16>
    const last: array<Pixel16>
    var at: Cursor
    ghost var cells: Picture   // the frame, row by row, with how often each pixel was stored

    constructor (f: Input, frame: array<Pixel16>, last: array<Pixel16>)
      requires ValidInput(f) && frame.Length == last.Length == f.width * f.height && frame != last
      ensures Valid() && this.f == f && this.frame == frame && this.last == last && at == Cursor(0, 0, 0)
      ensures forall py, px :: 0 <= py < f.height && 0 <= px < f.width ==> cells[py][px].stores == 0
    {
      this.f, this.frame, this.last := f, frame, last;
      at := Cursor(0, 0, 0);
      forall px: nat, py: nat | px < f.width && py < f.height ensures Idx(f.width, px, py) < f.width * f.height {
        IdxBound(f.width, f.height, px, py);
      }
      cells := seq(f.height, py requires 0 <= py < f.height reads frame =>
        seq(f.width, px requires 0 <= px < f.width reads frame =>
          if Idx(f.width, px, py) < frame.Length then Cell(frame[Idx(f.width, px, py)], 0) else Cell(0, 0)));
    }

    ghost predicate Valid()
      reads this, frame
    {
      && ValidInput(f) && frame.Length == last.Length == f.width * f.height && frame != last
      && PictureSized(cells, f.width, f.height)
      && forall px: nat, py: nat {:trigger Idx(f.width, px, py)} :: px < f.width && py < f.height ==>
           Idx(f.width, px, py) < frame.Length && frame[Idx(f.width, px, py)] == cells[py][px].value
    }

    method Put(i: nat, v: Pixel16, ghost px: nat, ghost py: nat)
      requires Valid() && px < f.width && py < f.height && i == Idx(f.width, px, py)
      modifies `cells, frame
      ensures Valid() && cells == Stored(old(cells), px, py, Cell(v, old(cells)[py][px].stores + 1))
    {
      forall qx: nat, qy: nat | qx < f.width && qy < f.height && Idx(f.width, qx, qy) == i
        ensures qx == px && qy == py
      {
        IdxInjective(f.width, qx, qy, px, py);
      }
      frame[i] := v;
      cells := Stored(cells, px, py, Cell(v, cells[py][px].stores + 1));
    }

    // LE_CENTRIC_MUL: two neighbouring pixels at once, as one 32-bit word.
    method StorePair(d: nat, s: nat, scale: nat, dc: nat, ghost px: nat, ghost py: nat)
      requires Valid() && px + 1 < f.width && py < f.height && d == Idx(f.width, px, py)
      requires s + 1 < last.Length && scale <= 1 && dc < 0x1_0000
      modifies `cells, frame
      ensures Valid()
      ensures cells == old(Stored(Stored(cells, px, py, Moved(scale, dc, last[..], 1, 0, s, cells[py][px])),
                                  px + 1, py, Moved(scale, dc, last[..], 1, 1, s, cells[py][px + 1])))
    {
      var word := ((last[s] + 0x1_0000 * last[s + 1]) * scale + dc * 0x1_0001) % 0x1_0000_0000;
      PairWord(last[s], last[s + 1], scale, dc);
      Put(d, word % 0x1_0000, px, py);
      Put(d + 1, word / 0x1_0000, px + 1, py);
    }

    // Two pixels of one row of a leaf.
    method McdcPair(d: nat, s: nat, k: nat, w: nat, scale: nat, dc: nat, src: int,
                    ghost p0: Picture, ghost x: nat, ghost y: nat, ghost h: nat, ghost log2w: nat, ghost i: nat)
      requires Valid() && 0 < log2w && scale <= 1 && dc < 0x1_0000 && i < h
      requires x + w <= f.width && y + h <= f.height && k % 2 == 0 && k + 1 < w
      requires d == Idx(f.width, x + k, y + i) && s + w <= last.Length && (scale == 1 ==> s == src + Idx(f.width, 0, i))
      requires Partial(LeafOp(scale, src, dc), last[..], p0, cells, f.width, f.height, x, y, w, h, log2w, i, k)
      modifies `cells, frame
      ensures Valid() && last[..] == old(last[..])
      ensures Partial(LeafOp(scale, src, dc), last[..], p0, cells, f.width, f.height, x, y, w, h, log2w, i, k + 2)
    {
      ghost var p1, was := cells, last[..];
      StorePair(d, s + k, scale, dc, x + k, y + i);
      PartialTwo(scale, src, dc, was, p0, p1, cells, f.width, f.height, x, y, w, h, log2w, i, k, s);
    }

    // The one pixel of a row of a leaf one pixel wide.
    method McdcSingle(d: nat, s: nat, scale: nat, dc: nat, src: int,
                      ghost p0: Picture, ghost x: nat, ghost y: nat, ghost h: nat, ghost i: nat)
      requires Valid() && scale <= 1 && dc < 0x1_0000 && i < h
      requires x + 1 <= f.width && y + h <= f.height && d == Idx(f.width, x, y + i) && s + 1 <= last.Length
      requires scale == 1 ==> s == src + Idx(f.width, 0, i)
      requires Partial(LeafOp(scale, src, dc), last[..], p0, cells, f.width, f.height, x, y, 1, h, 0, i, 0)
      modifies `cells, frame
      ensures Valid()
      ensures Partial(LeafOp(scale, src, dc), last[..], p0, cells, f.width, f.height, x, y, 1, h, 0, i, 1)
    {
      ghost var p1, was := cells, last[..];
      LowHalf(scale * last[s], dc);
      Put(d, (scale * last[s] + dc * 0x1_0001) % 0x1_0000, x, y + i);
      PartialOne(scale, src, dc, was, p0, p1, cells, f.width, f.height, x, y, 1, h, 0, i, 0, s);
    }

    // The pairs of one row, which the source unrolls for each width.
    method McdcPairs(d: nat, s: nat, w: nat, scale: nat, dc: nat, src: int,
                     ghost p0: Picture, ghost x: nat, ghost y: nat, ghost h: nat, ghost log2w: nat, ghost i: nat)
      requires Valid() && 0 < log2w && w % 2 == 0 && scale <= 1 && dc < 0x1_0000 && i < h
      requires x + w <= f.width && y + h <= f.height
      requires d == Idx(f.width, x, y + i) && s + w <= last.Length && (scale == 1 ==> s == src + Idx(f.width, 0, i))
      requires Partial(LeafOp(scale, src, dc), last[..], p0, cells, f.width, f.height, x, y, w, h, log2w, i, 0)
      modifies `cells, frame
      ensures Valid()
      ensures Partial(LeafOp(scale, src, dc), last[..], p0, cells, f.width, f.height, x, y, w, h, log2w, i, w)
    {
      var k := 0;
      ghost var op, was := LeafOp(scale, src, dc), last[..];
      while k < w
        invariant k % 2 == 0 && k <= w && Valid() && last[..] == was
        invariant Partial(op, was, p0, cells, f.width, f.height, x, y, w, h, log2w, i, k)
      {
        IdxRight(f.width, x, y + i, k);
        PairFits(k, w);
        McdcPair(d + k, s, k, w, scale, dc, src, p0, x, y, h, log2w, i);
        k := k + 2;
      }
    }

    // One row of a leaf.
    method McdcRow(d: nat, s: nat, log2w: nat, scale: nat, dc: nat, src: int,
                   ghost p0: Picture, ghost x: nat, ghost y: nat, ghost h: nat, ghost i: nat)
      requires Valid() && scale <= 1 && dc < 0x1_0000 && i < h
      requires x + Pow2(log2w) <= f.width && y + h <= f.height
      requires d == Idx(f.width, x, y + i) && s + Pow2(log2w) <= last.Length
      requires scale == 1 ==> s == src + Idx(f.width, 0, i)
      requires Partial(LeafOp(scale, src, dc), last[..], p0, cells, f.width, f.height, x, y, Pow2(log2w), h,
                       log2w, i, 0)
      modifies `cells, frame
      ensures Valid()
      ensures Partial(LeafOp(scale, src, dc), last[..], p0, cells, f.width, f.height, x, y, Pow2(log2w), h,
                      log2w, i + 1, 0)
    {
      if log2w == 0 {
        McdcSingle(d, s, scale, dc, src, p0, x, y, h, i);
      } else {
        McdcPairs(d, s, Pow2(log2w), scale, dc, src, p0, x, y, h, log2w, i);
      }
      PartialRow(LeafOp(scale, src, dc), last[..], p0, cells, f.width, f.height, x, y, Pow2(log2w), h, log2w, i);
    }

    // mcdc: a rectangle copied from the last frame and shifted, or filled.
    method Mcdc(dst: nat, src: nat, log2w: nat, h: nat, stride: nat, scale: nat, dc: nat,
                ghost x: nat, ghost y: nat, ghost log2h: nat)
      requires Valid() && log2w < 4 && log2h < 4 && h == Pow2(log2h) && stride == f.width
      requires x + Pow2(log2w) <= f.width && y + h <= f.height && dst == Idx(f.width, x, y)
      requires InPicture(f, src, Pow2(log2w), h) && scale <= 1 && dc < 0x1_0000
      modifies `cells, frame
      ensures Valid()
      ensures DrawnOnly(Leaf(LeafOp(scale, src, dc)), last[..], old(cells), cells, f.width, f.height,
                        x, y, log2w, log2h)
    {
      var d, s := dst, src;
      ghost var op, p0 := LeafOp(scale, src, dc), cells;
      PartialStart(op, last[..], p0, f.width, f.height, x, y, Pow2(log2w), h, log2w);
      for i := 0 to h
        invariant Valid() && d == dst + stride * i && s == src + (if scale == 1 then stride * i else 0)
        invariant Partial(op, last[..], p0, cells, f.width, f.height, x, y, Pow2(log2w), h, log2w, i, 0)
      {
        IdxMoves(f.width, x, y, 0, i);
        SourceInside(f.width, f.height, src, Pow2(log2w), h, Pow2(log2w) - 1, if scale == 1 then i else 0);
        McdcRow(d, s, log2w, scale, dc, src, p0, x, y, h, i);
        if scale != 0 {
          s := s + stride;
        }
        d := d + stride;
      }
      PartialDone(op, last[..], p0, cells, f.width, f.height, x, y, log2w, log2h);
    }

    // get_vlc2 on the table for this block size.
    method GetBlockType(index: nat) returns (code: nat)
      requires Valid() && index < 4
      modifies `at
      ensures code == CodeAt(f.version < 2, index, Peek5(f.bits, old(at).bit)).blockType
      ensures at == old(at).(bit := old(at).bit + CodeAt(f.version < 2, index, Peek5(f.bits, old(at).bit)).length)
    {
      TablesComplete(f.version < 2, index, Peek5(f.bits, at.bit));
      code := Lookup(f.version < 2, index, Peek5(f.bits, at.bit), 0);
      at := at.(bit := at.bit + Entry(f.version < 2, index, code).1);
    }

    method GetByte() returns (b: nat)
      requires Valid() && at.byte < |f.bytes|
      modifies `at
      ensures b == f.bytes[old(at).byte] && at == old(at).(byte := old(at).byte + 1)
    {
      b := f.bytes[at.byte];
      at := at.(byte := at.byte + 1);
    }

    method GetWord() returns (w: nat)
      requires Valid() && at.word + 2 <= |f.words|
      modifies `at
      ensures w == Le16(f.words, old(at).word) < 0x1_0000 && at == old(at).(word := old(at).word + 2)
    {
      w := Le16(f.words, at.word);
      at := at.(word := at.word + 2);
    }

    // Block type 6: the two pixels of a two-pixel block.
    method DecodeLiteral(dst: nat, log2w: nat, log2h: nat, stride: nat, ghost x: nat, ghost y: nat)
      requires Valid() && log2w + log2h == 1 && stride == f.width && at.word + 4 <= |f.words|
      requires x + Pow2(log2w) <= f.width && y + Pow2(log2h) <= f.height && dst == Idx(f.width, x, y)
      modifies `cells, `at, frame
      ensures Valid() && at == old(at).(word := old(at).word + 4)
      ensures DrawnOnly(Leaf(Literal(Le16(f.words, old(at).word), Le16(f.words, old(at).word + 2))), last[..],
                        old(cells), cells, f.width, f.height, x, y, log2w, log2h)
    {
      ghost var p0 := cells;
      var first := GetWord();
      Put(dst, first, x, y);
      ghost var p1 := cells;
      var second := GetWord();
      if log2w > 0 {
        Put(dst + 1, second, x + 1, y);
      } else {
        IdxMoves(f.width, x, y, 0, 1);
        Put(dst + stride, second, x, y + 1);
      }
      LiteralDrawn(first, second, last[..], p0, p1, cells, f.width, f.height, x, y, log2w, log2h);
    }

    // A block type that does not split. The picture changes inside the rectangle only, and
    // all of it as the parse says if that succeeds.
    method DecodeLeaf(code: nat, dst: nat, src0: nat, log2w: nat, log2h: nat, stride: nat, ghost x: nat, ghost y: nat)
        returns (ok: bool, ghost p: Parse)
      requires Valid() && log2w < 4 && log2h < 4 && stride == f.width && code < 7 && code != 1 && code != 2
      requires code == 6 ==> log2w + log2h == 1
      requires x + Pow2(log2w) <= f.width && y + Pow2(log2h) <= f.height && dst == src0 == Idx(f.width, x, y)
      modifies `cells, `at, frame
      ensures Valid()
      ensures p == ParseLeaf(f, code, old(at), src0, Pow2(log2w), Pow2(log2h))
      ensures Outcome(p, ok, at, last[..],
                      old(cells), cells, f.width, f.height, x, y, log2w, log2h)
    {
      p := ParseLeaf(f, code, at, src0, Pow2(log2w), Pow2(log2h));
      var src, h, scale, dc: nat := src0 as int, Pow2(log2h), 1, 0;
      var start, end := 0, stride * (f.height - h + 1) - Pow2(log2w);
      if code == 6 {
        if |f.words| - at.word < 4 {
          return false, p;
        }
        DecodeLiteral(dst, log2w, log2h, stride, x, y);
        return true, p;
      }
      if code % 4 == 0 && |f.bytes| - at.byte < 1 {
        return false, p;
      }
      BlockSourceInside(f.width, f.height, x, y, Pow2(log2w), h);
      if code == 0 {
        var b := GetByte();
        src := src + f.mv[b];
      } else if code == 3 && f.version >= 2 {
        return true, p;
      } else if code == 4 {
        var b := GetByte();
        src := src + f.mv[b];
        if |f.words| - at.word < 2 {
          return false, p;
        }
        dc := GetWord();
      } else if code == 5 {
        if |f.words| - at.word < 2 {
          return false, p;
        }
        assert start <= src <= end;   // av_assert0
        scale := 0;
        dc := GetWord();
      }
      if start > src || src > end {
        return false, p;
      }
      Mcdc(dst, src, log2w, h, stride, scale, dc, x, y, log2h);
      return true, p;
    }

    // decode_p_block.
    method DecodePBlock(dst: nat, src: nat, log2w: nat, log2h: nat, stride: nat, ghost x: nat, ghost y: nat)
        returns (ok: bool, ghost p: Parse)
      requires Valid() && log2w < 4 && log2h < 4 && log2w + log2h > 0 && stride == f.width
      requires x + Pow2(log2w) <= f.width && y + Pow2(log2h) <= f.height && dst == src == Idx(f.width, x, y)
      modifies `cells, `at, frame
      ensures Valid()
      ensures p == ParseBlock(f, old(at), x, y, log2w, log2h)
      ensures Outcome(p, ok, at, last[..],
                      old(cells), cells, f.width, f.height, x, y, log2w, log2h)
      decreases log2w + log2h, 1
    {
      BlockBranch(f, at, x, y, log2w, log2h);
      ghost var after := AfterCode(f, at, log2w, log2h);
      var code := GetBlockType(SizeIndex(log2h, log2w));
      if code == 1 {
        ok, p := DecodeRows(dst, src, log2w, log2h - 1, stride, x, y);
      } else if code == 2 {
        ok, p := DecodeColumns(dst, src, log2w - 1, log2h, stride, x, y);
      } else {
        ok, p := DecodeLeaf(code, dst, src, log2w, log2h, stride, x, y);
      }
    }

    // Block type 1: the upper half, then the lower half.
    method DecodeRows(dst: nat, src: nat, log2w: nat, log2h: nat, stride: nat, ghost x: nat, ghost y: nat)
        returns (ok: bool, ghost p: Parse)
      requires Valid() && log2w < 4 && log2h < 3 && log2w + log2h > 0 && stride == f.width
      requires x + Pow2(log2w) <= f.width && y + Pow2(log2h + 1) <= f.height && dst == src == Idx(f.width, x, y)
      modifies `cells, `at, frame
      ensures Valid()
      ensures p == ParseRows(f, old(at), x, y, log2w, log2h + 1)
      ensures Outcome(p, ok, at, last[..],
                      old(cells), cells, f.width, f.height, x, y, log2w, log2h + 1)
      decreases log2w + log2h + 1, 0
    {
      ghost var p0, top, bottom := cells, Failed, Failed;
      ok, top := DecodePBlock(dst, src, log2w, log2h, stride, x, y);
      ghost var p1, mid := cells, at;
      if !ok {
        OutcomeWiden(at, last[..], p0, p1, f.width, f.height, x, y, log2w, log2h, log2w, log2h + 1);
        p := Failed;
        return;
      }
      var below := stride * Pow2(log2h);
      LowerHalf(f.width, f.height, x, y, log2h);
      ok, bottom := DecodePBlock(dst + below, src + below, log2w, log2h, stride, x, y + Pow2(log2h));
      OutcomeRows(top, bottom, ok, mid, at, last[..], p0, p1, cells,
                  f.width, f.height, x, y, log2w, log2h + 1);
      p := Below(top.block, bottom);
    }

    // Block type 2: the left half, then the right half.
    method DecodeColumns(dst: nat, src: nat, log2w: nat, log2h: nat, stride: nat, ghost x: nat, ghost y: nat)
        returns (ok: bool, ghost p: Parse)
      requires Valid() && log2w < 3 && log2h < 4 && log2w + log2h > 0 && stride == f.width
      requires x + Pow2(log2w + 1) <= f.width && y + Pow2(log2h) <= f.height && dst == src == Idx(f.width, x, y)
      modifies `cells, `at, frame
      ensures Valid()
      ensures p == ParseColumns(f, old(at), x, y, log2w + 1, log2h)
      ensures Outcome(p, ok, at, last[..],
                      old(cells), cells, f.width, f.height, x, y, log2w + 1, log2h)
      decreases log2w + log2h + 1, 0
    {
      ghost var p0, left, right := cells, Failed, Failed;
      ok, left := DecodePBlock(dst, src, log2w, log2h, stride, x, y);
      ghost var p1, mid := cells, at;
      if !ok {
        OutcomeWiden(at, last[..], p0, p1, f.width, f.height, x, y, log2w, log2h, log2w + 1, log2h);
        p := Failed;
        return;
      }
      RightHalf(f.width, x, y, log2w);
      ok, right := DecodePBlock(dst + Pow2(log2w), src + Pow2(log2w), log2w, log2h, stride, x + Pow2(log2w), y);
      OutcomeColumns(left, right, ok, mid, at, last[..], p0, p1, cells,
                     f.width, f.height, x, y, log2w + 1, log2h);
      p := Beside(left.block, right);
    }

    // The first k blocks of the strip at row y are s and have been drawn below the earlier strips.
    ghost predicate InStrip(start: Cursor, strips: seq<seq<Block>>, s: Strip, k: nat, p0: Picture, y: nat)
      reads this, frame, last
    {
      && Valid() && s == ParseStrip(f, start, y, k) && s.Strip? && at == s.at
      && DrawnUpTo(strips, s.blocks, last[..], p0, cells, f.width, f.height, 8 * k, y)
    }

    // The first m strips are g and have been drawn.
    ghost predicate InGrid(start: Cursor, g: Grid, m: nat, p0: Picture)
      reads this, frame, last
    {
      && Valid() && g == ParseGrid(f, start, m) && g.Grid? && at == g.at
      && DrawnUpTo(g.strips, [], last[..], p0, cells, f.width, f.height, 0, 8 * m)
    }

    // One round of the inner loop of decode_p_frame.
    method DecodeNextBlock(dst: nat, src: nat, x: nat, y: nat,
                            ghost start: Cursor, ghost strips: seq<seq<Block>>, ghost s0: Strip, ghost k: nat,
                            ghost p0: Picture)
        returns (ok: bool, ghost s: Strip)
      requires InStrip(start, strips, s0, k, p0, y)
      requires f.width % 8 == 0 && x == 8 * k < f.width && y + 8 <= f.height && dst == src == Idx(f.width, 0, y)
      modifies `cells, `at, frame
      ensures if ok then InStrip(start, strips, s, k + 1, p0, y)
        else Valid() && s == StripFailed == ParseStrip(f, start, y, f.width / 8)
    {
      ghost var p1, p := cells, Failed;
      IdxRight(f.width, 0, y, x);
      ok, p := DecodePBlock(dst + x, src + x, 3, 3, f.width, x, y);
      s := StripFailed;
      if ok {
        s := NextBlockDrawn(f, start, k, strips, s0, p, last[..], p0, p1, cells, y);
      } else {
        NextBlockFailed(f, start, y, k, f.width / 8);
      }
    }

    // The inner loop of decode_p_frame: one strip of 8 rows.
    method DecodeStrip(dst: nat, src: nat, y: nat, ghost strips: seq<seq<Block>>, ghost p0: Picture)
        returns (ok: bool, ghost s: Strip)
      requires Valid() && f.width % 8 == 0 && y + 8 <= f.height && dst == src == Idx(f.width, 0, y)
      requires DrawnUpTo(strips, [], last[..], p0, cells, f.width, f.height, 0, y)
      modifies `cells, `at, frame
      ensures Valid() && s == ParseStrip(f, old(at), y, f.width / 8) && ok == s.Strip?
      ensures ok ==> at == s.at && DrawnUpTo(strips, s.blocks, last[..], p0, cells, f.width, f.height, f.width, y)
    {
      ghost var start, k := at, 0;
      var x := 0;
      ok, s := true, Strip([], at);
      while x < f.width
        invariant InStrip(start, strips, s, k, p0, y) && x == 8 * k <= f.width
      {
        ok, s := DecodeNextBlock(dst, src, x, y, start, strips, s, k, p0);
        if !ok { return; }
        x, k := x + 8, k + 1;
      }
      ok := true;
    }

    // One round of the outer loop. The pointers move on to the next strip.
    method DecodeNextStrip(dst: nat, src: nat, y: nat, ghost start: Cursor, ghost g0: Grid, ghost m: nat,
                           ghost p0: Picture)
        returns (ok: bool, dst2: nat, src2: nat, ghost g: Grid)
      requires InGrid(start, g0, m, p0) && f.width % 8 == 0 && f.height % 8 == 0
      requires y == 8 * m < f.height && dst == src == Idx(f.width, 0, y)
      modifies `cells, `at, frame
      ensures dst2 == src2 == Idx(f.width, 0, y + 8)
      ensures if ok then InGrid(start, g, m + 1, p0)
        else Valid() && g == GridFailed == ParseGrid(f, start, f.height / 8)
    {
      ghost var s := StripFailed;
      ok, s := DecodeStrip(dst, src, y, g0.strips, p0);
      NextStripAt(f.width, y);
      dst2, src2 := dst + 8 * f.width, src + 8 * f.width;
      g := GridFailed;
      if ok {
        g := NextStripDrawn(f, start, m, g0, s, last[..], p0, cells);
      } else {
        NextStripFailed(f, start, m, f.height / 8);
      }
    }

    // The loops of decode_p_frame: on success every pixel of the frame is what the block over
    // it describes, on top of the frame as it was.
    method DecodePFrame() returns (ok: bool, ghost g: Grid)
      requires Valid() && f.width % 8 == 0 && f.height % 8 == 0
      modifies `cells, `at, frame
      ensures Valid() && g == ParseGrid(f, old(at), f.height / 8) && ok == g.Grid?
      ensures ok ==> at == g.at && DrawnUpTo(g.strips, [], last[..], old(cells), cells, f.width, f.height, 0, f.height)
    {
      ghost var start, p0, m := at, cells, 0;
      var dst, src, y := 0, 0, 0;
      ok, g := true, Grid([], at);
      while y < f.height
        invariant InGrid(start, g, m, p0) && y == 8 * m <= f.height && dst == src == Idx(f.width, 0, y)
      {
        ok, dst, src, g := DecodeNextStrip(dst, src, y, start, g, m, p0);
        if !ok { return; }
        y, m := y + 8, m + 1;
      }
      ok := true;
    }
  }

  // Every pixel of a successfully decoded frame was stored exactly once, or, from version 2
  // on, left as it was.
  lemma FrameStoredOnce(f: Input, at: Cursor, last: seq<nat>, p0: Picture, p1: Picture, px: nat, py: nat)
    requires ValidInput(f) && f.width % 8 == 0 && f.height % 8 == 0 && px < f.width && py < f.height
    requires ParseGrid(f, at, f.height / 8).Grid?
    requires DrawnUpTo(ParseGrid(f, at, f.height / 8).strips, [], last, p0, p1, f.width, f.height, 0, f.height)
    ensures p1[py][px].stores == p0[py][px].stores + 1 || (f.version >= 2 && p1[py][px] == p0[py][px])
  {
    var m, j, k := f.height / 8, py / 8, px / 8;
    var strips := ParseGrid(f, at, m).strips;
    GridTiles(f, at, m, j, k);
    var b := strips[j][k];
    assert AsExpected(strips, [], last, p0, p1, f.width, 0, f.height, px, py);
    StoredOnceOrKept(b, 3, 3, f.version >= 2, last, f.width, px % 8, py % 8, p0[py][px]);
  }

  lemma {:induction false} StripTiles(f: Input, at: Cursor, y: nat, n: nat, k: nat)
    requires ValidInput(f) && ParseStrip(f, at, y, n).Strip? && k < n
    ensures Tiles(ParseStrip(f, at, y, n).blocks[k], 3, 3, f.version >= 2)
  {
    var before := ParseStrip(f, at, y, n - 1);
    if k == n - 1 {
      ParsedTiles(f, before.at, 8 * (n - 1), y, 3, 3);
    } else {
      StripTiles(f, at, y, n - 1, k);
    }
  }

  lemma {:induction false} GridTiles(f: Input, at: Cursor, m: nat, j: nat, k: nat)
    requires ValidInput(f) && ParseGrid(f, at, m).Grid? && j < m && k < f.width / 8
    ensures |ParseGrid(f, at, m).strips[j]| == f.width / 8
    ensures Tiles(ParseGrid(f, at, m).strips[j][k], 3, 3, f.version >= 2)
  {
    var before := ParseGrid(f, at, m - 1);
    if j == m - 1 {
      StripTiles(f, before.at, 8 * (m - 1), f.width / 8, k);
    } else {
      GridTiles(f, at, m - 1, j, k);
    }
  }
}
