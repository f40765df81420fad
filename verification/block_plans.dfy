// What a coded block means, independent of the order in which pixels are stored: a tree of
// splits with one operation per leaf, and the picture such a tree describes.
module BlockPlans {
  import opened Sums
  import opened BlockCodes

  // The decoder's input for one frame; `mv` is the table of source displacements.
  datatype Input = Input(version: nat, bits: nat -> bool, bytes: seq<nat>, words: seq<nat>, mv: seq<int>,
                         width: nat, height: nat)

  // Read positions in the bitstream, the byte stream and the word stream.
  datatype Cursor = Cursor(bit: nat, byte: nat, word: nat)

  predicate ValidInput(f: Input) {
    && |f.mv| == 256 && f.width > 0
    && (forall i :: 0 <= i < |f.bytes| ==> f.bytes[i] < 256)
    && (forall i :: 0 <= i < |f.words| ==> f.words[i] < 256)
  }

  datatype Op =
    | Copy(src: int, dc: nat)          // pixels of the last frame from src on, plus dc
    | Solid(dc: nat)                   // one colour
    | Keep                             // nothing is stored
    | Literal(first: nat, second: nat) // the two pixels of a two-pixel block

  datatype Block = Leaf(op: Op) | Rows(top: Block, bottom: Block) | Columns(left: Block, right: Block)

  datatype Parse = Failed | Parsed(block: Block, at: Cursor)

  // Splits halve a side that can be halved; `keeps` says whether leaves may be left alone.
  predicate Tiles(b: Block, log2w: nat, log2h: nat, keeps: bool) {
    match b
    case Leaf(op) => op.Keep? ==> keeps
    case Rows(top, bottom) => log2h > 0 && Tiles(top, log2w, log2h - 1, keeps) && Tiles(bottom, log2w, log2h - 1, keeps)
    case Columns(left, right) =>
      log2w > 0 && Tiles(left, log2w - 1, log2h, keeps) && Tiles(right, log2w - 1, log2h, keeps)
  }

  // The position of column x in row y of a buffer with rows of `width` pixels.
  function Idx(width: nat, x: nat, y: nat): nat {
    y * width + x
  }

  function Le16(words: seq<nat>, at: nat): nat
    requires at + 2 <= |words|
  {
    words[at] + 256 * words[at + 1]
  }

  // Whether a w x h source starting at src stays inside the last frame by the source's test.
  predicate InPicture(f: Input, src: int, w: nat, h: nat) {
    0 <= src <= f.width * (f.height - h + 1) - w
  }

  // The leaf operation for a block type that does not split, with the cursor after the code.
  function ParseLeaf(f: Input, code: nat, at: Cursor, src: int, w: nat, h: nat): Parse
    requires |f.mv| == 256 && forall i :: 0 <= i < |f.bytes| ==> f.bytes[i] < 256
  {
    if code == 6 then
      if |f.words| < at.word + 4 then Failed
      else Parsed(Leaf(Literal(Le16(f.words, at.word), Le16(f.words, at.word + 2))), at.(word := at.word + 4))
    else if code == 0 || code == 4 then
      if |f.bytes| < at.byte + 1 then Failed
      else if code == 4 && |f.words| < at.word + 2 then Failed
      else
        var moved := src + f.mv[f.bytes[at.byte]];
        if !InPicture(f, moved, w, h) then Failed
        else if code == 0 then Parsed(Leaf(Copy(moved, 0)), at.(byte := at.byte + 1))
        else Parsed(Leaf(Copy(moved, Le16(f.words, at.word))), at.(byte := at.byte + 1, word := at.word + 2))
    else if code == 5 then
      if |f.words| < at.word + 2 then Failed
      else Parsed(Leaf(Solid(Le16(f.words, at.word))), at.(word := at.word + 2))
    else if f.version >= 2 then Parsed(Leaf(Keep), at)
    else if !InPicture(f, src, w, h) then Failed
    else Parsed(Leaf(Copy(src, 0)), at)
  }

  // The block coded at a cursor, for the rectangle of 2^log2w x 2^log2h pixels at (x, y).
  // Being defined for every bitstream, it shows that no run of codes leads to a 1x1 block or
  // a negative size.
  function ParseBlock(f: Input, at: Cursor, x: nat, y: nat, log2w: nat, log2h: nat): (p: Parse)
    requires ValidInput(f) && log2w < 4 && log2h < 4 && log2w + log2h > 0
    decreases log2w + log2h, 1, at
  {
    var v := Peek5(f.bits, at.bit);
    SplitsLeaveTwoPixels(f.version < 2, log2w, log2h, v);
    var code := CodeAt(f.version < 2, SizeIndex(log2h, log2w), v);
    var after := at.(bit := at.bit + code.length);
    if code.blockType == 1 then ParseRows(f, after, x, y, log2w, log2h)
    else if code.blockType == 2 then ParseColumns(f, after, x, y, log2w, log2h)
    else ParseLeaf(f, code.blockType, after, Idx(f.width, x, y), Pow2(log2w), Pow2(log2h))
  }

  function ParseRows(f: Input, at: Cursor, x: nat, y: nat, log2w: nat, log2h: nat): (p: Parse)
    requires ValidInput(f) && log2w < 4 && 0 < log2h < 4 && log2w + log2h > 1
    decreases log2w + log2h, 0, at
  {
    match ParseBlock(f, at, x, y, log2w, log2h - 1)
    case Failed => Failed
    case Parsed(top, mid) => Below(top, ParseBlock(f, mid, x, y + Pow2(log2h - 1), log2w, log2h - 1))
  }

  function ParseColumns(f: Input, at: Cursor, x: nat, y: nat, log2w: nat, log2h: nat): (p: Parse)
    requires ValidInput(f) && 0 < log2w < 4 && log2h < 4 && log2w + log2h > 1
    decreases log2w + log2h, 0, at
  {
    match ParseBlock(f, at, x, y, log2w - 1, log2h)
    case Failed => Failed
    case Parsed(left, mid) => Beside(left, ParseBlock(f, mid, x + Pow2(log2w - 1), y, log2w - 1, log2h))
  }

  function Below(top: Block, rest: Parse): Parse {
    match rest
    case Failed => Failed
    case Parsed(bottom, end) => Parsed(Rows(top, bottom), end)
  }

  function Beside(left: Block, rest: Parse): Parse {
    match rest
    case Failed => Failed
    case Parsed(right, end) => Parsed(Columns(left, right), end)
  }

  ghost function AfterCode(f: Input, at: Cursor, log2w: nat, log2h: nat): Cursor
    requires log2w < 4 && log2h < 4 && log2w + log2h > 0
  {
    at.(bit := at.bit + CodeAt(f.version < 2, SizeIndex(log2h, log2w), Peek5(f.bits, at.bit)).length)
  }

  lemma BlockBranch(f: Input, at: Cursor, x: nat, y: nat, log2w: nat, log2h: nat)
    requires ValidInput(f) && log2w < 4 && log2h < 4 && log2w + log2h > 0
    ensures SizeIndex(log2h, log2w) < 4
    ensures var code := CodeAt(f.version < 2, SizeIndex(log2h, log2w), Peek5(f.bits, at.bit)).blockType;
      var after := AfterCode(f, at, log2w, log2h);
      if code == 1 then log2h > 0 && log2w + log2h > 1
        && ParseBlock(f, at, x, y, log2w, log2h) == ParseRows(f, after, x, y, log2w, log2h)
      else if code == 2 then log2w > 0 && log2w + log2h > 1
        && ParseBlock(f, at, x, y, log2w, log2h) == ParseColumns(f, after, x, y, log2w, log2h)
      else
        && (code == 6 ==> log2w + log2h == 1)
        && ParseBlock(f, at, x, y, log2w, log2h)
           == ParseLeaf(f, code, after, Idx(f.width, x, y), Pow2(log2w), Pow2(log2h))
  {
    SplitsLeaveTwoPixels(f.version < 2, log2w, log2h, Peek5(f.bits, at.bit));
  }

  // Every parsed block is a tiling, and only version 2 and later can leave pixels alone.
  lemma {:induction false} ParsedTiles(f: Input, at: Cursor, x: nat, y: nat, log2w: nat, log2h: nat)
    requires ValidInput(f) && log2w < 4 && log2h < 4 && log2w + log2h > 0
    requires ParseBlock(f, at, x, y, log2w, log2h).Parsed?
    ensures Tiles(ParseBlock(f, at, x, y, log2w, log2h).block, log2w, log2h, f.version >= 2)
    decreases log2w + log2h, 1, at
  {
    BlockBranch(f, at, x, y, log2w, log2h);
    var code := CodeAt(f.version < 2, SizeIndex(log2h, log2w), Peek5(f.bits, at.bit)).blockType;
    if code == 1 {
      ParsedRowsTile(f, AfterCode(f, at, log2w, log2h), x, y, log2w, log2h);
    } else if code == 2 {
      ParsedColumnsTile(f, AfterCode(f, at, log2w, log2h), x, y, log2w, log2h);
    }
  }

  lemma {:induction false} ParsedRowsTile(f: Input, at: Cursor, x: nat, y: nat, log2w: nat, log2h: nat)
    requires ValidInput(f) && log2w < 4 && 0 < log2h < 4 && log2w + log2h > 1
    requires ParseRows(f, at, x, y, log2w, log2h).Parsed?
    ensures Tiles(ParseRows(f, at, x, y, log2w, log2h).block, log2w, log2h, f.version >= 2)
    decreases log2w + log2h, 0, at
  {
    var top := ParseBlock(f, at, x, y, log2w, log2h - 1);
    ParsedTiles(f, at, x, y, log2w, log2h - 1);
    ParsedTiles(f, top.at, x, y + Pow2(log2h - 1), log2w, log2h - 1);
  }

  lemma {:induction false} ParsedColumnsTile(f: Input, at: Cursor, x: nat, y: nat, log2w: nat, log2h: nat)
    requires ValidInput(f) && 0 < log2w < 4 && log2h < 4 && log2w + log2h > 1
    requires ParseColumns(f, at, x, y, log2w, log2h).Parsed?
    ensures Tiles(ParseColumns(f, at, x, y, log2w, log2h).block, log2w, log2h, f.version >= 2)
    decreases log2w + log2h, 0, at
  {
    var left := ParseBlock(f, at, x, y, log2w - 1, log2h);
    ParsedTiles(f, at, x, y, log2w - 1, log2h);
    ParsedTiles(f, left.at, x + Pow2(log2w - 1), y, log2w - 1, log2h);
  }

  // ---------- The picture a block describes ----------

  // A pixel of the picture with the number of times it was stored.
  datatype Cell = Cell(value: nat, stores: nat)

  function Pixel(last: seq<nat>, i: int): nat {
    if 0 <= i < |last| then last[i] else 0
  }

  // Two neighbouring 16-bit pixels are added to dc as one little-endian 32-bit word, so the
  // first of a pair may carry into the second; one-pixel columns are added alone.
  function Shifted(last: seq<nat>, i: int, dc: nat, carries: bool): nat {
    (Pixel(last, i) + dc + (if carries then (Pixel(last, i - 1) + dc) / 0x1_0000 else 0)) % 0x1_0000
  }

  function RenderLeaf(op: Op, last: seq<nat>, width: nat, log2w: nat, c: nat, r: nat, was: Cell): Cell {
    match op
    case Copy(src, dc) =>
      Cell(Shifted(last, src + Idx(width, c, r), dc, log2w > 0 && c % 2 == 1), was.stores + 1)
    case Solid(dc) => Cell(dc, was.stores + 1)
    case Keep => was
    case Literal(first, second) => Cell(if c == 0 && r == 0 then first else second, was.stores + 1)
  }

  // The pixel at column c and row r of a block: exactly one leaf answers for it.
  function Render(b: Block, last: seq<nat>, width: nat, log2w: nat, log2h: nat, c: nat, r: nat, was: Cell): Cell
    requires log2w < 4 && log2h < 4
  {
    match b
    case Leaf(op) => RenderLeaf(op, last, width, log2w, c, r, was)
    case Rows(top, bottom) =>
      if log2h == 0 then was
      else if r < Pow2(log2h - 1) then Render(top, last, width, log2w, log2h - 1, c, r, was)
      else Render(bottom, last, width, log2w, log2h - 1, c, r - Pow2(log2h - 1), was)
    case Columns(left, right) =>
      if log2w == 0 then was
      else if c < Pow2(log2w - 1) then Render(left, last, width, log2w - 1, log2h, c, r, was)
      else Render(right, last, width, log2w - 1, log2h, c - Pow2(log2w - 1), r, was)
  }

  // ---------- Pictures as rows of cells ----------

  type Picture = seq<seq<Cell>>

  predicate InRect(px: nat, py: nat, x: nat, y: nat, w: nat, h: nat) {
    x <= px < x + w && y <= py < y + h
  }

  ghost predicate PictureSized(p: Picture, width: nat, height: nat) {
    |p| == height && forall py :: 0 <= py < height ==> |p[py]| == width
  }

  // p1 differs from p0 only inside the rectangle.
  ghost predicate OnlyInside(p0: Picture, p1: Picture, width: nat, height: nat, x: nat, y: nat, w: nat, h: nat)
    requires PictureSized(p0, width, height) && PictureSized(p1, width, height)
  {
    forall px: nat, py: nat :: px < width && py < height && !InRect(px, py, x, y, w, h)
      ==> p1[py][px] == p0[py][px]
  }

  // Inside the rectangle of b, p1 is the picture b describes over p0.
  ghost predicate Drawn(b: Block, last: seq<nat>, p0: Picture, p1: Picture, width: nat, height: nat,
                        x: nat, y: nat, log2w: nat, log2h: nat)
    requires PictureSized(p0, width, height) && PictureSized(p1, width, height) && log2w < 4 && log2h < 4
  {
    forall px: nat, py: nat :: px < width && py < height && InRect(px, py, x, y, Pow2(log2w), Pow2(log2h))
      ==> p1[py][px] == Render(b, last, width, log2w, log2h, px - x, py - y, p0[py][px])
  }

  ghost predicate DrawnOnly(b: Block, last: seq<nat>, p0: Picture, p1: Picture, width: nat, height: nat,
                            x: nat, y: nat, log2w: nat, log2h: nat)
    requires log2w < 4 && log2h < 4
  {
    && PictureSized(p0, width, height) && PictureSized(p1, width, height)
    && OnlyInside(p0, p1, width, height, x, y, Pow2(log2w), Pow2(log2h))
    && Drawn(b, last, p0, p1, width, height, x, y, log2w, log2h)
  }

  lemma DrawRows(top: Block, bottom: Block, last: seq<nat>, p0: Picture, p1: Picture, p2: Picture,
                 width: nat, height: nat, x: nat, y: nat, log2w: nat, log2h: nat)
    requires log2w < 4 && 0 < log2h < 4
    requires DrawnOnly(top, last, p0, p1, width, height, x, y, log2w, log2h - 1)
    requires DrawnOnly(bottom, last, p1, p2, width, height, x, y + Pow2(log2h - 1), log2w, log2h - 1)
    ensures DrawnOnly(Rows(top, bottom), last, p0, p2, width, height, x, y, log2w, log2h)
  {
    assert Pow2(log2h) == 2 * Pow2(log2h - 1);
  }

  lemma DrawColumns(left: Block, right: Block, last: seq<nat>, p0: Picture, p1: Picture, p2: Picture,
                    width: nat, height: nat, x: nat, y: nat, log2w: nat, log2h: nat)
    requires 0 < log2w < 4 && log2h < 4
    requires DrawnOnly(left, last, p0, p1, width, height, x, y, log2w - 1, log2h)
    requires DrawnOnly(right, last, p1, p2, width, height, x + Pow2(log2w - 1), y, log2w - 1, log2h)
    ensures DrawnOnly(Columns(left, right), last, p0, p2, width, height, x, y, log2w, log2h)
  {
    assert Pow2(log2w) == 2 * Pow2(log2w - 1);
  }

  // Inside its rectangle a tiling stores every pixel exactly once, or leaves it alone where
  // a leaf says so.
  lemma {:induction false} StoredOnceOrKept(b: Block, log2w: nat, log2h: nat, keeps: bool,
                                            last: seq<nat>, width: nat, c: nat, r: nat, was: Cell)
    requires log2w < 4 && log2h < 4 && Tiles(b, log2w, log2h, keeps)
    ensures var now := Render(b, last, width, log2w, log2h, c, r, was);
      now.stores == was.stores + 1 || (keeps && now == was)
  {
    match b
    case Leaf(op) =>
    case Rows(top, bottom) =>
      var half := Pow2(log2h - 1);
      if r < half {
        StoredOnceOrKept(top, log2w, log2h - 1, keeps, last, width, c, r, was);
      } else {
        StoredOnceOrKept(bottom, log2w, log2h - 1, keeps, last, width, c, r - half, was);
      }
    case Columns(left, right) =>
      var half := Pow2(log2w - 1);
      if c < half {
        StoredOnceOrKept(left, log2w - 1, log2h, keeps, last, width, c, r, was);
      } else {
        StoredOnceOrKept(right, log2w - 1, log2h, keeps, last, width, c - half, r, was);
      }
  }

  // ---------- Whole frames ----------

  // The blocks of (part of) one strip of 8 rows, and of the strips of a frame, in the order
  // they are coded.
  datatype Strip = StripFailed | Strip(blocks: seq<Block>, at: Cursor)
  datatype Grid = GridFailed | Grid(strips: seq<seq<Block>>, at: Cursor)

  function ParseStrip(f: Input, at: Cursor, y: nat, n: nat): (s: Strip)
    requires ValidInput(f)
    ensures s.Strip? ==> |s.blocks| == n
  {
    if n == 0 then Strip([], at) else
      match ParseStrip(f, at, y, n - 1)
      case StripFailed => StripFailed
      case Strip(blocks, mid) =>
        match ParseBlock(f, mid, 8 * (n - 1), y, 3, 3)
        case Failed => StripFailed
        case Parsed(b, end) => Strip(blocks + [b], end)
  }

  function ParseGrid(f: Input, at: Cursor, m: nat): (g: Grid)
    requires ValidInput(f)
    ensures g.Grid? ==> |g.strips| == m
  {
    if m == 0 then Grid([], at) else
      match ParseGrid(f, at, m - 1)
      case GridFailed => GridFailed
      case Grid(strips, mid) =>
        match ParseStrip(f, mid, 8 * (m - 1), f.width / 8)
        case StripFailed => GridFailed
        case Strip(blocks, end) => Grid(strips + [blocks], end)
  }

  lemma {:induction false} StripStaysFailed(f: Input, at: Cursor, y: nat, n: nat, k: nat)
    requires ValidInput(f) && n <= k && ParseStrip(f, at, y, n).StripFailed?
    ensures ParseStrip(f, at, y, k).StripFailed?
  {
    if n < k { StripStaysFailed(f, at, y, n, k - 1); }
  }

  lemma {:induction false} GridStaysFailed(f: Input, at: Cursor, n: nat, k: nat)
    requires ValidInput(f) && n <= k && ParseGrid(f, at, n).GridFailed?
    ensures ParseGrid(f, at, k).GridFailed?
  {
    if n < k { GridStaysFailed(f, at, n, k - 1); }
  }

  // The pixel at (px, py) when the strips above row y and, in the strip at y, the blocks left
  // of column x are drawn and everything else is as before.
  function Expected(strips: seq<seq<Block>>, blocks: seq<Block>, last: seq<nat>, width: nat, x: nat, y: nat,
                    px: nat, py: nat, was: Cell): Cell
  {
    if py < y then
      if py / 8 < |strips| && px / 8 < |strips[py / 8]|
      then Render(strips[py / 8][px / 8], last, width, 3, 3, px % 8, py % 8, was) else was
    else if py < y + 8 && px < x then
      if px / 8 < |blocks| then Render(blocks[px / 8], last, width, 3, 3, px % 8, py - y, was) else was
    else was
  }

  ghost predicate DrawnUpTo(strips: seq<seq<Block>>, blocks: seq<Block>, last: seq<nat>, p0: Picture, p1: Picture,
                            width: nat, height: nat, x: nat, y: nat)
  {
    && PictureSized(p0, width, height) && PictureSized(p1, width, height)
    && 8 * |strips| == y && 8 * |blocks| == x
    && forall px: nat, py: nat :: px < width && py < height ==>
         AsExpected(strips, blocks, last, p0, p1, width, x, y, px, py)
  }

  ghost predicate AsExpected(strips: seq<seq<Block>>, blocks: seq<Block>, last: seq<nat>, p0: Picture, p1: Picture,
                             width: nat, x: nat, y: nat, px: nat, py: nat)
    requires 8 * |strips| == y && 8 * |blocks| == x
    requires py < |p0| && py < |p1| && px < |p0[py]| && px < |p1[py]|
  {
    p1[py][px] == Expected(strips, blocks, last, width, x, y, px, py, p0[py][px])
  }

  lemma DrawNextBlock(strips: seq<seq<Block>>, blocks: seq<Block>, b: Block, last: seq<nat>, p0: Picture, p1: Picture,
                      p2: Picture, width: nat, height: nat, x: nat, y: nat)
    requires DrawnUpTo(strips, blocks, last, p0, p1, width, height, x, y) && x + 8 <= width && y + 8 <= height
    requires DrawnOnly(b, last, p1, p2, width, height, x, y, 3, 3)
    ensures DrawnUpTo(strips, blocks + [b], last, p0, p2, width, height, x + 8, y)
  {
    assert Pow2(1) == 2 && Pow2(2) == 4 && Pow2(3) == 8;
    var more, end := blocks + [b], x + 8;
    forall px: nat, py: nat | px < width && py < height
      ensures AsExpected(strips, more, last, p0, p2, width, end, y, px, py)
    {
      assert AsExpected(strips, blocks, last, p0, p1, width, x, y, px, py);
      if InRect(px, py, x, y, 8, 8) {
        assert px / 8 == x / 8 && px % 8 == px - x;
        assert more[x / 8] == b;
      } else {
        assert p2[py][px] == p1[py][px];
        if px < x { assert px / 8 < x / 8 && more[px / 8] == blocks[px / 8]; }
      }
    }
  }

  lemma DrawNextStrip(strips: seq<seq<Block>>, blocks: seq<Block>, last: seq<nat>, p0: Picture, p1: Picture,
                      width: nat, height: nat, y: nat)
    requires DrawnUpTo(strips, blocks, last, p0, p1, width, height, width, y)
    ensures DrawnUpTo(strips + [blocks], [], last, p0, p1, width, height, 0, y + 8)
  {
    var more, end := strips + [blocks], y + 8;
    forall px: nat, py: nat | px < width && py < height
      ensures AsExpected(more, [], last, p0, p1, width, 0, end, px, py)
    {
      assert AsExpected(strips, blocks, last, p0, p1, width, width, y, px, py);
      if py < y {
        assert py / 8 < y / 8 && more[py / 8] == strips[py / 8];
      } else if py < y + 8 {
        assert py / 8 == y / 8 && py % 8 == py - y && more[y / 8] == blocks;
        assert px / 8 < width / 8;
      }
    }
  }

  lemma NextBlockDrawn(f: Input, start: Cursor, k: nat, strips: seq<seq<Block>>, s0: Strip, b: Parse, last: seq<nat>,
                       p0: Picture, p1: Picture, p2: Picture, y: nat) returns (s: Strip)
    requires ValidInput(f) && s0 == ParseStrip(f, start, y, k) && s0.Strip? && 8 * k + 8 <= f.width && y + 8 <= f.height
    requires b == ParseBlock(f, s0.at, 8 * k, y, 3, 3) && b.Parsed?
    requires DrawnUpTo(strips, s0.blocks, last, p0, p1, f.width, f.height, 8 * k, y)
    requires DrawnOnly(b.block, last, p1, p2, f.width, f.height, 8 * k, y, 3, 3)
    ensures s == ParseStrip(f, start, y, k + 1) && s.Strip? && s.at == b.at
    ensures DrawnUpTo(strips, s.blocks, last, p0, p2, f.width, f.height, 8 * (k + 1), y)
  {
    DrawNextBlock(strips, s0.blocks, b.block, last, p0, p1, p2, f.width, f.height, 8 * k, y);
    s := Strip(s0.blocks + [b.block], b.at);
  }

  lemma NextBlockFailed(f: Input, start: Cursor, y: nat, k: nat, columns: nat)
    requires ValidInput(f) && ParseStrip(f, start, y, k).Strip? && k < columns
    requires ParseBlock(f, ParseStrip(f, start, y, k).at, 8 * k, y, 3, 3) == Failed
    ensures ParseStrip(f, start, y, columns) == StripFailed
  {
    StripStaysFailed(f, start, y, k + 1, columns);
  }

  lemma NextStripDrawn(f: Input, start: Cursor, m: nat, g0: Grid, s: Strip, last: seq<nat>, p0: Picture, p1: Picture)
      returns (g: Grid)
    requires ValidInput(f) && g0 == ParseGrid(f, start, m) && g0.Grid?
    requires s == ParseStrip(f, g0.at, 8 * m, f.width / 8) && s.Strip?
    requires DrawnUpTo(g0.strips, s.blocks, last, p0, p1, f.width, f.height, f.width, 8 * m)
    ensures g == ParseGrid(f, start, m + 1) && g.Grid? && g.at == s.at
    ensures DrawnUpTo(g.strips, [], last, p0, p1, f.width, f.height, 0, 8 * (m + 1))
  {
    DrawNextStrip(g0.strips, s.blocks, last, p0, p1, f.width, f.height, 8 * m);
    g := Grid(g0.strips + [s.blocks], s.at);
  }

  lemma NextStripFailed(f: Input, start: Cursor, m: nat, rows: nat)
    requires ValidInput(f) && ParseGrid(f, start, m).Grid? && m < rows
    requires ParseStrip(f, ParseGrid(f, start, m).at, 8 * m, f.width / 8) == StripFailed
    ensures ParseGrid(f, start, rows) == GridFailed
  {
    GridStaysFailed(f, start, m + 1, rows);
  }
}
