// How blocks are written: for each block a code in the bitstream, then what the code announces in
// the byte and word streams, halves in order. Reading is the inverse of this.
module BlockWriter {
  import opened Sums
  import opened BlockCodes
  import opened BlockPlans

  // ---------- What is written ----------

  // A coded block: the choices of an encoder. `b` is an index into the table of displacements.
  datatype Plan =
    | Move(b: nat)
    | Shift(b: nat, dc: nat)
    | Stay
    | Fill(dc: nat)
    | TwoPixels(first: nat, second: nat)
    | Over(top: Plan, bottom: Plan)
    | NextTo(left: Plan, right: Plan)

  function TypeOf(p: Plan): (k: nat)
    ensures k < 7
  {
    match p
    case Move(_) => 0
    case Over(_, _) => 1
    case NextTo(_, _) => 2
    case Stay => 3
    case Shift(_, _) => 4
    case Fill(_) => 5
    case TwoPixels(_, _) => 6
  }

  predicate Sized(log2w: nat, log2h: nat) {
    log2w < 4 && log2h < 4 && log2w + log2h > 0
  }

  // There is a code for a block of this type and size.
  predicate HasCode(old2: bool, k: nat, log2w: nat, log2h: nat)
    requires k < 7
  {
    Sized(log2w, log2h) && Entry(old2, SizeIndex(log2h, log2w), k).1 > 0
  }

  predicate Writable(old2: bool, p: Plan, log2w: nat, log2h: nat) {
    && HasCode(old2, TypeOf(p), log2w, log2h)
    && match p
       case Move(b) => b < 256
       case Shift(b, dc) => b < 256 && dc < 0x1_0000
       case Stay => true
       case Fill(dc) => dc < 0x1_0000
       case TwoPixels(first, second) => first < 0x1_0000 && second < 0x1_0000
       case Over(top, bottom) =>
         log2h > 0 && Writable(old2, top, log2w, log2h - 1) && Writable(old2, bottom, log2w, log2h - 1)
       case NextTo(left, right) =>
         log2w > 0 && Writable(old2, left, log2w - 1, log2h) && Writable(old2, right, log2w - 1, log2h)
  }

  datatype Streams = Streams(bits: seq<bool>, bytes: seq<nat>, words: seq<nat>) {
    function Then(s: Streams): Streams {
      Streams(bits + s.bits, bytes + s.bytes, words + s.words)
    }

    // The cursor behind what was read from `at` on.
    function After(at: Cursor): Cursor {
      Cursor(at.bit + |bits|, at.byte + |bytes|, at.word + |words|)
    }
  }

  const NOTHING: Streams := Streams([], [], [])

  // The n bits of a number, the most significant first.
  function BitsOf(v: nat, n: nat): (r: seq<bool>)
    ensures |r| == n
  {
    if n == 0 then [] else BitsOf(v / 2, n - 1) + [v % 2 == 1]
  }

  // A word, its low byte first.
  function WordOf(v: nat): seq<nat> {
    [v % 256, v / 256]
  }

  function CodeOf(old2: bool, k: nat, log2w: nat, log2h: nat): (s: Streams)
    requires k < 7 && HasCode(old2, k, log2w, log2h)
  {
    var e := Entry(old2, SizeIndex(log2h, log2w), k);
    Streams(BitsOf(e.0, e.1), [], [])
  }

  // What follows the code of a block that is not split.
  function Operands(p: Plan): Streams {
    match p
    case Move(b) => Streams([], [b], [])
    case Shift(b, dc) => Streams([], [b], WordOf(dc))
    case Fill(dc) => Streams([], [], WordOf(dc))
    case TwoPixels(first, second) => Streams([], [], WordOf(first) + WordOf(second))
    case _ => NOTHING
  }

  function Write(old2: bool, p: Plan, log2w: nat, log2h: nat): Streams
    requires Writable(old2, p, log2w, log2h)
  {
    var code := CodeOf(old2, TypeOf(p), log2w, log2h);
    match p
    case Over(top, bottom) =>
      code.Then(Write(old2, top, log2w, log2h - 1).Then(Write(old2, bottom, log2w, log2h - 1)))
    case NextTo(left, right) =>
      code.Then(Write(old2, left, log2w - 1, log2h).Then(Write(old2, right, log2w - 1, log2h)))
    case _ => code.Then(Operands(p))
  }

  // A plan that does not split stands for this block, where `here` is the position of its first
  // pixel: a displacement leads from there to the source in the last frame, which lies inside.
  predicate LeafStandsFor(f: Input, p: Plan, b: Block, here: nat, w: nat, h: nat)
    requires |f.mv| == 256 && ((p.Move? || p.Shift?) ==> p.b < 256)
  {
    match p
    case Move(d) => b.Leaf? && b.op.Copy? && b.op.dc == 0 && f.mv[d] == b.op.src - here && InPicture(f, b.op.src, w, h)
    case Shift(d, dc) =>
      b.Leaf? && b.op.Copy? && b.op.dc == dc && f.mv[d] == b.op.src - here && InPicture(f, b.op.src, w, h)
    case Stay => if f.version >= 2 then b == Leaf(Keep) else b == Leaf(Copy(here, 0)) && InPicture(f, here, w, h)
    case Fill(dc) => b == Leaf(Solid(dc))
    case TwoPixels(first, second) => b == Leaf(Literal(first, second))
    case _ => false
  }

  // The plan stands for this block at (x, y).
  predicate StandsFor(f: Input, p: Plan, b: Block, x: nat, y: nat, log2w: nat, log2h: nat)
    requires |f.mv| == 256 && Writable(f.version < 2, p, log2w, log2h)
  {
    match p
    case Over(top, bottom) =>
      && b.Rows? && StandsFor(f, top, b.top, x, y, log2w, log2h - 1)
      && StandsFor(f, bottom, b.bottom, x, y + Pow2(log2h - 1), log2w, log2h - 1)
    case NextTo(left, right) =>
      && b.Columns? && StandsFor(f, left, b.left, x, y, log2w - 1, log2h)
      && StandsFor(f, right, b.right, x + Pow2(log2w - 1), y, log2w - 1, log2h)
    case _ => LeafStandsFor(f, p, b, Idx(f.width, x, y), Pow2(log2w), Pow2(log2h))
  }

  // A source lies inside exactly if its first and its last pixel are pixels of the last frame.
  lemma InPictureIff(f: Input, src: int, w: nat, h: nat)
    requires w > 0 && h > 0
    ensures InPicture(f, src, w, h) <==>
      0 <= src && src + Idx(f.width, w - 1, h - 1) < f.width * f.height
  {
    assert f.width * (f.height - h + 1) == f.width * f.height - (h - 1) * f.width;
  }

  // ---------- What the input holds ----------

  predicate HoldsBits(f: Input, bit: nat, bits: seq<bool>) {
    forall k :: 0 <= k < |bits| ==> f.bits(bit + k) == bits[k]
  }

  predicate HoldsAt(data: seq<nat>, at: nat, s: seq<nat>) {
    at + |s| <= |data| && forall k :: 0 <= k < |s| ==> data[at + k] == s[k]
  }

  // The input goes on with these streams.
  predicate Holds(f: Input, at: Cursor, s: Streams) {
    HoldsBits(f, at.bit, s.bits) && HoldsAt(f.bytes, at.byte, s.bytes) && HoldsAt(f.words, at.word, s.words)
  }

  lemma BitsThen(f: Input, bit: nat, s: seq<bool>, t: seq<bool>)
    ensures HoldsBits(f, bit, s + t) <==> HoldsBits(f, bit, s) && HoldsBits(f, bit + |s|, t)
  {
    if HoldsBits(f, bit, s + t) {
      forall k | 0 <= k < |t| ensures f.bits(bit + |s| + k) == t[k] {
        assert f.bits(bit + (|s| + k)) == (s + t)[|s| + k];
      }
      forall k | 0 <= k < |s| ensures f.bits(bit + k) == s[k] {
        assert f.bits(bit + k) == (s + t)[k];
      }
    }
    if HoldsBits(f, bit, s) && HoldsBits(f, bit + |s|, t) {
      forall k | 0 <= k < |s + t| ensures f.bits(bit + k) == (s + t)[k] {
        if k >= |s| { assert f.bits(bit + |s| + (k - |s|)) == t[k - |s|]; }
      }
    }
  }

  lemma AtThen(data: seq<nat>, at: nat, s: seq<nat>, t: seq<nat>)
    ensures HoldsAt(data, at, s + t) <==> HoldsAt(data, at, s) && HoldsAt(data, at + |s|, t)
  {
    if HoldsAt(data, at, s + t) {
      forall k | 0 <= k < |t| ensures data[at + |s| + k] == t[k] {
        assert data[at + (|s| + k)] == (s + t)[|s| + k];
      }
      forall k | 0 <= k < |s| ensures data[at + k] == s[k] {
        assert data[at + k] == (s + t)[k];
      }
    }
    if HoldsAt(data, at, s) && HoldsAt(data, at + |s|, t) {
      forall k | 0 <= k < |s + t| ensures data[at + k] == (s + t)[k] {
        if k >= |s| { assert data[at + |s| + (k - |s|)] == t[k - |s|]; }
      }
    }
  }

  lemma HoldsThen(f: Input, at: Cursor, s: Streams, t: Streams)
    ensures Holds(f, at, s.Then(t)) <==> Holds(f, at, s) && Holds(f, s.After(at), t)
    ensures s.Then(t).After(at) == t.After(s.After(at))
  {
    BitsThen(f, at.bit, s.bits, t.bits);
    AtThen(f.bytes, at.byte, s.bytes, t.bytes);
    AtThen(f.words, at.word, s.words, t.words);
  }

  // ---------- Codes ----------

  // The bits ahead are those of a code exactly if the number they start with is the code.
  lemma CodeAhead(f: Input, bit: nat, v: nat, n: nat)
    requires 1 <= n <= 5 && v < Pow2(n)
    ensures HoldsBits(f, bit, BitsOf(v, n)) <==> Matches((v, n), Peek5(f.bits, bit))
  {
    BitsAhead(f, bit, v, n);
    PeekedAhead(f.bits, bit);
  }

  lemma PeekedAhead(bits: nat -> bool, bit: nat)
    ensures var v := Peek5(bits, bit);
      && Ahead(bits, bit, 1) == v / 16 && Ahead(bits, bit, 2) == v / 8 && Ahead(bits, bit, 3) == v / 4
      && Ahead(bits, bit, 4) == v / 2 && Ahead(bits, bit, 5) == v
  {
    var a, b, c := BitAt(bits, bit), BitAt(bits, bit + 1), BitAt(bits, bit + 2);
    var d, e := BitAt(bits, bit + 3), BitAt(bits, bit + 4);
    assert Ahead(bits, bit, 0) == 0;
    assert Ahead(bits, bit, 1) == a;
    assert Ahead(bits, bit, 2) == 2 * a + b;
    assert Ahead(bits, bit, 3) == 4 * a + 2 * b + c;
    assert Ahead(bits, bit, 4) == 8 * a + 4 * b + 2 * c + d;
    assert Ahead(bits, bit, 5) == 16 * a + 8 * b + 4 * c + 2 * d + e;
  }

  // The number the next n bits make.
  function Ahead(bits: nat -> bool, bit: nat, n: nat): nat {
    if n == 0 then 0 else 2 * Ahead(bits, bit, n - 1) + BitAt(bits, bit + n - 1)
  }

  lemma {:induction false} BitsAhead(f: Input, bit: nat, v: nat, n: nat)
    requires v < Pow2(n)
    ensures HoldsBits(f, bit, BitsOf(v, n)) <==> Ahead(f.bits, bit, n) == v
  {
    if n > 0 {
      BitsAhead(f, bit, v / 2, n - 1);
      BitsThen(f, bit, BitsOf(v / 2, n - 1), [v % 2 == 1]);
      assert HoldsBits(f, bit + (n - 1), [v % 2 == 1]) <==> f.bits(bit + (n - 1)) == (v % 2 == 1) by {
        assert [v % 2 == 1][0] == (v % 2 == 1);
      }
    }
  }

  lemma EntryFits(old2: bool, index: nat, k: nat)
    requires index < 4 && k < 7
    ensures var e := Entry(old2, index, k); e.1 <= 5 && (e.1 > 0 ==> e.0 < Pow2(e.1))
  {
    assert Pow2(1) == 2 && Pow2(2) == 4 && Pow2(3) == 8 && Pow2(4) == 16 && Pow2(5) == 32;
  }

  // The bits ahead hold the code of a type exactly if that type is read.
  lemma CodeReadIff(f: Input, at: Cursor, k: nat, log2w: nat, log2h: nat)
    requires k < 7 && HasCode(f.version < 2, k, log2w, log2h)
    ensures var c := CodeAt(f.version < 2, SizeIndex(log2h, log2w), Peek5(f.bits, at.bit));
      var code := CodeOf(f.version < 2, k, log2w, log2h);
      Holds(f, at, code) <==> c.blockType == k && at.byte <= |f.bytes| && at.word <= |f.words|
    ensures var c := CodeAt(f.version < 2, SizeIndex(log2h, log2w), Peek5(f.bits, at.bit));
      c.blockType == k ==> CodeOf(f.version < 2, k, log2w, log2h).After(at) == at.(bit := at.bit + c.length)
  {
    var index := SizeIndex(log2h, log2w);
    var e := Entry(f.version < 2, index, k);
    EntryFits(f.version < 2, index, k);
    CodeAhead(f, at.bit, e.0, e.1);
    TablesComplete(f.version < 2, index, Peek5(f.bits, at.bit));
  }

  // ---------- Blocks ----------

  predicate InRange(f: Input, at: Cursor) {
    at.byte <= |f.bytes| && at.word <= |f.words|
  }

  lemma WordRead(f: Input, at: nat, v: nat)
    requires v < 0x1_0000 && HoldsAt(f.words, at, WordOf(v))
    ensures at + 2 <= |f.words| && Le16(f.words, at) == v
  {
    assert WordOf(v)[0] == f.words[at] && WordOf(v)[1] == f.words[at + 1];
  }

  lemma WordWritten(f: Input, at: nat)
    requires ValidInput(f) && at + 2 <= |f.words|
    ensures HoldsAt(f.words, at, WordOf(Le16(f.words, at))) && Le16(f.words, at) < 0x1_0000
  {
  }

  // A displacement is read as it was written.
  lemma MoveRead(f: Input, p: Plan, b: Block, at: Cursor, here: nat, w: nat, h: nat)
    requires ValidInput(f) && (p.Move? || p.Shift?) && p.b < 256 && Holds(f, at, Operands(p))
    requires b.Leaf? && b.op.Copy? && f.mv[p.b] == b.op.src - here && InPicture(f, b.op.src, w, h)
    ensures at.byte + 1 <= |f.bytes|
    ensures var moved := here + f.mv[f.bytes[at.byte]]; moved == b.op.src && InPicture(f, moved, w, h)
  {
    assert Operands(p).bytes[0] == f.bytes[at.byte];
  }

  lemma PairRead(f: Input, at: nat, first: nat, second: nat)
    requires first < 0x1_0000 && second < 0x1_0000 && HoldsAt(f.words, at, WordOf(first) + WordOf(second))
    ensures at + 4 <= |f.words| && Le16(f.words, at) == first && Le16(f.words, at + 2) == second
  {
    AtThen(f.words, at, WordOf(first), WordOf(second));
    WordRead(f, at, first);
    WordRead(f, at + 2, second);
  }

  // The operands of a leaf are read as they were written.
  lemma LeafReadBack(f: Input, p: Plan, b: Block, at: Cursor, here: nat, w: nat, h: nat)
    requires ValidInput(f) && ((p.Move? || p.Shift?) ==> p.b < 256)
    requires (p.Shift? || p.Fill? ==> p.dc < 0x1_0000)
    requires p.TwoPixels? ==> p.first < 0x1_0000 && p.second < 0x1_0000
    requires LeafStandsFor(f, p, b, here, w, h) && Holds(f, at, Operands(p))
    ensures ParseLeaf(f, TypeOf(p), at, here, w, h) == Parsed(b, Operands(p).After(at))
  {
    match p
    case Move(d) => MoveRead(f, p, b, at, here, w, h);
    case Shift(d, dc) =>
      MoveRead(f, p, b, at, here, w, h);
      WordRead(f, at.word, dc);
    case Fill(dc) => WordRead(f, at.word, dc);
    case TwoPixels(first, second) => PairRead(f, at.word, first, second);
    case _ =>
  }

  // A block written in three parts: its code and two halves, or its code and operands.
  lemma InParts(f: Input, at: Cursor, code: Streams, s: Streams, t: Streams)
    ensures Holds(f, at, code.Then(s.Then(t)))
      <==> Holds(f, at, code) && Holds(f, code.After(at), s) && Holds(f, s.After(code.After(at)), t)
    ensures code.Then(s.Then(t)).After(at) == t.After(s.After(code.After(at)))
  {
    HoldsThen(f, at, code, s.Then(t));
    HoldsThen(f, code.After(at), s, t);
  }

  // The bits ahead are the code of type k.
  ghost predicate Reads(f: Input, at: Cursor, k: nat, log2w: nat, log2h: nat, mid: Cursor) {
    && Sized(log2w, log2h)
    && CodeAt(f.version < 2, SizeIndex(log2h, log2w), Peek5(f.bits, at.bit)).blockType == k
    && mid == AfterCode(f, at, log2w, log2h)
  }

  lemma RowsRead(f: Input, b: Block, at: Cursor, mid: Cursor, half: Cursor, end: Cursor, x: nat, y: nat, log2w: nat,
                 log2h: nat)
    requires ValidInput(f) && Reads(f, at, 1, log2w, log2h, mid) && b.Rows? && log2h > 0 && log2w + log2h > 1
    requires ParseBlock(f, mid, x, y, log2w, log2h - 1) == Parsed(b.top, half)
    requires ParseBlock(f, half, x, y + Pow2(log2h - 1), log2w, log2h - 1) == Parsed(b.bottom, end)
    ensures ParseBlock(f, at, x, y, log2w, log2h) == Parsed(b, end)
  {
    BlockBranch(f, at, x, y, log2w, log2h);
  }

  lemma ColumnsRead(f: Input, b: Block, at: Cursor, mid: Cursor, half: Cursor, end: Cursor, x: nat, y: nat, log2w: nat,
                    log2h: nat)
    requires ValidInput(f) && Reads(f, at, 2, log2w, log2h, mid) && b.Columns? && log2w > 0 && log2w + log2h > 1
    requires ParseBlock(f, mid, x, y, log2w - 1, log2h) == Parsed(b.left, half)
    requires ParseBlock(f, half, x + Pow2(log2w - 1), y, log2w - 1, log2h) == Parsed(b.right, end)
    ensures ParseBlock(f, at, x, y, log2w, log2h) == Parsed(b, end)
  {
    BlockBranch(f, at, x, y, log2w, log2h);
  }

  lemma LeafRead(f: Input, k: nat, b: Block, at: Cursor, mid: Cursor, end: Cursor, x: nat, y: nat, log2w: nat,
                 log2h: nat)
    requires ValidInput(f) && Reads(f, at, k, log2w, log2h, mid) && k != 1 && k != 2
    requires ParseLeaf(f, k, mid, Idx(f.width, x, y), Pow2(log2w), Pow2(log2h)) == Parsed(b, end)
    ensures ParseBlock(f, at, x, y, log2w, log2h) == Parsed(b, end)
  {
    BlockBranch(f, at, x, y, log2w, log2h);
  }

  lemma CodeReadBack(f: Input, at: Cursor, k: nat, log2w: nat, log2h: nat)
    requires k < 7 && HasCode(f.version < 2, k, log2w, log2h)
    requires Holds(f, at, CodeOf(f.version < 2, k, log2w, log2h))
    ensures Reads(f, at, k, log2w, log2h, CodeOf(f.version < 2, k, log2w, log2h).After(at))
  {
    CodeReadIff(f, at, k, log2w, log2h);
  }

  // The plan was written from `at` to `end`.
  ghost predicate Written(f: Input, p: Plan, at: Cursor, end: Cursor, log2w: nat, log2h: nat) {
    && Writable(f.version < 2, p, log2w, log2h) && InRange(f, end)
    && Holds(f, at, Write(f.version < 2, p, log2w, log2h)) && end == Write(f.version < 2, p, log2w, log2h).After(at)
  }

  // What was written for a block is read as this block, to its end.
  lemma {:induction false} ReadBack(f: Input, p: Plan, b: Block, at: Cursor, end: Cursor, x: nat, y: nat, log2w: nat,
                                    log2h: nat)
    requires ValidInput(f) && Written(f, p, at, end, log2w, log2h) && StandsFor(f, p, b, x, y, log2w, log2h)
    ensures ParseBlock(f, at, x, y, log2w, log2h) == Parsed(b, end)
    decreases p, 1
  {
    match p
    case Over(_, _) => RowsBack(f, p, b, at, end, x, y, log2w, log2h);
    case NextTo(_, _) => ColumnsBack(f, p, b, at, end, x, y, log2w, log2h);
    case _ => LeafBack(f, p, b, at, end, x, y, log2w, log2h);
  }

  lemma {:induction false} RowsBack(f: Input, p: Plan, b: Block, at: Cursor, end: Cursor, x: nat, y: nat, log2w: nat,
                                    log2h: nat)
    requires ValidInput(f) && p.Over? && b.Rows? && Written(f, p, at, end, log2w, log2h)
    requires StandsFor(f, p.top, b.top, x, y, log2w, log2h - 1)
    requires StandsFor(f, p.bottom, b.bottom, x, y + Pow2(log2h - 1), log2w, log2h - 1)
    ensures ParseBlock(f, at, x, y, log2w, log2h) == Parsed(b, end)
    decreases p, 0
  {
    var mid, half := PartsOver(f, p, at, end, log2w, log2h);
    ReadBack(f, p.top, b.top, mid, half, x, y, log2w, log2h - 1);
    ReadBack(f, p.bottom, b.bottom, half, end, x, y + Pow2(log2h - 1), log2w, log2h - 1);
    RowsRead(f, b, at, mid, half, end, x, y, log2w, log2h);
  }

  lemma {:induction false} ColumnsBack(f: Input, p: Plan, b: Block, at: Cursor, end: Cursor, x: nat, y: nat, log2w: nat,
                                       log2h: nat)
    requires ValidInput(f) && p.NextTo? && b.Columns? && Written(f, p, at, end, log2w, log2h)
    requires StandsFor(f, p.left, b.left, x, y, log2w - 1, log2h)
    requires StandsFor(f, p.right, b.right, x + Pow2(log2w - 1), y, log2w - 1, log2h)
    ensures ParseBlock(f, at, x, y, log2w, log2h) == Parsed(b, end)
    decreases p, 0
  {
    var mid, half := PartsNextTo(f, p, at, end, log2w, log2h);
    ReadBack(f, p.left, b.left, mid, half, x, y, log2w - 1, log2h);
    ReadBack(f, p.right, b.right, half, end, x + Pow2(log2w - 1), y, log2w - 1, log2h);
    ColumnsRead(f, b, at, mid, half, end, x, y, log2w, log2h);
  }

  lemma LeafBack(f: Input, p: Plan, b: Block, at: Cursor, end: Cursor, x: nat, y: nat, log2w: nat, log2h: nat)
    requires ValidInput(f) && Written(f, p, at, end, log2w, log2h) && !p.Over? && !p.NextTo?
    requires LeafStandsFor(f, p, b, Idx(f.width, x, y), Pow2(log2w), Pow2(log2h))
    ensures ParseBlock(f, at, x, y, log2w, log2h) == Parsed(b, end)
  {
    var code := CodeOf(f.version < 2, TypeOf(p), log2w, log2h);
    HoldsThen(f, at, code, Operands(p));
    CodeReadBack(f, at, TypeOf(p), log2w, log2h);
    var mid := code.After(at);
    LeafReadBack(f, p, b, mid, Idx(f.width, x, y), Pow2(log2w), Pow2(log2h));
    LeafRead(f, TypeOf(p), b, at, mid, end, x, y, log2w, log2h);
  }

  lemma PartsOver(f: Input, p: Plan, at: Cursor, end: Cursor, log2w: nat, log2h: nat)
      returns (mid: Cursor, half: Cursor)
    requires p.Over? && Written(f, p, at, end, log2w, log2h)
    ensures log2h > 0 && log2w + log2h > 1 && Reads(f, at, 1, log2w, log2h, mid)
    ensures Written(f, p.top, mid, half, log2w, log2h - 1) && Written(f, p.bottom, half, end, log2w, log2h - 1)
  {
    var code := CodeOf(f.version < 2, 1, log2w, log2h);
    var s, t := Write(f.version < 2, p.top, log2w, log2h - 1), Write(f.version < 2, p.bottom, log2w, log2h - 1);
    InParts(f, at, code, s, t);
    CodeReadBack(f, at, 1, log2w, log2h);
    mid := code.After(at);
    half := s.After(mid);
  }

  lemma PartsNextTo(f: Input, p: Plan, at: Cursor, end: Cursor, log2w: nat, log2h: nat)
      returns (mid: Cursor, half: Cursor)
    requires p.NextTo? && Written(f, p, at, end, log2w, log2h)
    ensures log2w > 0 && log2w + log2h > 1 && Reads(f, at, 2, log2w, log2h, mid)
    ensures Written(f, p.left, mid, half, log2w - 1, log2h) && Written(f, p.right, half, end, log2w - 1, log2h)
  {
    var code := CodeOf(f.version < 2, 2, log2w, log2h);
    var s, t := Write(f.version < 2, p.left, log2w - 1, log2h), Write(f.version < 2, p.right, log2w - 1, log2h);
    InParts(f, at, code, s, t);
    CodeReadBack(f, at, 2, log2w, log2h);
    mid := code.After(at);
    half := s.After(mid);
  }

  // Operands that are read were written.
  lemma LeafWritten(f: Input, k: nat, at: Cursor, x: nat, y: nat, log2w: nat, log2h: nat) returns (p: Plan)
    requires ValidInput(f) && InRange(f, at) && k < 7 && k != 1 && k != 2 && HasCode(f.version < 2, k, log2w, log2h)
    requires ParseLeaf(f, k, at, Idx(f.width, x, y), Pow2(log2w), Pow2(log2h)).Parsed?
    ensures TypeOf(p) == k && Writable(f.version < 2, p, log2w, log2h) && Holds(f, at, Operands(p))
    ensures var r := ParseLeaf(f, k, at, Idx(f.width, x, y), Pow2(log2w), Pow2(log2h));
      r.at == Operands(p).After(at) && StandsFor(f, p, r.block, x, y, log2w, log2h)
  {
    if k == 6 {
      WordWritten(f, at.word);
      WordWritten(f, at.word + 2);
      p := TwoPixels(Le16(f.words, at.word), Le16(f.words, at.word + 2));
      AtThen(f.words, at.word, WordOf(p.first), WordOf(p.second));
    } else if k == 0 {
      p := Move(f.bytes[at.byte]);
    } else if k == 4 {
      WordWritten(f, at.word);
      p := Shift(f.bytes[at.byte], Le16(f.words, at.word));
    } else if k == 5 {
      WordWritten(f, at.word);
      p := Fill(Le16(f.words, at.word));
    } else {
      p := Stay;
    }
  }

  lemma CodeIsThere(f: Input, at: Cursor, log2w: nat, log2h: nat) returns (k: nat)
    requires ValidInput(f) && Sized(log2w, log2h) && InRange(f, at)
    ensures k < 7 && HasCode(f.version < 2, k, log2w, log2h)
    ensures k == CodeAt(f.version < 2, SizeIndex(log2h, log2w), Peek5(f.bits, at.bit)).blockType
    ensures Holds(f, at, CodeOf(f.version < 2, k, log2w, log2h))
    ensures CodeOf(f.version < 2, k, log2w, log2h).After(at) == AfterCode(f, at, log2w, log2h)
  {
    var index, v := SizeIndex(log2h, log2w), Peek5(f.bits, at.bit);
    k := CodeAt(f.version < 2, index, v).blockType;
    TablesComplete(f.version < 2, index, v);
    assert Matches(Entry(f.version < 2, index, k), v);
    CodeReadIff(f, at, k, log2w, log2h);
  }

  // And it stands for the block.
  ghost predicate WrittenAs(f: Input, p: Plan, b: Block, at: Cursor, end: Cursor, x: nat, y: nat, log2w: nat,
                            log2h: nat)
    requires ValidInput(f)
  {
    Written(f, p, at, end, log2w, log2h) && StandsFor(f, p, b, x, y, log2w, log2h)
  }

  // The code of type k was written from `at` to `mid`.
  ghost predicate CodeWritten(f: Input, k: nat, at: Cursor, mid: Cursor, log2w: nat, log2h: nat) {
    && k < 7 && HasCode(f.version < 2, k, log2w, log2h)
    && Holds(f, at, CodeOf(f.version < 2, k, log2w, log2h)) && mid == CodeOf(f.version < 2, k, log2w, log2h).After(at)
  }

  lemma OverWritten(f: Input, p: Plan, at: Cursor, mid: Cursor, half: Cursor, end: Cursor, log2w: nat, log2h: nat)
    requires log2h > 0 && p.Over? && CodeWritten(f, 1, at, mid, log2w, log2h)
    requires Written(f, p.top, mid, half, log2w, log2h - 1) && Written(f, p.bottom, half, end, log2w, log2h - 1)
    ensures Written(f, p, at, end, log2w, log2h)
  {
    InParts(f, at, CodeOf(f.version < 2, 1, log2w, log2h), Write(f.version < 2, p.top, log2w, log2h - 1),
            Write(f.version < 2, p.bottom, log2w, log2h - 1));
  }

  lemma NextToWritten(f: Input, p: Plan, at: Cursor, mid: Cursor, half: Cursor, end: Cursor, log2w: nat, log2h: nat)
    requires log2w > 0 && p.NextTo? && CodeWritten(f, 2, at, mid, log2w, log2h)
    requires Written(f, p.left, mid, half, log2w - 1, log2h) && Written(f, p.right, half, end, log2w - 1, log2h)
    ensures Written(f, p, at, end, log2w, log2h)
  {
    InParts(f, at, CodeOf(f.version < 2, 2, log2w, log2h), Write(f.version < 2, p.left, log2w - 1, log2h),
            Write(f.version < 2, p.right, log2w - 1, log2h));
  }

  lemma LeafIsWritten(f: Input, k: nat, at: Cursor, mid: Cursor, x: nat, y: nat, log2w: nat, log2h: nat)
      returns (p: Plan)
    requires ValidInput(f) && k != 1 && k != 2 && CodeWritten(f, k, at, mid, log2w, log2h) && InRange(f, mid)
    requires ParseLeaf(f, k, mid, Idx(f.width, x, y), Pow2(log2w), Pow2(log2h)).Parsed?
    ensures var r := ParseLeaf(f, k, mid, Idx(f.width, x, y), Pow2(log2w), Pow2(log2h));
      WrittenAs(f, p, r.block, at, r.at, x, y, log2w, log2h)
  {
    p := LeafWritten(f, k, mid, x, y, log2w, log2h);
    HoldsThen(f, at, CodeOf(f.version < 2, k, log2w, log2h), Operands(p));
  }

  // Whatever is read as a block was written for this block.
  lemma {:induction false} ReadIsWritten(f: Input, at: Cursor, x: nat, y: nat, log2w: nat, log2h: nat)
      returns (p: Plan)
    requires ValidInput(f) && Sized(log2w, log2h) && InRange(f, at)
    requires ParseBlock(f, at, x, y, log2w, log2h).Parsed?
    ensures var r := ParseBlock(f, at, x, y, log2w, log2h);
      WrittenAs(f, p, r.block, at, r.at, x, y, log2w, log2h)
    decreases log2w + log2h, 1
  {
    BlockBranch(f, at, x, y, log2w, log2h);
    var k := CodeIsThere(f, at, log2w, log2h);
    var mid := AfterCode(f, at, log2w, log2h);
    if k == 1 {
      p := RowsAreWritten(f, at, mid, x, y, log2w, log2h);
    } else if k == 2 {
      p := ColumnsAreWritten(f, at, mid, x, y, log2w, log2h);
    } else {
      p := LeafIsWritten(f, k, at, mid, x, y, log2w, log2h);
    }
  }

  lemma {:induction false} RowsAreWritten(f: Input, at: Cursor, mid: Cursor, x: nat, y: nat, log2w: nat, log2h: nat)
      returns (p: Plan)
    requires ValidInput(f) && log2w < 4 && 0 < log2h < 4 && log2w + log2h > 1 && InRange(f, mid)
    requires CodeWritten(f, 1, at, mid, log2w, log2h) && ParseRows(f, mid, x, y, log2w, log2h).Parsed?
    ensures var r := ParseRows(f, mid, x, y, log2w, log2h); WrittenAs(f, p, r.block, at, r.at, x, y, log2w, log2h)
    decreases log2w + log2h, 0
  {
    var lower := y + Pow2(log2h - 1);
    var a, b := TwoRows(f, mid, x, y, log2w, log2h);
    var top := ReadIsWritten(f, mid, x, y, log2w, log2h - 1);
    var bottom := ReadIsWritten(f, a.at, x, lower, log2w, log2h - 1);
    p := Over(top, bottom);
    OverWritten(f, p, at, mid, a.at, b.at, log2w, log2h);
  }

  lemma TwoRows(f: Input, at: Cursor, x: nat, y: nat, log2w: nat, log2h: nat) returns (a: Parse, b: Parse)
    requires ValidInput(f) && log2w < 4 && 0 < log2h < 4 && log2w + log2h > 1
    requires ParseRows(f, at, x, y, log2w, log2h).Parsed?
    ensures a == ParseBlock(f, at, x, y, log2w, log2h - 1) && a.Parsed?
    ensures b == ParseBlock(f, a.at, x, y + Pow2(log2h - 1), log2w, log2h - 1) && b.Parsed?
    ensures ParseRows(f, at, x, y, log2w, log2h) == Parsed(Rows(a.block, b.block), b.at)
  {
    a := ParseBlock(f, at, x, y, log2w, log2h - 1);
    b := ParseBlock(f, a.at, x, y + Pow2(log2h - 1), log2w, log2h - 1);
  }

  lemma {:induction false} ColumnsAreWritten(f: Input, at: Cursor, mid: Cursor, x: nat, y: nat, log2w: nat, log2h: nat)
      returns (p: Plan)
    requires ValidInput(f) && 0 < log2w < 4 && log2h < 4 && log2w + log2h > 1 && InRange(f, mid)
    requires CodeWritten(f, 2, at, mid, log2w, log2h) && ParseColumns(f, mid, x, y, log2w, log2h).Parsed?
    ensures var r := ParseColumns(f, mid, x, y, log2w, log2h); WrittenAs(f, p, r.block, at, r.at, x, y, log2w, log2h)
    decreases log2w + log2h, 0
  {
    var beyond := x + Pow2(log2w - 1);
    var a, b := TwoColumns(f, mid, x, y, log2w, log2h);
    var left := ReadIsWritten(f, mid, x, y, log2w - 1, log2h);
    var right := ReadIsWritten(f, a.at, beyond, y, log2w - 1, log2h);
    p := NextTo(left, right);
    NextToWritten(f, p, at, mid, a.at, b.at, log2w, log2h);
  }

  lemma TwoColumns(f: Input, at: Cursor, x: nat, y: nat, log2w: nat, log2h: nat) returns (a: Parse, b: Parse)
    requires ValidInput(f) && 0 < log2w < 4 && log2h < 4 && log2w + log2h > 1
    requires ParseColumns(f, at, x, y, log2w, log2h).Parsed?
    ensures a == ParseBlock(f, at, x, y, log2w - 1, log2h) && a.Parsed?
    ensures b == ParseBlock(f, a.at, x + Pow2(log2w - 1), y, log2w - 1, log2h) && b.Parsed?
    ensures ParseColumns(f, at, x, y, log2w, log2h) == Parsed(Columns(a.block, b.block), b.at)
  {
    a := ParseBlock(f, at, x, y, log2w - 1, log2h);
    b := ParseBlock(f, a.at, x + Pow2(log2w - 1), y, log2w - 1, log2h);
  }

  // ---------- Frames ----------

  predicate WholeBlocks(old2: bool, ps: seq<Plan>) {
    forall k :: 0 <= k < |ps| ==> Writable(old2, ps[k], 3, 3)
  }

  // The blocks of a strip of 8 rows, from left to right.
  function WriteStrip(old2: bool, ps: seq<Plan>): Streams
    requires WholeBlocks(old2, ps)
  {
    if ps == [] then NOTHING
    else WriteStrip(old2, ps[..|ps| - 1]).Then(Write(old2, ps[|ps| - 1], 3, 3))
  }

  // The plans stand for the blocks of the strip at row y.
  predicate StripStandsFor(f: Input, ps: seq<Plan>, bs: seq<Block>, y: nat) {
    && |f.mv| == 256 && |ps| == |bs| && WholeBlocks(f.version < 2, ps)
    && forall k :: 0 <= k < |ps| ==> StandsFor(f, ps[k], bs[k], 8 * k, y, 3, 3)
  }

  lemma StripInit(f: Input, ps: seq<Plan>, bs: seq<Block>, y: nat, n: nat)
    requires StripStandsFor(f, ps, bs, y) && |ps| == n + 1
    ensures StripStandsFor(f, ps[..n], bs[..n], y) && bs == bs[..n] + [bs[n]]
    ensures Writable(f.version < 2, ps[n], 3, 3) && StandsFor(f, ps[n], bs[n], 8 * n, y, 3, 3)
    ensures WriteStrip(f.version < 2, ps)
      == WriteStrip(f.version < 2, ps[..n]).Then(Write(f.version < 2, ps[n], 3, 3))
  {
  }

  lemma StripGoesOn(f: Input, at: Cursor, y: nat, n: nat, blocks: seq<Block>, mid: Cursor, b: Block, end: Cursor)
    requires ValidInput(f) && ParseStrip(f, at, y, n) == Strip(blocks, mid)
    requires ParseBlock(f, mid, 8 * n, y, 3, 3) == Parsed(b, end)
    ensures ParseStrip(f, at, y, n + 1) == Strip(blocks + [b], end)
  {
  }

  lemma {:induction false} StripReadBack(f: Input, ps: seq<Plan>, bs: seq<Block>, at: Cursor, y: nat)
    requires ValidInput(f) && StripStandsFor(f, ps, bs, y) && Holds(f, at, WriteStrip(f.version < 2, ps))
    ensures ParseStrip(f, at, y, |ps|) == Strip(bs, WriteStrip(f.version < 2, ps).After(at))
    decreases |ps|
  {
    if ps == [] {
      assert bs == [];
    } else {
      var n := |ps| - 1;
      StripInit(f, ps, bs, y, n);
      var before, last := WriteStrip(f.version < 2, ps[..n]), Write(f.version < 2, ps[n], 3, 3);
      HoldsThen(f, at, before, last);
      var mid := before.After(at);
      StripReadBack(f, ps[..n], bs[..n], at, y);
      ReadBack(f, ps[n], bs[n], mid, last.After(mid), 8 * n, y, 3, 3);
      StripGoesOn(f, at, y, n, bs[..n], mid, bs[n], last.After(mid));
    }
  }

  lemma StripAnd(f: Input, ps: seq<Plan>, bs: seq<Block>, p: Plan, b: Block, y: nat)
    requires StripStandsFor(f, ps, bs, y) && Writable(f.version < 2, p, 3, 3)
    requires StandsFor(f, p, b, 8 * |ps|, y, 3, 3)
    ensures StripStandsFor(f, ps + [p], bs + [b], y)
    ensures WriteStrip(f.version < 2, ps + [p]) == WriteStrip(f.version < 2, ps).Then(Write(f.version < 2, p, 3, 3))
  {
    assert (ps + [p])[..|ps|] == ps;
  }

  lemma StripCame(f: Input, at: Cursor, y: nat, n: nat) returns (before: Strip, b: Parse)
    requires ValidInput(f) && n > 0 && ParseStrip(f, at, y, n).Strip?
    ensures before == ParseStrip(f, at, y, n - 1) && before.Strip?
    ensures b == ParseBlock(f, before.at, 8 * (n - 1), y, 3, 3) && b.Parsed?
    ensures ParseStrip(f, at, y, n) == Strip(before.blocks + [b.block], b.at)
  {
    before := ParseStrip(f, at, y, n - 1);
    b := ParseBlock(f, before.at, 8 * (n - 1), y, 3, 3);
  }

  lemma {:induction false} StripIsWritten(f: Input, at: Cursor, y: nat, n: nat) returns (ps: seq<Plan>)
    requires ValidInput(f) && InRange(f, at) && ParseStrip(f, at, y, n).Strip?
    ensures var r := ParseStrip(f, at, y, n);
      && StripStandsFor(f, ps, r.blocks, y) && Holds(f, at, WriteStrip(f.version < 2, ps))
      && r.at == WriteStrip(f.version < 2, ps).After(at) && InRange(f, r.at)
  {
    if n == 0 {
      ps := [];
    } else {
      var before, b := StripCame(f, at, y, n);
      var init := StripIsWritten(f, at, y, n - 1);
      var last := ReadIsWritten(f, before.at, 8 * (n - 1), y, 3, 3);
      ps := init + [last];
      StripAnd(f, init, before.blocks, last, b.block, y);
      HoldsThen(f, at, WriteStrip(f.version < 2, init), Write(f.version < 2, last, 3, 3));
    }
  }

  predicate WholeStrips(old2: bool, rows: seq<seq<Plan>>) {
    forall j :: 0 <= j < |rows| ==> WholeBlocks(old2, rows[j])
  }

  // The strips of a frame, from top to bottom.
  function WriteGrid(old2: bool, rows: seq<seq<Plan>>): Streams
    requires WholeStrips(old2, rows)
  {
    if rows == [] then NOTHING
    else WriteGrid(old2, rows[..|rows| - 1]).Then(WriteStrip(old2, rows[|rows| - 1]))
  }

  predicate GridStandsFor(f: Input, rows: seq<seq<Plan>>, strips: seq<seq<Block>>) {
    && |f.mv| == 256 && |rows| == |strips| && WholeStrips(f.version < 2, rows)
    && forall j :: 0 <= j < |rows| ==> RowStandsFor(f, rows, strips, j)
  }

  predicate RowStandsFor(f: Input, rows: seq<seq<Plan>>, strips: seq<seq<Block>>, j: nat)
    requires j < |rows| == |strips|
  {
    |rows[j]| == f.width / 8 && StripStandsFor(f, rows[j], strips[j], 8 * j)
  }

  lemma GridInit(f: Input, rows: seq<seq<Plan>>, strips: seq<seq<Block>>, n: nat)
    requires GridStandsFor(f, rows, strips) && |rows| == n + 1
    ensures GridStandsFor(f, rows[..n], strips[..n]) && strips == strips[..n] + [strips[n]]
    ensures StripStandsFor(f, rows[n], strips[n], 8 * n) && |rows[n]| == f.width / 8
    ensures WriteGrid(f.version < 2, rows)
      == WriteGrid(f.version < 2, rows[..n]).Then(WriteStrip(f.version < 2, rows[n]))
  {
    assert RowStandsFor(f, rows, strips, n);
    forall j | 0 <= j < n ensures RowStandsFor(f, rows[..n], strips[..n], j) {
      assert RowStandsFor(f, rows, strips, j);
    }
  }

  lemma GridGoesOn(f: Input, at: Cursor, m: nat, strips: seq<seq<Block>>, mid: Cursor, bs: seq<Block>, end: Cursor)
    requires ValidInput(f) && ParseGrid(f, at, m) == Grid(strips, mid)
    requires ParseStrip(f, mid, 8 * m, f.width / 8) == Strip(bs, end)
    ensures ParseGrid(f, at, m + 1) == Grid(strips + [bs], end)
  {
  }

  // A frame that was written is read as its blocks, each at its place, to the end of what was
  // written.
  lemma {:induction false} GridReadBack(f: Input, rows: seq<seq<Plan>>, strips: seq<seq<Block>>, at: Cursor)
    requires ValidInput(f) && GridStandsFor(f, rows, strips) && Holds(f, at, WriteGrid(f.version < 2, rows))
    ensures ParseGrid(f, at, |rows|) == Grid(strips, WriteGrid(f.version < 2, rows).After(at))
    decreases |rows|
  {
    if rows == [] {
      assert strips == [];
    } else {
      var n := |rows| - 1;
      GridInit(f, rows, strips, n);
      var before, last := WriteGrid(f.version < 2, rows[..n]), WriteStrip(f.version < 2, rows[n]);
      HoldsThen(f, at, before, last);
      var mid := before.After(at);
      GridReadBack(f, rows[..n], strips[..n], at);
      StripReadBack(f, rows[n], strips[n], mid, 8 * n);
      GridGoesOn(f, at, n, strips[..n], mid, strips[n], last.After(mid));
    }
  }

  lemma GridAnd(f: Input, rows: seq<seq<Plan>>, strips: seq<seq<Block>>, ps: seq<Plan>, bs: seq<Block>)
    requires GridStandsFor(f, rows, strips) && StripStandsFor(f, ps, bs, 8 * |rows|) && |ps| == f.width / 8
    ensures GridStandsFor(f, rows + [ps], strips + [bs])
    ensures WriteGrid(f.version < 2, rows + [ps])
      == WriteGrid(f.version < 2, rows).Then(WriteStrip(f.version < 2, ps))
  {
    var n, more, longer := |rows|, rows + [ps], strips + [bs];
    assert more[..n] == rows;
    forall j | 0 <= j < n + 1 ensures RowStandsFor(f, more, longer, j) {
      if j < n { assert RowStandsFor(f, rows, strips, j); }
    }
  }

  lemma GridCame(f: Input, at: Cursor, m: nat) returns (before: Grid, s: Strip)
    requires ValidInput(f) && m > 0 && ParseGrid(f, at, m).Grid?
    ensures before == ParseGrid(f, at, m - 1) && before.Grid?
    ensures s == ParseStrip(f, before.at, 8 * (m - 1), f.width / 8) && s.Strip?
    ensures ParseGrid(f, at, m) == Grid(before.strips + [s.blocks], s.at)
  {
    before := ParseGrid(f, at, m - 1);
    s := ParseStrip(f, before.at, 8 * (m - 1), f.width / 8);
  }

  // Conversely every frame that is read was written so.
  lemma {:induction false} GridIsWritten(f: Input, at: Cursor, m: nat) returns (rows: seq<seq<Plan>>)
    requires ValidInput(f) && InRange(f, at) && ParseGrid(f, at, m).Grid?
    ensures var r := ParseGrid(f, at, m);
      && GridStandsFor(f, rows, r.strips) && Holds(f, at, WriteGrid(f.version < 2, rows))
      && r.at == WriteGrid(f.version < 2, rows).After(at) && InRange(f, r.at)
  {
    if m == 0 {
      rows := [];
    } else {
      var before, s := GridCame(f, at, m);
      var init := GridIsWritten(f, at, m - 1);
      var last := StripIsWritten(f, before.at, 8 * (m - 1), f.width / 8);
      rows := init + [last];
      GridAnd(f, init, before.strips, last, s.blocks);
      HoldsThen(f, at, WriteGrid(f.version < 2, init), WriteStrip(f.version < 2, last));
    }
  }

  // ---------- What the pixels are ----------

  ghost predicate Pixels16(last: seq<nat>) {
    forall i :: 0 <= i < |last| ==> last[i] < 0x1_0000
  }

  // Without an addend the pixels are those of the source.
  lemma CopyShows(src: nat, last: seq<nat>, width: nat, log2w: nat, c: nat, r: nat, was: Cell)
    requires Pixels16(last) && src + Idx(width, c, r) < |last|
    ensures RenderLeaf(Copy(src, 0), last, width, log2w, c, r, was).value == last[src + r * width + c]
  {
  }

  // Two neighbours are one little-endian 32-bit word, to which the addend is added twice at once.
  lemma PairShows(src: nat, dc: nat, last: seq<nat>, width: nat, log2w: nat, c: nat, r: nat, was: Cell)
    requires Pixels16(last) && dc < 0x1_0000 && log2w > 0 && c % 2 == 0 && src + Idx(width, c, r) + 1 < |last|
    ensures var i := src + r * width + c;
      RenderLeaf(Copy(src, dc), last, width, log2w, c, r, was).value
        + 0x1_0000 * RenderLeaf(Copy(src, dc), last, width, log2w, c + 1, r, was).value
      == (last[i] + 0x1_0000 * last[i + 1] + 0x1_0001 * dc) % 0x1_0000_0000
  {
    var i := src + r * width + c;
    assert RenderLeaf(Copy(src, dc), last, width, log2w, c, r, was).value == Shifted(last, i, dc, false);
    assert RenderLeaf(Copy(src, dc), last, width, log2w, c + 1, r, was).value == Shifted(last, i + 1, dc, true);
    PairSum(last[i], last[i + 1], dc);
  }

  lemma PairSum(lo: nat, hi: nat, dc: nat)
    requires lo < 0x1_0000 && hi < 0x1_0000 && dc < 0x1_0000
    ensures (lo + dc) % 0x1_0000 + 0x1_0000 * ((hi + dc + (lo + dc) / 0x1_0000) % 0x1_0000)
      == (lo + 0x1_0000 * hi + 0x1_0001 * dc) % 0x1_0000_0000
  {
  }

  // In a column of its own a pixel has no neighbour to carry to; a filled block has one colour; of a
  // literal pair the first is the upper or the left pixel.
  lemma OthersShow(src: nat, dc: nat, first: nat, second: nat, last: seq<nat>, width: nat, log2w: nat, c: nat, r: nat,
                   was: Cell)
    requires src + Idx(width, 0, r) < |last|
    ensures RenderLeaf(Copy(src, dc), last, width, 0, 0, r, was).value == (last[src + r * width] + dc) % 0x1_0000
    ensures RenderLeaf(Solid(dc), last, width, log2w, c, r, was).value == dc
    ensures RenderLeaf(Keep, last, width, log2w, c, r, was) == was
    ensures RenderLeaf(Literal(first, second), last, width, log2w, 0, 0, was).value == first
    ensures c + r == 1 ==> RenderLeaf(Literal(first, second), last, width, log2w, c, r, was).value == second
  {
  }
}
