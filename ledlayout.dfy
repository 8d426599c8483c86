/** The APA102 matrix geometry shared by both display drivers: which physical
    LED of the strip sits at each matrix coordinate, given how the strip is
    wired (zig-zag or line by line), how the matrix dimensions are read
    (horizontally or vertically) and where the first LED sits. Also the
    per-pixel byte indices and the SPI frame pieces of the APA102 protocol. */
module LedLayout {

  datatype ColorType = RGB | RBG | GRB | GBR | BGR | BRG
  datatype WireMode = LineByLine | ZigZag
  datatype Orientation = Horizontally | Vertically
  datatype Origin = TopLeft | TopRight | BottomLeft | BottomRight

  datatype Wiring = Wiring(wire: WireMode, orientation: Orientation, origin: Origin)

  /** A matrix coordinate, row first. */
  datatype Coord = Coord(row: nat, col: nat)

  // ------------------------------------------------------------ arithmetic

  /** Quotient and remainder of `j + c * n` by `n` when `0 <= j < n`. */
  lemma DivModOfBlock(j: int, c: int, n: int)
    requires 0 <= j < n
    ensures (j + c * n) / n == c && (j + c * n) % n == j
  {
    var q, r := (j + c * n) / n, (j + c * n) % n;
    assert q * n + r == c * n + j;
    assert (q - c) * n == j - r;
    MulSign(q - c, n);
  }

  /** A non-zero multiple of a positive `n` is at least `n` away from 0. */
  lemma MulSign(k: int, n: int)
    requires n > 0
    ensures k >= 1 ==> k * n >= n
    ensures k <= -1 ==> k * n <= -n
  {
  }

  /** Multiplying by a non-negative factor keeps the order. */
  lemma MulMonotone(a: int, b: int, n: int)
    requires n >= 0
    ensures a <= b ==> a * n <= b * n
  {
  }

  /** The index of block `c` plus offset `j` stays below `outer * inner`. */
  lemma BlockBound(j: int, c: int, inner: int, outer: int)
    requires 0 <= j < inner && 0 <= c < outer
    ensures 0 <= j + c * inner < outer * inner
  {
    MulMonotone(c, outer - 1, inner);
    MulMonotone(0, c, inner);
  }

  /** `L / inner < outer` when `L < outer * inner`. */
  lemma QuotientBound(l: int, inner: int, outer: int)
    requires 0 <= l < outer * inner && inner > 0
    ensures 0 <= l / inner < outer
  {
    MulMonotone(outer, l / inner, inner);
  }

  // ------------------------------------------------------------ LED mapping

  /** The loop bounds of the map builder: rows then columns when the matrix is
      read horizontally, columns then rows otherwise. */
  function Outer(w: Wiring, width: nat, height: nat): nat {
    if w.orientation == Horizontally then height else width
  }

  function Inner(w: Wiring, width: nat, height: nat): nat {
    if w.orientation == Horizontally then width else height
  }

  /** The outer loop runs backwards for horizontal matrices whose first LED is
      at the bottom and for vertical matrices whose first LED is on the right. */
  predicate OuterReversed(w: Wiring) {
    || (w.orientation == Horizontally && w.origin in {BottomLeft, BottomRight})
    || (w.orientation == Vertically && w.origin in {TopRight, BottomRight})
  }

  /** The parity (compared with the outer index) whose lines are walked
      backwards in zig-zag mode. It depends on the parity of the number of
      outer lines, not of the line index. */
  function FlipParity(w: Wiring, outer: nat): (m: nat)
    ensures m <= 1
  {
    if || (w.orientation == Horizontally
           && ((w.origin == BottomLeft && outer % 2 == 0)
               || (w.origin == BottomRight && outer % 2 == 1)
               || w.origin == TopRight))
       || (w.orientation == Vertically
           && ((w.origin == TopRight && outer % 2 == 0)
               || (w.origin == BottomRight && outer % 2 == 1)
               || w.origin == BottomLeft))
    then 0 else 1
  }

  /** Whether the LEDs along outer line `i` run against the inner loop. */
  predicate LineFlipped(w: Wiring, outer: nat, i: nat) {
    || (w.wire == ZigZag && i % 2 == FlipParity(w, outer))
    || (w.wire == LineByLine
        && ((w.orientation == Horizontally && w.origin in {BottomRight, TopRight})
            || (w.orientation == Vertically && w.origin in {BottomLeft, BottomRight})))
  }

  /** The outer line visited at step `c` of the outer loop, and back. */
  function OuterLine(w: Wiring, outer: nat, c: nat): (i: nat)
    requires c < outer
    ensures i < outer
  {
    if OuterReversed(w) then outer - 1 - c else c
  }

  function OuterStep(w: Wiring, outer: nat, i: nat): (c: nat)
    requires i < outer
    ensures c < outer && OuterLine(w, outer, c) == i
  {
    if OuterReversed(w) then outer - 1 - i else i
  }

  /** The position along its line of the LED at inner step `k` of line `i`. */
  function InnerPos(w: Wiring, outer: nat, inner: nat, i: nat, k: nat): (j: nat)
    requires k < inner
    ensures j < inner && (j == k || j == inner - 1 - k)
  {
    if LineFlipped(w, outer, i) then inner - 1 - k else k
  }

  /** Walking a line backwards twice walks it forwards. */
  lemma InnerPosInvolution(w: Wiring, outer: nat, inner: nat, i: nat, k: nat)
    requires k < inner
    ensures InnerPos(w, outer, inner, i, InnerPos(w, outer, inner, i, k)) == k
  {
  }

  /** The line and step that the map builder visits for a coordinate. */
  function LineOf(w: Wiring, c: Coord): nat {
    if w.orientation == Horizontally then c.row else c.col
  }

  function StepOf(w: Wiring, c: Coord): nat {
    if w.orientation == Horizontally then c.col else c.row
  }

  predicate InMatrix(c: Coord, width: nat, height: nat) {
    c.row < height && c.col < width
  }

  /** The physical LED index the map builder stores for coordinate `c`:
      `j + current_outer_count * inner`. */
  function LedIndex(w: Wiring, width: nat, height: nat, c: Coord): (led: nat)
    requires InMatrix(c, width, height)
    ensures led < width * height
  {
    var outer, inner := Outer(w, width, height), Inner(w, width, height);
    var i, k := LineOf(w, c), StepOf(w, c);
    BlockBound(InnerPos(w, outer, inner, i, k), OuterStep(w, outer, i), inner, outer);
    InnerPos(w, outer, inner, i, k) + OuterStep(w, outer, i) * inner
  }

  /** The coordinate whose pixel drives physical LED `led`. */
  function CoordOf(w: Wiring, width: nat, height: nat, led: nat): (c: Coord)
    requires led < width * height
    ensures InMatrix(c, width, height)
  {
    var outer, inner := Outer(w, width, height), Inner(w, width, height);
    QuotientBound(led, inner, outer);
    var i := OuterLine(w, outer, led / inner);
    var k := InnerPos(w, outer, inner, i, led % inner);
    if w.orientation == Horizontally then Coord(i, k) else Coord(k, i)
  }

  /** Every coordinate is driven by the LED that drives it back. */
  lemma CoordOfLedIndex(w: Wiring, width: nat, height: nat, c: Coord)
    requires InMatrix(c, width, height)
    ensures CoordOf(w, width, height, LedIndex(w, width, height, c)) == c
  {
    var outer, inner := Outer(w, width, height), Inner(w, width, height);
    var i, k := LineOf(w, c), StepOf(w, c);
    DivModOfBlock(InnerPos(w, outer, inner, i, k), OuterStep(w, outer, i), inner);
    InnerPosInvolution(w, outer, inner, i, k);
  }

  /** Every LED index below `width * height` drives the coordinate it maps to. */
  lemma LedIndexOfCoord(w: Wiring, width: nat, height: nat, led: nat)
    requires led < width * height
    ensures LedIndex(w, width, height, CoordOf(w, width, height, led)) == led
  {
    var outer, inner := Outer(w, width, height), Inner(w, width, height);
    QuotientBound(led, inner, outer);
    assert led == led % inner + (led / inner) * inner;
    InnerPosInvolution(w, outer, inner, OuterLine(w, outer, led / inner), led % inner);
  }

  /** The map is a bijection from the matrix onto `0 .. width*height-1`:
      distinct coordinates get distinct LEDs and every LED is hit. */
  lemma LedIndexBijective(w: Wiring, width: nat, height: nat)
    ensures forall a, b ::
              (InMatrix(a, width, height) && InMatrix(b, width, height)
               && LedIndex(w, width, height, a) == LedIndex(w, width, height, b)) ==> a == b
    ensures forall led :: 0 <= led < width * height ==>
              InMatrix(CoordOf(w, width, height, led), width, height)
              && LedIndex(w, width, height, CoordOf(w, width, height, led)) == led
  {
    forall a, b | InMatrix(a, width, height) && InMatrix(b, width, height)
                  && LedIndex(w, width, height, a) == LedIndex(w, width, height, b)
      ensures a == b
    {
      CoordOfLedIndex(w, width, height, a);
      CoordOfLedIndex(w, width, height, b);
    }
    forall led | 0 <= led < width * height
      ensures LedIndex(w, width, height, CoordOf(w, width, height, led)) == led
    {
      LedIndexOfCoord(w, width, height, led);
    }
  }

  /** Horizontally, each row owns one block of `width` consecutive LEDs:
      the row visited at outer step `s` holds LEDs `s*width .. s*width+width-1`. */
  lemma RowBlocks(w: Wiring, width: nat, height: nat, c: Coord)
    requires w.orientation == Horizontally && InMatrix(c, width, height)
    ensures var s := OuterStep(w, height, c.row);
      s * width <= LedIndex(w, width, height, c) < s * width + width
  {
  }

  /** The first LED (index 0) sits in the corner the origin names. */
  lemma FirstLedAtOrigin(w: Wiring, width: nat, height: nat)
    requires width >= 2 && height >= 2
    ensures var c := CoordOf(w, width, height, 0);
      && (c.row == 0 <==> w.origin in {TopLeft, TopRight})
      && (c.row == height - 1 <==> w.origin in {BottomLeft, BottomRight})
      && (c.col == 0 <==> w.origin in {TopLeft, BottomLeft})
      && (c.col == width - 1 <==> w.origin in {TopRight, BottomRight})
  {
    var outer, inner := Outer(w, width, height), Inner(w, width, height);
    assert 0 / inner == 0 && 0 % inner == 0;
    var i := OuterLine(w, outer, 0);
    assert outer % 2 == 0 ==> (outer - 1) % 2 == 1;
    assert outer % 2 == 1 ==> (outer - 1) % 2 == 0;
    assert i == if OuterReversed(w) then outer - 1 else 0;
    var flipped := LineFlipped(w, outer, i);
    assert flipped <==> (if w.orientation == Horizontally then w.origin in {TopRight, BottomRight}
                         else w.origin in {BottomLeft, BottomRight});
    var k := InnerPos(w, outer, inner, i, 0);
    assert k == if flipped then inner - 1 else 0;
    var c := CoordOf(w, width, height, 0);
    assert c == if w.orientation == Horizontally then Coord(i, k) else Coord(k, i);
    match w.origin
    case TopLeft =>
    case TopRight =>
    case BottomLeft =>
    case BottomRight =>
  }

  // ------------------------------------------------------------ colour bytes

  /** Three offsets that name the three colour bytes after the start byte,
      each once. */
  predicate OffsetsPermute(o: (nat, nat, nat)) {
    && 1 <= o.0 <= 3 && 1 <= o.1 <= 3 && 1 <= o.2 <= 3
    && o.0 != o.1 && o.0 != o.2 && o.1 != o.2
  }

  /** The offsets `red, green, blue` chosen per colour type. */
  function ColorOffsets(ct: ColorType): (o: (nat, nat, nat))
    ensures OffsetsPermute(o)
  {
    match ct
    case RGB => (1, 2, 3)
    case RBG => (1, 3, 2)
    case GRB => (2, 1, 3)
    case GBR => (3, 1, 2)
    case BGR => (3, 2, 1)
    case BRG => (2, 3, 1)
  }

  /** The four source byte indices of pixel `p` in the frame that holds, per
      pixel, the start byte then red, green and blue. */
  function ByteIndices(p: nat, o: (nat, nat, nat)): seq<nat> {
    [4 * p, 4 * p + o.0, 4 * p + o.1, 4 * p + o.2]
  }

  /** The four indices of a pixel are distinct and stay inside its own four
      bytes, with the start byte first. */
  lemma ByteIndicesInPixel(p: nat, ct: ColorType)
    ensures var b := ByteIndices(p, ColorOffsets(ct));
      && |b| == 4 && b[0] == 4 * p
      && (forall k :: 0 <= k < 4 ==> 4 * p <= b[k] < 4 * p + 4)
      && (forall k, m :: 0 <= k < m < 4 ==> b[k] != b[m])
  {
  }

  /** A colour channel: 0 red, 1 green, 2 blue. */
  type Channel = c: nat | c < 3

  /** The channel sent in colour slot `k` (0, 1, 2 after the start byte) when
      the frame is gathered through `ByteIndices`: slot `k` reads source byte
      `4p + o.k`, which holds channel `o.k - 1`. */
  function GatheredChannel(o: (nat, nat, nat), k: nat): Channel
    requires OffsetsPermute(o) && k < 3
  {
    var off := if k == 0 then o.0 else if k == 1 then o.1 else o.2;
    off - 1
  }

  /** The order the colour type's name asks for on the wire. */
  function NamedOrder(ct: ColorType): seq<Channel> {
    match ct
    case RGB => [0, 1, 2]
    case RBG => [0, 2, 1]
    case GRB => [1, 0, 2]
    case GBR => [1, 2, 0]
    case BGR => [2, 1, 0]
    case BRG => [2, 0, 1]
  }

  function GatheredOrder(ct: ColorType): seq<Channel> {
    var o := ColorOffsets(ct);
    [GatheredChannel(o, 0), GatheredChannel(o, 1), GatheredChannel(o, 2)]
  }

  /** Each offset names a colour byte, and the gathered channel is the
      offset less the start byte. */
  lemma GatheredOrderOfOffsets(ct: ColorType)
    ensures var o := ColorOffsets(ct);
      GatheredOrder(ct) == [o.0 - 1, o.1 - 1, o.2 - 1]
  {
  }

  /** For the four colour types whose offsets are their own inverse the
      gathered order is the named one. */
  lemma GatheredOrderSelfInverse(ct: ColorType)
    requires ct in {RGB, RBG, GRB, BGR}
    ensures GatheredOrder(ct) == NamedOrder(ct)
  {
  }

  /** As written, a GBR strip receives blue, red, green and a BRG strip green,
      blue, red: the two rotations are exchanged. */
  lemma GatheredOrderRotationsSwapped()
    ensures GatheredOrder(GBR) == NamedOrder(BRG) != NamedOrder(GBR)
    ensures GatheredOrder(BRG) == NamedOrder(GBR) != NamedOrder(BRG)
  {
  }

  /** The offsets that put the channels in the named order when gathered:
      the inverse of `ColorOffsets`. */
  function WireOffsets(ct: ColorType): (o: (nat, nat, nat))
    ensures OffsetsPermute(o)
    ensures [GatheredChannel(o, 0), GatheredChannel(o, 1), GatheredChannel(o, 2)] == NamedOrder(ct)
  {
    match ct
    case GBR => (2, 3, 1)
    case BRG => (3, 1, 2)
    case _ => ColorOffsets(ct)
  }

  // ------------------------------------------------------------ SPI frames

  /** The end frame: at least n/2 one-bits, as whole bytes of 0xFF. */
  function EndFrame(n: nat): (e: seq<bv8>)
    ensures |e| == (n + 15) / 16 && |e| * 16 >= n
    ensures forall k :: 0 <= k < |e| ==> e[k] == 0xFF
  {
    seq((n + 15) / 16, _ => 0xFF)
  }

  /** The start frame: four zero bytes. */
  function StartFrame(): (s: seq<bv8>)
    ensures |s| == 4 && forall k :: 0 <= k < 4 ==> s[k] == 0
  {
    [0, 0, 0, 0]
  }

  /** The brightness byte `(b & ~0xE0) | 0xE0` as Python computes it on an
      unbounded int: bits 5..7 of `b` are cleared, then set. */
  function StartByteOf(b: int): int {
    b - (b % 256) / 32 % 8 * 32 + 0xE0
  }

  /** For every int the low byte of that value is `(b & 0x1F) | 0xE0`. */
  lemma StartByteLowBits(b: int)
    ensures StartByteOf(b) % 256 == 0xE0 + b % 32
  {
    StartByteOfIs(b);
    var q := b / 256;
    assert (q * 256 + (b % 32 + 0xE0)) % 256 == b % 32 + 0xE0;
  }

  /** On a byte the formula is the bit operation itself. */
  lemma StartByteOfByte(x: bv8)
    ensures StartByteOf(x as int) == ((x & 0x1F) | 0xE0) as int
  {
    var b := x as int;
    StartByteOfIs(b);
    assert b / 256 == 0;
    BitsOfByte(x);
  }

  /** The formula keeps the high part and the low five bits and sets bits 5 to 7. */
  lemma StartByteOfIs(b: int)
    ensures StartByteOf(b) == (b / 256) * 256 + b % 32 + 0xE0
  {
    var h := (b % 256) / 32 % 8;
    assert (b % 256) / 32 < 8;
    assert b % 256 == h * 32 + b % 32 by { SplitLowByte(b); }
  }

  lemma SplitLowByte(b: int)
    ensures b % 256 == (b % 256) / 32 * 32 + b % 32
    ensures b == (b / 256) * 256 + b % 256
  {
    var r := b % 256;
    assert r % 32 == b % 32;
  }

  lemma BitsOfByte(x: bv8)
    ensures ((x & 0x1F) | 0xE0) as int == 0xE0 + x as int % 32
  {
  }
}
