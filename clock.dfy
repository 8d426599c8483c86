/** The clock animation of both generations. The digital face is modelled as
    the list of drawing operations it issues (vertical and horizontal lines
    and single points), painted in order onto the background; the analog
    face as its operations with the hand end points given, since those come
    from `cos` and `sin`. The local time is a parameter. */
module Clock {
  import opened Wrappers
  import PyText
  import DisplayBuffer

  type Rgb = DisplayBuffer.Rgb
  type Image = DisplayBuffer.Image

  /** `__middle_calculation` / `middle_calculation`: `v/2 - 1` when `v/2` is
      whole, otherwise `floor(v/2)`. */
  function Middle(v: int): (m: int)
    ensures m == (v - 1) / 2
    ensures v >= 1 ==> 0 <= m && m <= v - 1 - m <= m + 1
  {
    if v % 2 == 0 then v / 2 - 1 else v / 2
  }

  /** Python's `int(a / b)` for a positive divisor: the quotient truncated
      toward zero. */
  function TruncDiv(a: int, b: int): (q: int)
    requires b > 0
    ensures a >= 0 ==> q == a / b
    ensures a < 0 ==> q == -((-a) / b)
  {
    if a >= 0 then a / b else -((-a) / b)
  }

  function Min(a: int, b: int): int {
    if a <= b then a else b
  }

  function Max(a: int, b: int): int {
    if a <= b then b else a
  }

  // ------------------------------------------------------------ drawing

  /** A drawing operation: `draw.line` between two points or `draw.point`. */
  datatype Op = Line(x0: int, y0: int, x1: int, y1: int, color: Rgb) | Dot(x: int, y: int, color: Rgb)

  /** The operation lies on one row or one column. */
  predicate AxisAligned(op: Op) {
    op.Dot? || op.x0 == op.x1 || op.y0 == op.y1
  }

  /** The operation sets the pixel (x, y); only axis-aligned lines are
      rasterised here. */
  predicate Covers(op: Op, x: int, y: int) {
    match op
    case Dot(px, py, _) => x == px && y == py
    case Line(x0, y0, x1, y1, _) =>
      || (x0 == x1 && x == x0 && Min(y0, y1) <= y <= Max(y0, y1))
      || (y0 == y1 && y == y0 && Min(x0, x1) <= x <= Max(x0, x1))
  }

  /** The operation stays inside the columns `left..right` and the rows
      `top..bottom`. */
  predicate Within(op: Op, left: int, right: int, top: int, bottom: int) {
    match op
    case Dot(px, py, _) => left <= px <= right && top <= py <= bottom
    case Line(x0, y0, x1, y1, _) =>
      left <= x0 <= right && left <= x1 <= right && top <= y0 <= bottom && top <= y1 <= bottom
  }

  /** The colour the pixel (x, y) ends up with: that of the last operation
      covering it, else the background. */
  function ColorAt(ops: seq<Op>, x: int, y: int, background: Rgb): (c: Rgb)
    ensures (forall k :: 0 <= k < |ops| ==> !Covers(ops[k], x, y)) ==> c == background
    ensures c == background || exists k :: 0 <= k < |ops| && Covers(ops[k], x, y) && c == ops[k].color
    ensures forall k ::
      (0 <= k < |ops| && Covers(ops[k], x, y) && forall j :: k < j < |ops| ==> !Covers(ops[j], x, y))
      ==> c == ops[k].color
  {
    if ops == [] then background
    else if Covers(ops[|ops| - 1], x, y) then ops[|ops| - 1].color
    else ColorAt(ops[..|ops| - 1], x, y, background)
  }

  /** The background image with the operations drawn in order; points off
      the image are clipped. */
  function Paint(ops: seq<Op>, width: nat, height: nat, background: Rgb): (img: Image)
    ensures DisplayBuffer.IsRect(img, height, width)
    ensures forall y, x :: 0 <= y < height && 0 <= x < width ==> img[y][x] == ColorAt(ops, x, y, background)
  {
    seq(height, y requires 0 <= y < height => seq(width, x requires 0 <= x < width => ColorAt(ops, x, y, background)))
  }

  // ------------------------------------------------------------ seven segments

  datatype Segment = LeftUpper | LeftLower | RightUpper | RightLower | Top | Bottom | Centre

  /** The segments `__digital_draw_digit` lights for a digit; any other
      value lights none. */
  function Segments(digit: int): set<Segment> {
    (if digit in {4, 5, 6, 7, 8, 9, 0} then {LeftUpper} else {})
    + (if digit in {2, 6, 8, 0} then {LeftLower} else {})
    + (if digit in {1, 2, 3, 4, 7, 8, 9, 0} then {RightUpper} else {})
    + (if digit in {1, 3, 4, 5, 6, 7, 8, 9, 0} then {RightLower} else {})
    + (if digit in {2, 3, 5, 6, 7, 8, 9, 0} then {Top} else {})
    + (if digit in {2, 3, 5, 6, 8, 9, 0} then {Bottom} else {})
    + (if digit in {2, 3, 4, 5, 6, 8, 9} then {Centre} else {})
  }

  /** 8 lights all seven segments, 1 only the two on the right, and the
      middle bar is off for 0, 1 and 7. */
  lemma SegmentTable()
    ensures Segments(8) == {LeftUpper, LeftLower, RightUpper, RightLower, Top, Bottom, Centre}
    ensures Segments(1) == {RightUpper, RightLower}
    ensures Centre !in Segments(0) && Centre !in Segments(1) && Centre !in Segments(7)
    ensures forall d :: 0 <= d <= 9 && d !in {0, 1, 7} ==> Centre in Segments(d)
  {
  }

  /** A value outside 0..9 draws nothing. */
  lemma NonDigitDark(d: int)
    requires d < 0 || d > 9
    ensures Segments(d) == {}
  {
  }

  /** The digit a pattern of lit segments shows, read off the segments
      that tell the digits apart. */
  function DigitOf(p: set<Segment>): int {
    if Centre !in p then
      if LeftLower in p then 0 else if Top in p then 7 else 1
    else if LeftLower in p then
      if LeftUpper !in p then 2 else if RightUpper !in p then 6 else 8
    else if Top !in p then 4
    else if LeftUpper !in p then 3
    else if RightUpper !in p then 5
    else 9
  }

  /** Every digit's pattern reads back as that digit. */
  lemma DigitOfSegments(d: int)
    requires 0 <= d <= 9
    ensures DigitOf(Segments(d)) == d
  {
    var p := Segments(d);
    assert Centre in p <==> d in {2, 3, 4, 5, 6, 8, 9};
    assert LeftLower in p <==> d in {2, 6, 8, 0};
    assert Top in p <==> d in {2, 3, 5, 6, 7, 8, 9, 0};
    assert LeftUpper in p <==> d in {4, 5, 6, 7, 8, 9, 0};
    assert RightUpper in p <==> d in {1, 2, 3, 4, 7, 8, 9, 0};
  }

  /** No two digits share a pattern, so every digit can be read back. */
  lemma SegmentsDistinct(a: int, b: int)
    requires 0 <= a <= 9 && 0 <= b <= 9 && a != b
    ensures Segments(a) != Segments(b)
  {
    DigitOfSegments(a);
    DigitOfSegments(b);
  }

  /** The line of one segment in the box at (x, y) of the given size; the
      middle row is `y + Middle(height)`. */
  function SegmentLine(s: Segment, x: int, y: int, width: int, height: int, color: Rgb): (op: Op)
    ensures op.Line? && AxisAligned(op) && op.color == color
    ensures width >= 1 && height >= 1 ==> Within(op, x, x + width - 1, y, y + height - 1)
  {
    var m := y + Middle(height);
    match s
    case LeftUpper => Line(x, y, x, m, color)
    case LeftLower => Line(x, m, x, y + height - 1, color)
    case RightUpper => Line(x + width - 1, y, x + width - 1, m, color)
    case RightLower => Line(x + width - 1, m, x + width - 1, y + height - 1, color)
    case Top => Line(x, y, x + width - 1, y, color)
    case Bottom => Line(x, y + height - 1, x + width - 1, y + height - 1, color)
    case Centre => Line(x, m, x + width - 1, m, color)
  }

  /** The order in which `__digital_draw_digit` tests the segments. */
  const DrawOrder := [LeftUpper, LeftLower, RightUpper, RightLower, Top, Bottom, Centre]

  /** The lines for the lit segments of `order`, in that order. */
  function DrawSegments(order: seq<Segment>, lit: set<Segment>, x: int, y: int, width: int, height: int, color: Rgb): (ops: seq<Op>)
    ensures |ops| <= |order|
    ensures forall k :: 0 <= k < |ops| ==> AxisAligned(ops[k]) && ops[k].color == color
    ensures width >= 1 && height >= 1 ==>
      forall k :: 0 <= k < |ops| ==> Within(ops[k], x, x + width - 1, y, y + height - 1)
    ensures forall s :: s in order && s in lit ==> SegmentLine(s, x, y, width, height, color) in ops
  {
    if order == [] then []
    else
      var rest := DrawSegments(order[1..], lit, x, y, width, height, color);
      assert forall s :: s in order ==> s == order[0] || s in order[1..];
      if order[0] in lit then [SegmentLine(order[0], x, y, width, height, color)] + rest else rest
  }

  /** `__digital_draw_digit`. */
  function DigitOps(digit: int, x: int, y: int, width: int, height: int, color: Rgb): (ops: seq<Op>)
    ensures forall k :: 0 <= k < |ops| ==> AxisAligned(ops[k]) && ops[k].color == color
    ensures width >= 1 && height >= 1 ==>
      forall k :: 0 <= k < |ops| ==> Within(ops[k], x, x + width - 1, y, y + height - 1)
    ensures forall s :: s in Segments(digit) ==> SegmentLine(s, x, y, width, height, color) in ops
  {
    assert forall s: Segment :: s in DrawOrder by {
      forall s: Segment ensures s in DrawOrder {
        InDrawOrder(s);
      }
    }
    DrawSegments(DrawOrder, Segments(digit), x, y, width, height, color)
  }

  lemma InDrawOrder(s: Segment)
    ensures s in DrawOrder
  {
    match s
    case LeftUpper => assert DrawOrder[0] == s;
    case LeftLower => assert DrawOrder[1] == s;
    case RightUpper => assert DrawOrder[2] == s;
    case RightLower => assert DrawOrder[3] == s;
    case Top => assert DrawOrder[4] == s;
    case Bottom => assert DrawOrder[5] == s;
    case Centre => assert DrawOrder[6] == s;
  }

  // ------------------------------------------------------------ digital face

  /** `int(str(n).zfill(2)[i])` for i = 0, 1. */
  function TextDigits(n: int): Option<(int, int)> {
    DigitPair(PyText.ZFill(PyText.IntToString(n), 2))
  }

  /** `int(t[0])` and `int(t[1])`. */
  function DigitPair(t: string): Option<(int, int)>
    requires |t| >= 2
  {
    match (PyText.ParseInt([t[0]], 10), PyText.ParseInt([t[1]], 10))
    case (Some(a), Some(b)) => Some((a, b))
    case _ => None
  }

  /** The zero-padded text of a time field gives its tens and its units. */
  lemma TwoDigits(n: int)
    requires 0 <= n < 100
    ensures TextDigits(n) == Some((n / 10, n % 10))
  {
    var t := PyText.ZFill(PyText.IntToString(n), 2);
    var a, b := n / 10, n % 10;
    assert t == [PyText.DigitChar(a), PyText.DigitChar(b)] by {
      PaddedDigits(n);
    }
    assert [t[0]] == [PyText.DigitChar(a)] && [t[1]] == [PyText.DigitChar(b)];
    DigitCharParses(a);
    DigitCharParses(b);
  }

  /** The padded text of a number below 100 is its two digit characters. */
  lemma PaddedDigits(n: int)
    requires 0 <= n < 100
    ensures PyText.ZFill(PyText.IntToString(n), 2) == [PyText.DigitChar(n / 10), PyText.DigitChar(n % 10)]
  {
    var a, b := n / 10, n % 10;
    if n < 10 {
      SingleDigitText(n);
    } else {
      DoubleDigitText(n);
    }
    SingleDigitText(a);
    SingleDigitText(b);
  }

  /** One digit character parses back to its digit. */
  lemma DigitCharParses(d: int)
    requires 0 <= d < 10
    ensures PyText.ParseInt([PyText.DigitChar(d)], 10) == Some(d)
  {
    SingleDigitText(d);
    PyText.ParseIntToString(d);
  }

  lemma SingleDigitText(n: int)
    requires 0 <= n < 10
    ensures PyText.IntToString(n) == [PyText.DigitChar(n)]
    ensures PyText.ZFill(PyText.IntToString(n), 2) == PyText.IntToString(0) + PyText.IntToString(n)
  {
    assert PyText.NatDigits(n, 10) == [n];
    assert PyText.NatDigits(0, 10) == [0];
  }

  lemma DoubleDigitText(n: int)
    requires 10 <= n < 100
    ensures PyText.ZFill(PyText.IntToString(n), 2) == PyText.IntToString(n / 10) + PyText.IntToString(n % 10)
  {
    SingleDigitText(n / 10);
    SingleDigitText(n % 10);
    assert PyText.NatDigits(n / 10, 10) == [n / 10];
    assert PyText.NatDigits(n, 10) == [n / 10, n % 10];
    var ds := [n / 10, n % 10];
    assert PyText.DigitChars(ds) == [PyText.DigitChar(ds[0])] + PyText.DigitChars(ds[1..]);
    assert ds[1..] == [n % 10];
  }

  /** The digital layout for a matrix: the middle point, the character box
      and the left edges of the four digits. */
  datatype Layout = Layout(midX: int, midY: int, charWidth: int, charHeight: int,
                           hour1: int, hour2: int, minute1: int, minute2: int, dividerSpace: int)

  /** `__digital_create_clock_image`'s arithmetic: the character width is
      `int((mid_x - 1) / 2)`, the height two less than the matrix; the hours
      end left of the middle column and the minutes end at the right edge. */
  function DigitalLayout(width: nat, height: nat): Layout {
    var mx, my := Middle(width), Middle(height);
    var cw := TruncDiv(mx - 1, 2);
    var ch := height - 2;
    var h1 := mx - (2 * cw + 1);
    var m1 := width - (2 * cw + 1);
    Layout(mx, my, cw, ch, h1, h1 + cw + 1, m1, m1 + cw + 1, TruncDiv(ch, 4))
  }

  /** On a matrix at least seven wide and three high the four digits sit
      side by side with one free column between the two of each pair, the
      hours left of the middle column, the minutes right of it up to the
      right edge, all between rows 1 and `height - 2`; the two divider
      points are on the middle column inside the matrix. */
  lemma LayoutFits(width: nat, height: nat)
    requires width >= 7 && height >= 3
    ensures var l := DigitalLayout(width, height);
      && l.charWidth >= 1 && l.charHeight >= 1
      && 0 <= l.hour1 && l.hour2 == l.hour1 + l.charWidth + 1 && l.hour2 + l.charWidth - 1 < l.midX
      && l.midX < l.minute1 && l.minute2 == l.minute1 + l.charWidth + 1
      && l.minute2 + l.charWidth - 1 == width - 1
      && 1 + l.charHeight - 1 == height - 2
      && 0 <= l.midY - l.dividerSpace && l.midY + l.dividerSpace <= height - 1
  {
  }

  /** The divider is drawn when the seconds do not blink or the second is
      even. */
  predicate DividerShown(blinking: bool, second: int) {
    !blinking || second % 2 == 0
  }

  /** The colours of the digital face. */
  datatype Colors = Colors(background: Rgb, divider: Rgb, hour: Rgb, minute: Rgb)

  /** The four digits of `__digital_create_clock_image`, hours then
      minutes. */
  function DigitOpsOf(l: Layout, hour: int, minute: int, colors: Colors): (ops: seq<Op>)
    requires 0 <= hour < 100 && 0 <= minute < 100
  {
    TwoDigits(hour);
    TwoDigits(minute);
    var (h1, h2) := TextDigits(hour).value;
    var (m1, m2) := TextDigits(minute).value;
    DigitOps(h1, l.hour1, 1, l.charWidth, l.charHeight, colors.hour)
    + DigitOps(h2, l.hour2, 1, l.charWidth, l.charHeight, colors.hour)
    + DigitOps(m1, l.minute1, 1, l.charWidth, l.charHeight, colors.minute)
    + DigitOps(m2, l.minute2, 1, l.charWidth, l.charHeight, colors.minute)
  }

  /** No operation sets a pixel of column `col`. */
  ghost predicate OffColumn(ops: seq<Op>, col: int) {
    forall k, y :: 0 <= k < |ops| ==> !Covers(ops[k], col, y)
  }

  lemma WithinOffColumn(ops: seq<Op>, left: int, right: int, top: int, bottom: int, col: int)
    requires forall k :: 0 <= k < |ops| ==> Within(ops[k], left, right, top, bottom)
    requires col < left || right < col
    ensures OffColumn(ops, col)
  {
    forall k, y | 0 <= k < |ops|
      ensures !Covers(ops[k], col, y)
    {
      assert Within(ops[k], left, right, top, bottom);
    }
  }

  lemma OffColumnConcat(a: seq<Op>, b: seq<Op>, col: int)
    requires OffColumn(a, col) && OffColumn(b, col)
    ensures OffColumn(a + b, col)
  {
    forall k, y | 0 <= k < |a + b|
      ensures !Covers((a + b)[k], col, y)
    {
      if k >= |a| {
        assert (a + b)[k] == b[k - |a|];
      }
    }
  }

  /** A digit drawn left or right of a column leaves it alone. */
  lemma DigitOffColumn(digit: int, x: int, width: int, height: int, color: Rgb, col: int)
    requires width >= 1 && height >= 1 && (col < x || x + width - 1 < col)
    ensures OffColumn(DigitOps(digit, x, 1, width, height, color), col)
  {
    WithinOffColumn(DigitOps(digit, x, 1, width, height, color), x, x + width - 1, 1, height, col);
  }

  /** The digit operations stay off the middle column. */
  lemma DigitsBesideDivider(width: nat, height: nat, hour: int, minute: int, colors: Colors)
    requires width >= 7 && height >= 3 && 0 <= hour < 100 && 0 <= minute < 100
    ensures var l := DigitalLayout(width, height);
      OffColumn(DigitOpsOf(l, hour, minute, colors), l.midX)
  {
    var l := DigitalLayout(width, height);
    LayoutFits(width, height);
    TwoDigits(hour);
    TwoDigits(minute);
    var (h1, h2) := TextDigits(hour).value;
    var (m1, m2) := TextDigits(minute).value;
    var a := DigitOps(h1, l.hour1, 1, l.charWidth, l.charHeight, colors.hour);
    var b := DigitOps(h2, l.hour2, 1, l.charWidth, l.charHeight, colors.hour);
    var c := DigitOps(m1, l.minute1, 1, l.charWidth, l.charHeight, colors.minute);
    var d := DigitOps(m2, l.minute2, 1, l.charWidth, l.charHeight, colors.minute);
    DigitOffColumn(h1, l.hour1, l.charWidth, l.charHeight, colors.hour, l.midX);
    DigitOffColumn(h2, l.hour2, l.charWidth, l.charHeight, colors.hour, l.midX);
    DigitOffColumn(m1, l.minute1, l.charWidth, l.charHeight, colors.minute, l.midX);
    DigitOffColumn(m2, l.minute2, l.charWidth, l.charHeight, colors.minute, l.midX);
    OffColumnConcat(a, b, l.midX);
    OffColumnConcat(a + b, c, l.midX);
    OffColumnConcat(a + b + c, d, l.midX);
    assert DigitOpsOf(l, hour, minute, colors) == a + b + c + d;
  }

  /** `__digital_create_clock_image`: the four digits, then the two divider
      points when shown. */
  function DigitalOps(width: nat, height: nat, hour: int, minute: int, second: int,
                      blinking: bool, colors: Colors): (ops: seq<Op>)
    requires 0 <= hour < 100 && 0 <= minute < 100
  {
    var l := DigitalLayout(width, height);
    DigitOpsOf(l, hour, minute, colors)
    + (if DividerShown(blinking, second)
       then [Dot(l.midX, l.midY + l.dividerSpace, colors.divider), Dot(l.midX, l.midY - l.dividerSpace, colors.divider)]
       else [])
  }

  /** The divider pixels show the divider colour exactly when the divider is
      shown, and the background otherwise. */
  lemma DividerPixels(width: nat, height: nat, hour: int, minute: int, second: int, blinking: bool, colors: Colors)
    requires width >= 7 && height >= 3 && 0 <= hour < 100 && 0 <= minute < 100
    ensures var l := DigitalLayout(width, height);
      var img := Paint(DigitalOps(width, height, hour, minute, second, blinking, colors), width, height, colors.background);
      && 0 <= l.midX < width && 0 <= l.midY - l.dividerSpace && l.midY + l.dividerSpace < height
      && var shown := if DividerShown(blinking, second) then colors.divider else colors.background;
      && PixelIs(img, l.midX, l.midY + l.dividerSpace, shown)
      && PixelIs(img, l.midX, l.midY - l.dividerSpace, shown)
  {
    LayoutFits(width, height);
    DividerColors(width, height, hour, minute, second, blinking, colors);
  }

  /** Pixel (x, y) lies on the image and has colour `c`. */
  predicate PixelIs(img: Image, x: int, y: int, c: Rgb) {
    0 <= y < |img| && 0 <= x < |img[y]| && img[y][x] == c
  }

  /** The same at the level of the drawing operations. */
  lemma DividerColors(width: nat, height: nat, hour: int, minute: int, second: int, blinking: bool, colors: Colors)
    requires width >= 7 && height >= 3 && 0 <= hour < 100 && 0 <= minute < 100
    ensures var l := DigitalLayout(width, height);
      var ops := DigitalOps(width, height, hour, minute, second, blinking, colors);
      var shown := if DividerShown(blinking, second) then colors.divider else colors.background;
      && ColorAt(ops, l.midX, l.midY + l.dividerSpace, colors.background) == shown
      && ColorAt(ops, l.midX, l.midY - l.dividerSpace, colors.background) == shown
  {
    var l := DigitalLayout(width, height);
    LayoutFits(width, height);
    DigitsBesideDivider(width, height, hour, minute, colors);
    var digits := DigitOpsOf(l, hour, minute, colors);
    var ops := DigitalOps(width, height, hour, minute, second, blinking, colors);
    if DividerShown(blinking, second) {
      var k := |ops| - 1;
      assert Covers(ops[k], l.midX, l.midY - l.dividerSpace);
      assert Covers(ops[k - 1], l.midX, l.midY + l.dividerSpace);
      assert ColorAt(ops, l.midX, l.midY - l.dividerSpace, colors.background) == colors.divider;
      if l.dividerSpace != 0 {
        assert !Covers(ops[k], l.midX, l.midY + l.dividerSpace);
      }
      assert ColorAt(ops, l.midX, l.midY + l.dividerSpace, colors.background) == colors.divider;
    } else {
      assert ops == digits;
    }
  }

  /** The legacy layout: `(mid_x - 1) / 2` is true division, so the
      character width and the digit positions are reals. */
  function LegacyCharWidth(width: nat): real {
    (Middle(width) - 1) as real / 2.0
  }

  /** When `mid_x - 1` is even the legacy positions are the rewrite's; the
      divider space and the character height are the same in both. */
  lemma LegacyLayoutAgrees(width: nat, height: nat)
    requires (Middle(width) - 1) % 2 == 0
    ensures var l := DigitalLayout(width, height);
      var cw := LegacyCharWidth(width);
      && cw == l.charWidth as real
      && Middle(width) as real - (2.0 * cw + 1.0) == l.hour1 as real
      && width as real - (2.0 * cw + 1.0) == l.minute1 as real
  {
    var m := Middle(width);
    var k := TruncDiv(m - 1, 2);
    assert m - 1 == 2 * k;
    assert LegacyCharWidth(width) == k as real by {
      assert (m - 1) as real == 2.0 * k as real;
    }
    var l := DigitalLayout(width, height);
    assert l.charWidth == k && l.hour1 == m - (2 * k + 1) && l.minute1 == width - (2 * k + 1);
  }

  /** The legacy divider is shown on even seconds: the rewrite's rule with
      blinking seconds. */
  predicate LegacyDividerShown(second: int) {
    second % 2 == 0
  }

  lemma LegacyDividerBlinks(second: int)
    ensures LegacyDividerShown(second) <==> DividerShown(true, second)
    ensures DividerShown(false, second)
  {
  }

  // ------------------------------------------------------------ analog face

  /** The hand lengths: the long hand reaches `min(mid_x, mid_y) + 1`, the
      short hand half of that, rounded up. */
  function MaxHand(width: nat, height: nat): (n: int)
    ensures n == Min(Middle(width), Middle(height)) + 1
    ensures width >= 1 && height >= 1 ==> n >= 1
  {
    var a, b := Middle(width) + 1, Middle(height) + 1;
    if a <= b then a else b
  }

  function HourHand(width: nat, height: nat): (n: int)
    ensures 2 * n >= MaxHand(width, height) && 2 * n <= MaxHand(width, height) + 1
  {
    var m := MaxHand(width, height);
    if m % 2 == 0 then m / 2 else m / 2 + 1
  }

  /** `__analog_create_clock_image` with the hand end points given: the
      minute hand, the hour hand, then the centre point. */
  function AnalogOps(width: nat, height: nat, minutePoint: (int, int), hourPoint: (int, int), colors: Colors): (ops: seq<Op>)
    ensures |ops| == 3 && ops[2] == Dot(Middle(width), Middle(height), colors.divider)
  {
    var mx, my := Middle(width), Middle(height);
    [Line(mx, my, minutePoint.0, minutePoint.1, colors.minute),
     Line(mx, my, hourPoint.0, hourPoint.1, colors.hour),
     Dot(mx, my, colors.divider)]
  }

  datatype Variant = Analog | Digital

  /** The local time handed to the frame. */
  datatype Time = Time(hour: int, minute: int, second: int, minutePoint: (int, int), hourPoint: (int, int))

  predicate ValidTime(t: Time) {
    0 <= t.hour < 24 && 0 <= t.minute < 60 && 0 <= t.second < 62
  }

  /** The rewrite's clock thread: its variant, colours and frame queue. */
  class ClockAnimation {
    const width: nat
    const height: nat
    const variant: Option<Variant>
    const colors: Colors
    const blinking: bool
    /** The animation speed set, in milliseconds, if any. */
    const speed: Option<int>
    /** `_frame_queue`, as the drawing operations of each frame. */
    var queue: seq<seq<Op>>

    /** `__init__`: one frame a second for the analog face, ten for the
        digital one. */
    constructor (width: nat, height: nat, variant: Option<Variant>, colors: Colors, blinking: bool)
      ensures this.width == width && this.height == height && this.variant == variant
      ensures this.colors == colors && this.blinking == blinking && queue == []
      ensures speed == match variant case Some(Analog) => Some(1000) case Some(Digital) => Some(100) case None => None
    {
      this.width, this.height, this.variant, this.colors, this.blinking := width, height, variant, colors, blinking;
      speed := match variant case Some(Analog) => Some(1000) case Some(Digital) => Some(100) case None => None;
      queue := [];
    }

    /** `render_next_frame`: a frame for the current time is put and the
        clock runs on; without a variant nothing is put and it ends. */
    method RenderNextFrame(t: Time) returns (more: bool)
      requires ValidTime(t)
      modifies this`queue
      ensures more <==> variant.Some?
      ensures variant == Some(Analog) ==> queue == old(queue) + [AnalogOps(width, height, t.minutePoint, t.hourPoint, colors)]
      ensures variant == Some(Digital) ==>
        queue == old(queue) + [DigitalOps(width, height, t.hour, t.minute, t.second, blinking, colors)]
      ensures variant.None? ==> queue == old(queue)
    {
      match variant
      case Some(Analog) =>
        queue := queue + [AnalogOps(width, height, t.minutePoint, t.hourPoint, colors)];
        return true;
      case Some(Digital) =>
        queue := queue + [DigitalOps(width, height, t.hour, t.minute, t.second, blinking, colors)];
        return true;
      case None =>
        return false;
    }
  }
}
