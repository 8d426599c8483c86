/** The Blinkenlights (`.blm`) animation of both generations: the text
    file parser, the conversion of a text frame into pixels, the crop and
    pad that fit a frame to the matrix, the frame generators, the intrinsic
    duration and the checks on dynamically added and removed variant files.
    Reading the file is replaced by its lines; the file system by sets of
    resolved paths. */
module Blinkenlights {
  import opened Wrappers
  import PyText
  import DisplayBuffer
  import AnimationControl

  type Rgb = DisplayBuffer.Rgb
  type Image = DisplayBuffer.Image

  // ------------------------------------------------------------ the parser

  /** `_BlmFrame` (a dict with `hold` and `frame` in the legacy tree): the
      hold time in milliseconds and the rows of characters. */
  datatype TextFrame = TextFrame(hold: int, rows: seq<string>)

  /** The parser's accumulators: the frames found, the pending hold and
      the rows of the frame being read. */
  datatype Acc = Acc(frames: seq<TextFrame>, hold: int, frame: seq<string>)

  /** The frames with the pending frame appended, if it has rows. */
  function Flush(acc: Acc): (r: seq<TextFrame>)
    ensures acc.frame == [] ==> r == acc.frames
    ensures acc.frame != [] ==> r == acc.frames + [TextFrame(acc.hold, acc.frame)]
  {
    if acc.frame != [] then acc.frames + [TextFrame(acc.hold, acc.frame)] else acc.frames
  }

  /** A line the parser skips: empty once stripped, or a comment. */
  predicate Ignored(line: string) {
    var l := PyText.StripStr(line);
    l == [] || l[0] == '#'
  }

  /** One line: a comment or blank line is skipped; an `@` line flushes the
      pending frame and sets the hold to the number after the `@`
      (ValueError when it is none); any other line is a row of the pending
      frame. */
  function Feed(acc: Acc, line: string): Result<Acc> {
    var l := PyText.StripStr(line);
    if Ignored(line) then Ok(acc)
    else if l[0] == '@' then
      match PyText.ParseInt(l[1..], 10)
      case None => Err(ValueError)
      case Some(hold) => Ok(Acc(Flush(acc), hold, []))
    else Ok(acc.(frame := acc.frame + [l]))
  }

  function FeedAll(acc: Acc, lines: seq<string>): Result<Acc>
    decreases |lines|
  {
    if lines == [] then Ok(acc)
    else match Feed(acc, lines[0])
      case Ok(next) => FeedAll(next, lines[1..])
      case Err(e) => Err(e)
  }

  const Start := Acc([], 0, [])

  /** `__load_frames` / `load_frames`: the lines are fed in order, the last
      pending frame is flushed, and a file without frames raises
      AttributeError. */
  function Parse(lines: seq<string>): (r: Result<seq<TextFrame>>)
    ensures r.Ok? ==> r.value != []
  {
    match FeedAll(Start, lines)
    case Err(e) => Err(e)
    case Ok(acc) => if Flush(acc) == [] then Err(AttributeError) else Ok(Flush(acc))
  }

  /** Feeding a concatenation feeds the parts one after the other. */
  lemma {:induction false} FeedAllAppend(acc: Acc, a: seq<string>, b: seq<string>)
    ensures FeedAll(acc, a + b) ==
      match FeedAll(acc, a)
      case Ok(mid) => FeedAll(mid, b)
      case Err(e) => Err(e)
    decreases |a|
  {
    if a == [] {
      assert a + b == b;
    } else {
      assert (a + b)[0] == a[0] && (a + b)[1..] == a[1..] + b;
      match Feed(acc, a[0]) {
        case Ok(next) => FeedAllAppend(next, a[1..], b);
        case Err(e) =>
      }
    }
  }

  /** Comment and blank lines can be inserted anywhere without changing the
      result. */
  lemma IgnoredLineChangesNothing(pre: seq<string>, line: string, post: seq<string>)
    requires Ignored(line)
    ensures Parse(pre + [line] + post) == Parse(pre + post)
  {
    FeedAllAppend(Start, pre, [line] + post);
    FeedAllAppend(Start, pre, post);
    assert pre + [line] + post == pre + ([line] + post);
    match FeedAll(Start, pre) {
      case Ok(mid) =>
        assert ([line] + post)[0] == line && ([line] + post)[1..] == post;
      case Err(e) =>
    }
  }

  /** A frame row: stripped, not empty, neither a comment nor a hold. */
  predicate IsRow(row: string) {
    row != [] && row == PyText.StripStr(row) && row[0] != '#' && row[0] != '@'
  }

  /** Every frame found has at least one row, and every row is a row. */
  predicate GoodFrames(frames: seq<TextFrame>) {
    forall k :: 0 <= k < |frames| ==>
      frames[k].rows != [] && forall j :: 0 <= j < |frames[k].rows| ==> IsRow(frames[k].rows[j])
  }

  predicate GoodAcc(acc: Acc) {
    GoodFrames(acc.frames) && forall j :: 0 <= j < |acc.frame| ==> IsRow(acc.frame[j])
  }

  lemma StripIdempotent(s: string)
    ensures PyText.StripStr(PyText.StripStr(s)) == PyText.StripStr(s)
  {
    var t := PyText.StripStr(s);
    if t != [] {
      PyText.StripKeepsUnpadded(t, PyText.IsStrSpace);
    }
  }

  lemma FeedKeepsGood(acc: Acc, line: string)
    requires GoodAcc(acc)
    ensures Feed(acc, line).Ok? ==> GoodAcc(Feed(acc, line).value)
  {
    var l := PyText.StripStr(line);
    if !Ignored(line) {
      if l[0] == '@' {
        FlushKeepsGood(acc);
      } else {
        assert IsRow(l) by {
          StripIdempotent(line);
        }
        AppendRowKeepsGood(acc, l);
      }
    }
  }

  lemma FlushKeepsGood(acc: Acc)
    requires GoodAcc(acc)
    ensures GoodFrames(Flush(acc))
  {
    if acc.frame != [] {
      var f := Flush(acc);
      assert f[|acc.frames|] == TextFrame(acc.hold, acc.frame);
    }
  }

  lemma AppendRowKeepsGood(acc: Acc, l: string)
    requires GoodAcc(acc) && IsRow(l)
    ensures GoodAcc(acc.(frame := acc.frame + [l]))
  {
  }

  lemma {:induction false} FeedAllKeepsGood(acc: Acc, lines: seq<string>)
    requires GoodAcc(acc)
    ensures FeedAll(acc, lines).Ok? ==> GoodAcc(FeedAll(acc, lines).value)
    decreases |lines|
  {
    if lines != [] {
      FeedKeepsGood(acc, lines[0]);
      match Feed(acc, lines[0]) {
        case Ok(next) => FeedAllKeepsGood(next, lines[1..]);
        case Err(e) =>
      }
    }
  }

  /** What the parser returns is a non-empty list of frames of stripped,
      non-empty rows that are neither comments nor hold lines. */
  lemma ParsedFramesGood(lines: seq<string>)
    ensures Parse(lines).Ok? ==> |Parse(lines).value| >= 1 && GoodFrames(Parse(lines).value)
  {
    FeedAllKeepsGood(Start, lines);
  }

  /** A line without surrounding white space that starts with neither
      `#` nor `@` becomes a row of the pending frame. */
  lemma FeedRow(acc: Acc, line: string)
    requires IsRow(line)
    ensures Feed(acc, line) == Ok(acc.(frame := acc.frame + [line]))
  {
  }

  /** An `@` line with a decimal number flushes the pending frame and
      sets the hold. */
  lemma FeedHold(acc: Acc, hold: int)
    ensures Feed(acc, "@" + PyText.IntToString(hold)) == Ok(Acc(Flush(acc), hold, []))
  {
    var digits := PyText.IntToString(hold);
    var line := "@" + digits;
    PyText.ParseIntToString(hold);
    PyText.IntToStringEnds(hold);
    assert line[1..] == digits && line[|line| - 1] == digits[|digits| - 1];
    PyText.StripKeepsUnpadded(line, PyText.IsStrSpace);
  }

  /** The rows a run of lines without `@` lines contributes. */
  function RowsOf(lines: seq<string>): seq<string> {
    if lines == [] then []
    else RowOf(lines[0]) + RowsOf(lines[1..])
  }

  /** A line that `Feed` does not read as an `@` line. */
  predicate NotHold(line: string) {
    !Ignored(line) ==> PyText.StripStr(line)[0] != '@'
  }

  predicate NoHoldLine(lines: seq<string>) {
    forall k :: 0 <= k < |lines| ==> NotHold(lines[k])
  }

  /** What one line that is not an `@` line adds. */
  function RowOf(line: string): seq<string> {
    if Ignored(line) then [] else [PyText.StripStr(line)]
  }

  lemma FeedNoHold(acc: Acc, line: string)
    requires NotHold(line)
    ensures Feed(acc, line) == Ok(acc.(frame := acc.frame + RowOf(line)))
  {
    if Ignored(line) {
      assert acc.frame + [] == acc.frame;
    }
  }

  lemma FeedAllFirst(acc: Acc, lines: seq<string>, next: Acc)
    requires lines != [] && Feed(acc, lines[0]) == Ok(next)
    ensures FeedAll(acc, lines) == FeedAll(next, lines[1..])
  {
  }

  /** Lines without an `@` line only add rows to the pending frame. */
  lemma {:induction false} RowsAccumulate(acc: Acc, lines: seq<string>)
    requires NoHoldLine(lines)
    ensures FeedAll(acc, lines) == Ok(acc.(frame := acc.frame + RowsOf(lines)))
    decreases |lines|
  {
    if lines == [] {
      assert acc.frame + [] == acc.frame;
    } else {
      var next := acc.(frame := acc.frame + RowOf(lines[0]));
      assert Feed(acc, lines[0]) == Ok(next) by {
        assert NotHold(lines[0]);
        FeedNoHold(acc, lines[0]);
      }
      FeedAllFirst(acc, lines, next);
      assert NoHoldLine(lines[1..]) by {
        forall k | 0 <= k < |lines[1..]| ensures NotHold(lines[1..][k]) { assert lines[1..][k] == lines[k + 1]; }
      }
      RowsAccumulate(next, lines[1..]);
      assert next.frame + RowsOf(lines[1..]) == acc.frame + RowsOf(lines) by {
        RowsOfFirst(lines);
        AppendAssoc(acc.frame, RowOf(lines[0]), RowsOf(lines[1..]));
      }
    }
  }

  lemma RowsOfFirst(lines: seq<string>)
    requires lines != []
    ensures RowsOf(lines) == RowOf(lines[0]) + RowsOf(lines[1..])
  {
  }

  lemma AppendAssoc(a: seq<string>, b: seq<string>, c: seq<string>)
    ensures (a + b) + c == a + (b + c)
  {
  }


  /** A file without `@` lines is one frame with hold 0, or no frame at all
      (AttributeError) when it has no rows. */
  lemma NoHoldLinesOneFrame(lines: seq<string>)
    requires NoHoldLine(lines)
    ensures RowsOf(lines) == [] ==> Parse(lines) == Err(AttributeError)
    ensures RowsOf(lines) != [] ==> Parse(lines) == Ok([TextFrame(0, RowsOf(lines))])
  {
    var rows := RowsOf(lines);
    assert FeedAll(Start, lines) == Ok(Acc([], 0, rows)) by {
      RowsAccumulate(Start, lines);
      assert [] + rows == rows;
    }
    if rows != [] {
      assert Flush(Acc([], 0, rows)) == [TextFrame(0, rows)];
    }
  }

  /** The parsing loop of `__load_frames` / `load_frames`. */
  method LoadFrames(lines: seq<string>) returns (r: Result<seq<TextFrame>>)
    ensures r == Parse(lines)
  {
    var blmFrames: seq<TextFrame> := [];
    var hold := 0;
    var frame: seq<string> := [];
    var k := 0;
    while k < |lines|
      invariant 0 <= k <= |lines|
      invariant FeedAll(Start, lines) == FeedAll(Acc(blmFrames, hold, frame), lines[k..])
    {
      assert lines[k..][0] == lines[k] && lines[k..][1..] == lines[k + 1..];
      var line := PyText.StripStr(lines[k]);
      k := k + 1;
      if |line| > 0 && line[0] == '#' {
        continue;
      }
      if |line| > 0 && line[0] == '@' {
        if |frame| > 0 {
          blmFrames := blmFrames + [TextFrame(hold, frame)];
        }
        var parsed := PyText.ParseInt(line[1..], 10);
        if parsed.None? {
          return Err(ValueError);
        }
        hold := parsed.value;
        frame := [];
        continue;
      }
      if |line| > 0 {
        frame := frame + [line];
      }
    }
    assert lines[k..] == [];
    if |frame| > 0 {
      blmFrames := blmFrames + [TextFrame(hold, frame)];
    }
    if |blmFrames| == 0 {
      return Err(AttributeError);
    }
    return Ok(blmFrames);
  }

  // ------------------------------------------------------------ duration

  /** The sum of the holds, in milliseconds. */
  function TotalHold(frames: seq<TextFrame>): int {
    if frames == [] then 0 else TotalHold(frames[..|frames| - 1]) + frames[|frames| - 1].hold
  }

  /** The total of a concatenation is the sum of the totals. */
  lemma {:induction false} TotalHoldAppend(a: seq<TextFrame>, b: seq<TextFrame>)
    ensures TotalHold(a + b) == TotalHold(a) + TotalHold(b)
    decreases |b|
  {
    if b == [] {
      assert a + b == a;
    } else {
      assert (a + b)[..|a + b| - 1] == a + b[..|b| - 1];
      TotalHoldAppend(a, b[..|b| - 1]);
    }
  }

  /** `intrinsic_duration`, in milliseconds rather than seconds. */
  method IntrinsicDuration(frames: seq<TextFrame>) returns (ms: int)
    ensures ms == TotalHold(frames)
    ensures (forall k :: 0 <= k < |frames| ==> frames[k].hold >= 0) ==> ms >= 0
  {
    ms := 0;
    var k := 0;
    while k < |frames|
      invariant 0 <= k <= |frames| && ms == TotalHold(frames[..k])
      invariant (forall j :: 0 <= j < |frames| ==> frames[j].hold >= 0) ==> ms >= 0
    {
      assert frames[..k + 1][..k] == frames[..k];
      ms := ms + frames[k].hold;
      k := k + 1;
    }
    assert frames[..k] == frames;
  }

  // ------------------------------------------------------------ pixels

  /** The animation's colours: `foregound_color`, `background_color` and
      `padding_color`. */
  datatype Colors = Colors(foreground: Rgb, background: Rgb, padding: Rgb)

  const DefaultColors := Colors(DisplayBuffer.Rgb(255, 255, 255), DisplayBuffer.Rgb(10, 10, 10),
                                DisplayBuffer.Rgb(60, 60, 60))

  /** `np.array(text_frame, dtype=np.uint8)` succeeds: all rows are equally
      long and every character is a decimal digit. */
  predicate Convertible(rows: seq<string>) {
    && (forall i :: 0 <= i < |rows| ==> |rows[i]| == |rows[0]|)
    && (forall i, j :: 0 <= i < |rows| && 0 <= j < |rows[i]| ==> '0' <= rows[i][j] <= '9')
  }

  /** A converted value after the two `putmask` calls: 1 is the foreground,
      0 the background, any other digit its own grey. */
  function Shade(c: char, colors: Colors): Rgb
    requires '0' <= c <= '9'
  {
    if c == '1' then colors.foreground
    else if c == '0' then colors.background
    else var v := (c as int - '0' as int) as bv8; DisplayBuffer.Rgb(v, v, v)
  }

  /** The coloured frame before it is fitted to the matrix. */
  function Colored(rows: seq<string>, colors: Colors): (img: Image)
    requires rows != [] && Convertible(rows)
    ensures DisplayBuffer.IsRect(img, |rows|, |rows[0]|)
    ensures forall i, j :: 0 <= i < |rows| && 0 <= j < |rows[0]| ==> img[i][j] == Shade(rows[i][j], colors)
  {
    seq(|rows|, i requires 0 <= i < |rows| =>
      seq(|rows[0]|, j requires 0 <= j < |rows[0]| => Shade(rows[i][j], colors)))
  }

  // ------------------------------------------------------------ fitting

  function Abs(x: int): nat {
    if x < 0 then -x else x
  }

  /** `(abs(d // 2), abs(d) - abs(d // 2))`: the rows (or columns) cut or
      added before and after. An odd surplus loses its extra row at the
      end; an odd shortfall gains its extra row at the start. */
  function Offsets(d: int): (o: (nat, nat))
    ensures o.0 + o.1 == Abs(d)
    ensures d > 0 ==> o.1 >= 1 && o.0 <= o.1 <= o.0 + 1
    ensures d <= 0 ==> o.1 <= o.0 <= o.1 + 1
  {
    var a := Abs(d / 2);
    (a, Abs(d) - a)
  }

  /** Where the frame's first row (column) lands on the matrix: above it
      when cropping, below the padding when padding. */
  function Shift(d: int): int {
    var o: int := Offsets(d).0;
    if d > 0 then -o else o
  }

  /** The pixel of the matrix at (y, x) for the frame moved by (dy, dx) on
      a background of `pad`. */
  function Placed(img: Image, h: nat, w: nat, dy: int, dx: int, pad: Rgb, y: int, x: int): Rgb
    requires DisplayBuffer.IsRect(img, h, w)
  {
    if 0 <= y - dy < h && 0 <= x - dx < w then img[y - dy][x - dx] else pad
  }

  /** The intended fit: an `h` by `w` frame centred on the `height` by
      `width` matrix, cut where it is larger and padded where smaller. */
  function Fit(img: Image, h: nat, w: nat, height: nat, width: nat, pad: Rgb): (r: Image)
    requires DisplayBuffer.IsRect(img, h, w)
    ensures DisplayBuffer.IsRect(r, height, width)
  {
    var dy, dx := Shift(h - height), Shift(w - width);
    seq(height, y => seq(width, x => Placed(img, h, w, dy, dx, pad, y, x)))
  }

  /** A centred fit: a frame at least as large as the matrix covers it
      completely; a smaller one is framed by padding that differs by at most
      one row on either side. */
  lemma FitCentres(img: Image, h: nat, w: nat, height: nat, width: nat, pad: Rgb)
    requires DisplayBuffer.IsRect(img, h, w)
    ensures h >= height ==> Shift(h - height) <= 0 && height - Shift(h - height) <= h
    ensures h < height ==>
      var above := Shift(h - height);
      above + h <= height && height - h - above <= above <= height - h - above + 1
  {
  }

  lemma SameImage(a: Image, b: Image, height: nat, width: nat)
    requires DisplayBuffer.IsRect(a, height, width) && DisplayBuffer.IsRect(b, height, width)
    requires forall y, x :: 0 <= y < height && 0 <= x < width ==> a[y][x] == b[y][x]
    ensures a == b
  {
    forall y | 0 <= y < height
      ensures a[y] == b[y]
    {
    }
  }

  /** `array[top:-bottom, :, :]` with `bottom >= 1`. */
  function CropRows(img: Image, top: nat, bottom: nat): (r: Image)
    requires top + bottom <= |img|
    ensures |r| == |img| - top - bottom && forall y :: 0 <= y < |r| ==> r[y] == img[top + y]
  {
    img[top..|img| - bottom]
  }

  /** `array[:, left:-right, :]` with `right >= 1`. */
  function CropCols(img: Image, w: nat, left: nat, right: nat): (r: Image)
    requires DisplayBuffer.IsRect(img, |img|, w) && left + right <= w
    ensures DisplayBuffer.IsRect(r, |img|, w - left - right)
    ensures forall y, x :: 0 <= y < |img| && 0 <= x < w - left - right ==> r[y][x] == img[y][left + x]
  {
    seq(|img|, y requires 0 <= y < |img| => img[y][left..w - right])
  }

  /** The rows the rewrite keeps: the centred `height` rows of a frame
      that is higher than the matrix, the whole frame otherwise. */
  function KeptRows(img: Image, h: nat, w: nat, height: nat): (r: Image)
    requires DisplayBuffer.IsRect(img, h, w)
    ensures DisplayBuffer.IsRect(r, |r|, w)
    ensures h <= height ==> r == img
    ensures h >= height ==> |r| == height && forall y :: 0 <= y < height ==> r[y] == img[Offsets(h - height).0 + y]
  {
    var (top, bottom) := Offsets(h - height);
    if h > height then CropRows(img, top, bottom) else img
  }

  /** The columns the rewrite keeps, the same across. */
  function KeptCols(img: Image, h: nat, w: nat, width: nat): (r: Image)
    requires DisplayBuffer.IsRect(img, h, w)
    ensures w <= width ==> r == img
    ensures w >= width ==> (DisplayBuffer.IsRect(r, h, width) &&
      forall y, x :: 0 <= y < h && 0 <= x < width ==> r[y][x] == img[y][Offsets(w - width).0 + x])
  {
    var (left, right) := Offsets(w - width);
    if w > width then CropCols(img, w, left, right) else img
  }

  /** `np.full((height, width, 3), padding)` with `pad[top:h+top, :, :] =
      array`: NumPy broadcasts the frame into the rows only when it is as
      wide as the matrix or one pixel wide, and raises ValueError otherwise. */
  function PasteRows(img: Image, w: nat, height: nat, width: nat, top: nat, pad: Rgb): (r: Result<Image>)
    requires DisplayBuffer.IsRect(img, |img|, w) && top + |img| <= height
    ensures r.Ok? <==> w == width || w == 1
    ensures r.Ok? ==> DisplayBuffer.IsRect(r.value, height, width)
    ensures r.Ok? ==> forall y, x :: 0 <= y < height && 0 <= x < width ==>
      r.value[y][x] == if top <= y < top + |img| then img[y - top][if w == 1 then 0 else x] else pad
  {
    if w != width && w != 1 then Err(ValueError)
    else Ok(seq(height, y requires 0 <= y < height => seq(width, x requires 0 <= x < width =>
      if top <= y < top + |img| then img[y - top][if w == 1 then 0 else x] else pad)))
  }

  /** `np.full((height, width, 3), padding)` with `pad[:, left:w+left, :] =
      array`: the slot is cut at the right edge, and the frame must be as
      high as the matrix (or one row) and as wide as the slot (or one
      column). */
  function PasteCols(img: Image, w: nat, height: nat, width: nat, left: nat, pad: Rgb): (r: Result<Image>)
    requires DisplayBuffer.IsRect(img, |img|, w) && left <= width
    ensures r.Ok? <==> (|img| == height || |img| == 1) && (w == Slot(w, width, left) || w == 1)
    ensures r.Ok? ==> (DisplayBuffer.IsRect(r.value, height, width) &&
      forall y, x :: 0 <= y < height && 0 <= x < width ==>
        r.value[y][x] == SlotPixel(img, w, left, Slot(w, width, left), pad, y, x))
  {
    var slot := Slot(w, width, left);
    if !((|img| == height || |img| == 1) && (w == slot || w == 1)) then Err(ValueError)
    else Ok(seq(height, y requires 0 <= y < height => seq(width, x requires 0 <= x < width =>
      SlotPixel(img, w, left, slot, pad, y, x))))
  }

  /** The width of the slot `left:w+left` once it is cut at the right edge. */
  function Slot(w: nat, width: nat, left: nat): nat
    requires left <= width
  {
    (if w + left < width then w + left else width) - left
  }

  /** The pixel the column paste leaves at (y, x): the frame, broadcast
      along a single row or column, inside the slot, the padding outside. */
  function SlotPixel(img: Image, w: nat, left: nat, slot: nat, pad: Rgb, y: nat, x: nat): Rgb
    requires DisplayBuffer.IsRect(img, |img|, w) && (|img| == 1 || y < |img|) && (w == slot || w == 1)
  {
    if left <= x < left + slot then img[if |img| == 1 then 0 else y][if w == 1 then 0 else x - left]
    else pad
  }


  /** The rewrite's fit (`__rendered_frames`): crop the rows, crop the
      columns, then paste into a padded matrix for the rows and again for
      the columns. */
  function FitAsWritten(img: Image, h: nat, w: nat, height: nat, width: nat, pad: Rgb): Result<Image>
    requires DisplayBuffer.IsRect(img, h, w)
  {
    var top := Offsets(h - height).0;
    var left := Offsets(w - width).0;
    var rows := KeptRows(img, h, w, height);
    var w1 := if w > width then width else w;
    var cut := KeptCols(rows, |rows|, w, width);
    var tall := if h < height then PasteRows(cut, w1, height, width, top, pad) else Ok(cut);
    match tall
    case Err(e) => Err(e)
    case Ok(t) =>
      if w < width then PasteCols(t, if h < height then width else w1, height, width, left, pad)
      else Ok(t)
  }

  /** As written, a frame smaller than the matrix in both directions
      cannot be placed: the row paste needs the full width, and a one
      pixel wide frame broadcast to it no longer fits the column slot.
      Every other frame gets the intended fit. */
  lemma FitAsWrittenFails(img: Image, h: nat, w: nat, height: nat, width: nat, pad: Rgb)
    requires DisplayBuffer.IsRect(img, h, w) && h >= 1 && w >= 1
    ensures FitAsWritten(img, h, w, height, width, pad).Err? <==> h < height && w < width
    ensures FitAsWritten(img, h, w, height, width, pad).Ok? ==>
      FitAsWritten(img, h, w, height, width, pad).value == Fit(img, h, w, height, width, pad)
  {
    if h < height && w < width {
      FitPadBoth(img, h, w, height, width, pad);
    } else if h >= height && w >= width {
      FitCropBoth(img, h, w, height, width, pad);
    } else if h >= height {
      FitCropRowsPadCols(img, h, w, height, width, pad);
    } else {
      FitPadRowsCropCols(img, h, w, height, width, pad);
    }
  }

  lemma ShiftOffset(d: int)
    ensures d >= 0 ==> Shift(d) == -(Offsets(d).0 as int)
    ensures d < 0 ==> Shift(d) == Offsets(d).0 && Offsets(d).0 >= 1
  {
  }

  lemma FitPixel(img: Image, h: nat, w: nat, height: nat, width: nat, pad: Rgb, y: nat, x: nat)
    requires DisplayBuffer.IsRect(img, h, w) && y < height && x < width
    ensures Fit(img, h, w, height, width, pad)[y][x] ==
      Placed(img, h, w, Shift(h - height), Shift(w - width), pad, y, x)
  {
  }

  lemma FitPadBoth(img: Image, h: nat, w: nat, height: nat, width: nat, pad: Rgb)
    requires DisplayBuffer.IsRect(img, h, w) && 1 <= h < height && 1 <= w < width
    ensures FitAsWritten(img, h, w, height, width, pad).Err?
  {
    var top := Offsets(h - height).0;
    ShiftOffset(w - width);
    if w == 1 {
      var t := PasteRows(img, w, height, width, top, pad);
      assert t.Ok? && |t.value| == height;
    }
  }

  lemma FitCropBoth(img: Image, h: nat, w: nat, height: nat, width: nat, pad: Rgb)
    requires DisplayBuffer.IsRect(img, h, w) && h >= height && w >= width
    ensures FitAsWritten(img, h, w, height, width, pad) == Ok(Fit(img, h, w, height, width, pad))
  {
    var cut := KeptCols(KeptRows(img, h, w, height), height, w, width);
    CropBothIsFit(img, h, w, height, width, pad);
    assert FitAsWritten(img, h, w, height, width, pad) == Ok(cut);
  }

  /** Keeping the centred rows and then the centred columns of a frame at
      least as large as the matrix gives the intended fit. */
  lemma CropBothIsFit(img: Image, h: nat, w: nat, height: nat, width: nat, pad: Rgb)
    requires DisplayBuffer.IsRect(img, h, w) && h >= height && w >= width
    ensures KeptCols(KeptRows(img, h, w, height), height, w, width) == Fit(img, h, w, height, width, pad)
  {
    var cut := KeptCols(KeptRows(img, h, w, height), height, w, width);
    CropBothPixels(img, h, w, height, width);
    CroppedIsFit(img, h, w, height, width, pad, cut);
  }

  lemma CropBothPixels(img: Image, h: nat, w: nat, height: nat, width: nat)
    requires DisplayBuffer.IsRect(img, h, w) && h >= height && w >= width
    ensures var cut := KeptCols(KeptRows(img, h, w, height), height, w, width);
      DisplayBuffer.IsRect(cut, height, width) &&
      forall y, x :: 0 <= y < height && 0 <= x < width ==>
        cut[y][x] == img[Offsets(h - height).0 + y][Offsets(w - width).0 + x]
  {
    var top, left := Offsets(h - height).0, Offsets(w - width).0;
    var rows := KeptRows(img, h, w, height);
    var cut := KeptCols(rows, height, w, width);
    assert top + height <= h && left + width <= w by {
      assert Offsets(h - height).0 + Offsets(h - height).1 == h - height;
      assert Offsets(w - width).0 + Offsets(w - width).1 == w - width;
    }
    forall y, x | 0 <= y < height && 0 <= x < width
      ensures cut[y][x] == img[top + y][left + x]
    {
      assert cut[y][x] == rows[y][left + x];
    }
  }


  /** The centred part of a frame at least as large as the matrix is the
      intended fit. */
  lemma CroppedIsFit(img: Image, h: nat, w: nat, height: nat, width: nat, pad: Rgb, cut: Image)
    requires DisplayBuffer.IsRect(img, h, w) && h >= height && w >= width
    requires DisplayBuffer.IsRect(cut, height, width)
    requires forall y, x :: 0 <= y < height && 0 <= x < width ==>
      cut[y][x] == img[Offsets(h - height).0 + y][Offsets(w - width).0 + x]
    ensures cut == Fit(img, h, w, height, width, pad)
  {
    var fit := Fit(img, h, w, height, width, pad);
    forall y, x | 0 <= y < height && 0 <= x < width ensures cut[y][x] == fit[y][x] {
      CropPixel(img, h, w, height, width, pad, y, x);
    }
    SameImage(cut, fit, height, width);
  }

  /** The rows kept when a frame is at least as high as the matrix. */
  /** Cropping in both directions keeps the centred part of the frame. */
  lemma CropPixel(img: Image, h: nat, w: nat, height: nat, width: nat, pad: Rgb, y: nat, x: nat)
    requires DisplayBuffer.IsRect(img, h, w) && h >= height && w >= width && y < height && x < width
    ensures img[Offsets(h - height).0 + y][Offsets(w - width).0 + x] == Fit(img, h, w, height, width, pad)[y][x]
  {
    ShiftOffset(h - height);
    ShiftOffset(w - width);
    FitPixel(img, h, w, height, width, pad, y, x);
  }

  lemma FitCropRowsPadCols(img: Image, h: nat, w: nat, height: nat, width: nat, pad: Rgb)
    requires DisplayBuffer.IsRect(img, h, w) && h >= height && w < width
    ensures FitAsWritten(img, h, w, height, width, pad) == Ok(Fit(img, h, w, height, width, pad))
  {
    var left := Offsets(w - width).0;
    var rows := KeptRows(img, h, w, height);
    var r := PasteCols(rows, w, height, width, left, pad);
    assert FitAsWritten(img, h, w, height, width, pad) == r;
    CropRowsPadColsPixels(img, h, w, height, width, pad);
    SameImage(r.value, Fit(img, h, w, height, width, pad), height, width);
  }

  lemma CropRowsPadColsPixels(img: Image, h: nat, w: nat, height: nat, width: nat, pad: Rgb)
    requires DisplayBuffer.IsRect(img, h, w) && h >= height && w < width
    ensures var rows := KeptRows(img, h, w, height);
      var r := PasteCols(rows, w, height, width, Offsets(w - width).0, pad);
      && r.Ok? && DisplayBuffer.IsRect(r.value, height, width)
      && forall y, x :: 0 <= y < height && 0 <= x < width ==>
           r.value[y][x] == Fit(img, h, w, height, width, pad)[y][x]
  {
    var rows := KeptRows(img, h, w, height);
    ShiftOffset(h - height);
    ShiftOffset(w - width);
    var r := PasteCols(rows, w, height, width, Offsets(w - width).0, pad);
    assert r.Ok?;
    forall y, x | 0 <= y < height && 0 <= x < width
      ensures r.value[y][x] == Fit(img, h, w, height, width, pad)[y][x]
    {
      FitPixel(img, h, w, height, width, pad, y, x);
    }
  }

  lemma FitPadRowsCropCols(img: Image, h: nat, w: nat, height: nat, width: nat, pad: Rgb)
    requires DisplayBuffer.IsRect(img, h, w) && h < height && w >= width
    ensures FitAsWritten(img, h, w, height, width, pad) == Ok(Fit(img, h, w, height, width, pad))
  {
    var top := Offsets(h - height).0;
    var cut := KeptCols(img, h, w, width);
    var r := PasteRows(cut, width, height, width, top, pad);
    assert FitAsWritten(img, h, w, height, width, pad) == r;
    PadRowsCropColsPixels(img, h, w, height, width, pad);
    SameImage(r.value, Fit(img, h, w, height, width, pad), height, width);
  }

  lemma PadRowsCropColsPixels(img: Image, h: nat, w: nat, height: nat, width: nat, pad: Rgb)
    requires DisplayBuffer.IsRect(img, h, w) && h < height && w >= width
    ensures var cut := KeptCols(img, h, w, width);
      var r := PasteRows(cut, width, height, width, Offsets(h - height).0, pad);
      && r.Ok? && DisplayBuffer.IsRect(r.value, height, width)
      && forall y, x :: 0 <= y < height && 0 <= x < width ==>
           r.value[y][x] == Fit(img, h, w, height, width, pad)[y][x]
  {
    var cut := KeptCols(img, h, w, width);
    var r := PasteRows(cut, width, height, width, Offsets(h - height).0, pad);
    forall y, x | 0 <= y < height && 0 <= x < width
      ensures r.value[y][x] == Fit(img, h, w, height, width, pad)[y][x]
    {
      PadRowsCropColsPixel(img, h, w, height, width, pad, cut, y, x);
    }
  }

  lemma PadRowsCropColsPixel(img: Image, h: nat, w: nat, height: nat, width: nat, pad: Rgb,
                             cut: Image, y: nat, x: nat)
    requires DisplayBuffer.IsRect(img, h, w) && h < height && w >= width && y < height && x < width
    requires DisplayBuffer.IsRect(cut, h, width)
    requires forall y', x' :: 0 <= y' < h && 0 <= x' < width ==> cut[y'][x'] == img[y'][Offsets(w - width).0 + x']
    ensures var r := PasteRows(cut, width, height, width, Offsets(h - height).0, pad);
      r.Ok? && r.value[y][x] == Fit(img, h, w, height, width, pad)[y][x]
  {
    ShiftOffset(h - height);
    ShiftOffset(w - width);
    FitPixel(img, h, w, height, width, pad, y, x);
  }

  /** `np.pad` of the rows: `top` and `bottom` rows of padding. */
  function PadRows(img: Image, w: nat, top: nat, bottom: nat, pad: Rgb): (r: Image)
    requires DisplayBuffer.IsRect(img, |img|, w)
    ensures DisplayBuffer.IsRect(r, top + |img| + bottom, w)
    ensures forall y, x :: 0 <= y < |r| && 0 <= x < w ==>
      r[y][x] == if top <= y < top + |img| then img[y - top][x] else pad
  {
    seq(top + |img| + bottom, y requires 0 <= y < top + |img| + bottom =>
      if top <= y < top + |img| then img[y - top] else seq(w, _ => pad))
  }

  /** `np.pad` of the columns: `left` and `right` columns of padding. */
  function PadCols(img: Image, w: nat, left: nat, right: nat, pad: Rgb): (r: Image)
    requires DisplayBuffer.IsRect(img, |img|, w)
    ensures DisplayBuffer.IsRect(r, |img|, left + w + right)
    ensures forall y, x :: 0 <= y < |r| && 0 <= x < left + w + right ==>
      r[y][x] == if left <= x < left + w then img[y][x - left] else pad
  {
    seq(|img|, y requires 0 <= y < |img| =>
      seq(left + w + right, x requires 0 <= x < left + w + right =>
        if left <= x < left + w then img[y][x - left] else pad))
  }

  /** The legacy row step: pad with `np.pad` or crop, so the frame lands
      `Shift` rows down. */
  function LegacyRows(img: Image, h: nat, w: nat, height: nat, pad: Rgb): (r: Image)
    requires DisplayBuffer.IsRect(img, h, w)
    ensures DisplayBuffer.IsRect(r, height, w)
    ensures forall y, x :: 0 <= y < height && 0 <= x < w ==>
      r[y][x] == if 0 <= y - Shift(h - height) < h then img[y - Shift(h - height)][x] else pad
  {
    var (top, bottom) := Offsets(h - height);
    ShiftOffset(h - height);
    if h < height then PadRows(img, w, top, bottom, pad)
    else if h > height then CropRows(img, top, bottom) else img
  }

  /** The legacy column step, the same across. */
  function LegacyCols(img: Image, w: nat, width: nat, pad: Rgb): (r: Image)
    requires DisplayBuffer.IsRect(img, |img|, w)
    ensures DisplayBuffer.IsRect(r, |img|, width)
    ensures forall y, x :: 0 <= y < |img| && 0 <= x < width ==>
      r[y][x] == if 0 <= x - Shift(w - width) < w then img[y][x - Shift(w - width)] else pad
  {
    var (left, right) := Offsets(w - width);
    ShiftOffset(w - width);
    if w < width then PadCols(img, w, left, right, pad)
    else if w > width then CropCols(img, w, left, right) else img
  }

  /** The legacy fit (`rendered_frames`): each direction is padded with
      `np.pad` or cropped on its own, so every frame gets the centred fit. */
  function FitLegacy(img: Image, h: nat, w: nat, height: nat, width: nat, pad: Rgb): (r: Image)
    requires DisplayBuffer.IsRect(img, h, w)
    ensures r == Fit(img, h, w, height, width, pad)
  {
    LegacyFitsCentred(img, h, w, height, width, pad);
    LegacyCols(LegacyRows(img, h, w, height, pad), w, width, pad)
  }

  lemma LegacyFitsCentred(img: Image, h: nat, w: nat, height: nat, width: nat, pad: Rgb)
    requires DisplayBuffer.IsRect(img, h, w)
    ensures LegacyCols(LegacyRows(img, h, w, height, pad), w, width, pad) == Fit(img, h, w, height, width, pad)
  {
    var rows := LegacyRows(img, h, w, height, pad);
    ComposeFit(img, h, w, height, width, pad, rows, LegacyCols(rows, w, width, pad));
  }

  /** Shifting the rows and then the columns places the frame as `Fit` does. */
  lemma ComposeFit(img: Image, h: nat, w: nat, height: nat, width: nat, pad: Rgb, rows: Image, r: Image)
    requires DisplayBuffer.IsRect(img, h, w)
    requires DisplayBuffer.IsRect(rows, height, w) && DisplayBuffer.IsRect(r, height, width)
    requires forall y, x :: 0 <= y < height && 0 <= x < w ==>
      rows[y][x] == if 0 <= y - Shift(h - height) < h then img[y - Shift(h - height)][x] else pad
    requires forall y, x :: 0 <= y < height && 0 <= x < width ==>
      r[y][x] == if 0 <= x - Shift(w - width) < w then rows[y][x - Shift(w - width)] else pad
    ensures r == Fit(img, h, w, height, width, pad)
  {
    var fit := Fit(img, h, w, height, width, pad);
    forall y, x | 0 <= y < height && 0 <= x < width ensures r[y][x] == fit[y][x] {
      FitPixel(img, h, w, height, width, pad, y, x);
      var dy, dx := Shift(h - height), Shift(w - width);
      if 0 <= x - dx < w {
        assert r[y][x] == rows[y][x - dx];
        assert rows[y][x - dx] == if 0 <= y - dy < h then img[y - dy][x - dx] else pad;
      } else {
        assert r[y][x] == pad;
      }
    }
    SameImage(r, fit, height, width);
  }

  // ------------------------------------------------------------ frames

  /** A parsed frame has a first row with a first character. */
  predicate Shaped(f: TextFrame) {
    f.rows != [] && f.rows[0] != []
  }

  lemma GoodFramesShaped(frames: seq<TextFrame>)
    requires GoodFrames(frames)
    ensures forall k :: 0 <= k < |frames| ==> Shaped(frames[k])
  {
    forall k | 0 <= k < |frames| ensures Shaped(frames[k]) {
      assert IsRow(frames[k].rows[0]);
    }
  }

  /** The rewrite's frame: an unconvertible frame never gets its `frame`
      attribute, so reading it raises AttributeError; otherwise it is
      coloured and fitted as written. */
  function RenderedFrame(f: TextFrame, colors: Colors, height: nat, width: nat): Result<Image>
    requires Shaped(f)
  {
    if !Convertible(f.rows) then Err(AttributeError)
    else FitAsWritten(Colored(f.rows, colors), |f.rows|, |f.rows[0]|, height, width, colors.padding)
  }

  /** The rewrite renders a frame exactly when it converts and is not
      smaller than the matrix in both directions, and then it is the
      centred fit. */
  lemma RenderedFrameSpec(f: TextFrame, colors: Colors, height: nat, width: nat)
    requires Shaped(f)
    ensures RenderedFrame(f, colors, height, width).Ok? <==>
      Convertible(f.rows) && !(|f.rows| < height && |f.rows[0]| < width)
    ensures RenderedFrame(f, colors, height, width).Ok? ==>
      RenderedFrame(f, colors, height, width).value ==
        Fit(Colored(f.rows, colors), |f.rows|, |f.rows[0]|, height, width, colors.padding)
  {
    if Convertible(f.rows) {
      FitAsWrittenFails(Colored(f.rows, colors), |f.rows|, |f.rows[0]|, height, width, colors.padding);
    }
  }

  /** The legacy frame: an unconvertible frame is skipped. */
  function LegacyFrame(f: TextFrame, colors: Colors, height: nat, width: nat): (r: Option<Image>)
    requires Shaped(f)
    ensures r.Some? <==> Convertible(f.rows)
    ensures r.Some? ==> DisplayBuffer.IsRect(r.value, height, width)
  {
    if !Convertible(f.rows) then None
    else Some(FitLegacy(Colored(f.rows, colors), |f.rows|, |f.rows[0]|, height, width, colors.padding))
  }

  predicate AllShaped(frames: seq<TextFrame>) {
    forall k :: 0 <= k < |frames| ==> Shaped(frames[k])
  }

  /** One pass of the legacy `rendered_frames`: the hold and image of every
      frame that converts, in order. */
  function LegacyPass(frames: seq<TextFrame>, colors: Colors, height: nat, width: nat): seq<(int, Image)>
    requires AllShaped(frames)
  {
    if frames == [] then []
    else
      var f := frames[|frames| - 1];
      LegacyPass(frames[..|frames| - 1], colors, height, width) + LegacyStep(f, colors, height, width)
  }

  /** What one frame adds to a legacy pass: nothing when it does not
      convert, its hold and image otherwise. */
  function LegacyStep(f: TextFrame, colors: Colors, height: nat, width: nat): (r: seq<(int, Image)>)
    requires Shaped(f)
    ensures |r| <= 1 && (Convertible(f.rows) <==> |r| == 1)
    ensures forall k :: 0 <= k < |r| ==> r[k].0 == f.hold && DisplayBuffer.IsRect(r[k].1, height, width)
  {
    match LegacyFrame(f, colors, height, width)
    case None => []
    case Some(img) => [(f.hold, img)]
  }

  /** One pass of the rewrite's `__rendered_frames`: every frame's hold and
      image, or the error of the first frame that fails. */
  function RewritePass(frames: seq<TextFrame>, colors: Colors, height: nat, width: nat): Result<seq<(int, Image)>>
    requires AllShaped(frames)
  {
    if frames == [] then Ok([])
    else
      var f := frames[|frames| - 1];
      match RewritePass(frames[..|frames| - 1], colors, height, width)
      case Err(e) => Err(e)
      case Ok(out) =>
        match RenderedFrame(f, colors, height, width)
        case Err(e) => Err(e)
        case Ok(img) => Ok(out + [(f.hold, img)])
  }

  /** Every legacy image fills the matrix, no frame is added, and only
      unconvertible frames are dropped. */
  lemma {:induction false} LegacyPassFits(frames: seq<TextFrame>, colors: Colors, height: nat, width: nat)
    requires AllShaped(frames)
    ensures var out := LegacyPass(frames, colors, height, width);
      |out| <= |frames|
      && (forall k :: 0 <= k < |out| ==> DisplayBuffer.IsRect(out[k].1, height, width))
      && ((forall k :: 0 <= k < |frames| ==> Convertible(frames[k].rows)) ==> |out| == |frames|)
    decreases |frames|
  {
    if frames != [] {
      var init := frames[..|frames| - 1];
      assert AllShaped(init) by {
        forall k | 0 <= k < |init| ensures Shaped(init[k]) { assert init[k] == frames[k]; }
      }
      LegacyPassFits(init, colors, height, width);
      var front: seq<(int, Image)> := LegacyPass(init, colors, height, width);
      var step: seq<(int, Image)> := LegacyStep(frames[|frames| - 1], colors, height, width);
      assert LegacyPass(frames, colors, height, width) == front + step;
      assert forall k :: 0 <= k < |front + step| ==> DisplayBuffer.IsRect((front + step)[k].1, height, width) by {
        forall k | 0 <= k < |front + step| ensures DisplayBuffer.IsRect((front + step)[k].1, height, width) {
          if k < |front| { assert (front + step)[k] == front[k]; } else { assert (front + step)[k] == step[k - |front|]; }
        }
      }
      if forall k :: 0 <= k < |frames| ==> Convertible(frames[k].rows) {
        assert forall k :: 0 <= k < |init| ==> Convertible(init[k].rows) by {
          forall k | 0 <= k < |init| ensures Convertible(init[k].rows) { assert init[k] == frames[k]; }
        }
      }
    }
  }

  /** Where the rewrite renders every frame, it yields what the legacy
      generator yields. */
  lemma {:induction false} RewriteMatchesLegacy(frames: seq<TextFrame>, colors: Colors, height: nat, width: nat)
    requires AllShaped(frames)
    requires forall k :: 0 <= k < |frames| ==> RenderedFrame(frames[k], colors, height, width).Ok?
    ensures RewritePass(frames, colors, height, width) == Ok(LegacyPass(frames, colors, height, width))
    decreases |frames|
  {
    if frames != [] {
      var init := frames[..|frames| - 1];
      var f := frames[|frames| - 1];
      assert AllShaped(init) && forall k :: 0 <= k < |init| ==> RenderedFrame(init[k], colors, height, width).Ok? by {
        forall k | 0 <= k < |init|
          ensures Shaped(init[k]) && RenderedFrame(init[k], colors, height, width).Ok?
        {
          assert init[k] == frames[k];
        }
      }
      RewriteMatchesLegacy(init, colors, height, width);
      RenderedFrameSpec(f, colors, height, width);
    }
  }

  /** The legacy `rendered_frames` generator, drained: unconvertible frames
      are skipped with `continue`. */
  method LegacyRenderedFrames(frames: seq<TextFrame>, colors: Colors, height: nat, width: nat)
    returns (out: seq<(int, Image)>)
    requires AllShaped(frames)
    ensures out == LegacyPass(frames, colors, height, width)
  {
    out := [];
    var k := 0;
    while k < |frames|
      invariant 0 <= k <= |frames| && AllShaped(frames[..k])
      invariant out == LegacyPass(frames[..k], colors, height, width)
    {
      var f := frames[k];
      var upTo := frames[..k + 1];
      assert upTo[..k] == frames[..k] && upTo[k] == f;
      assert AllShaped(upTo) by {
        forall j | 0 <= j < k + 1 ensures Shaped(upTo[j]) { assert upTo[j] == frames[j]; }
      }
      k := k + 1;
      var img := LegacyFrame(f, colors, height, width);
      if img.None? {
        continue;
      }
      out := out + [(f.hold, img.value)];
    }
    assert frames[..k] == frames;
  }

  /** The rewrite's animation thread: the frames, the colours, the
      generator's position and what it has put on the frame queue. */
  class BlmAnimation {
    const frames: seq<TextFrame>
    const colors: Colors
    const height: nat
    const width: nat
    const counter: AnimationControl.Repeat
    /** The next frame `__frame_generator` will render. */
    var next: nat
    /** `_frame_queue`. */
    var queue: seq<Image>
    /** The animation speed last set, in milliseconds. */
    var speed: int

    ghost predicate Valid()
      reads this
    {
      AllShaped(frames) && next <= |frames|
    }

    constructor (frames: seq<TextFrame>, colors: Colors, height: nat, width: nat, repeat: int)
      requires GoodFrames(frames)
      ensures Valid() && this.frames == frames && this.colors == colors
      ensures this.height == height && this.width == width
      ensures next == 0 && queue == [] && counter.repeat == repeat
    {
      GoodFramesShaped(frames);
      this.frames, this.colors, this.height, this.width := frames, colors, height, width;
      counter := new AnimationControl.Repeat(repeat);
      next, queue, speed := 0, [], 0;
    }

    /** `render_next_frame`: the next frame is rendered, put and its hold
        becomes the speed; a frame that fails raises out of the generator,
        which is then finished. With no frame left nothing is put, `false`
        is returned and, when another iteration is due, the generator
        starts over. */
    method RenderNextFrame() returns (r: Result<bool>)
      requires Valid()
      modifies this`next, this`queue, this`speed
      ensures Valid()
      ensures old(next) < |frames| ==>
        var f := frames[old(next)];
        match RenderedFrame(f, colors, height, width)
        case Ok(img) =>
          r == Ok(true) && queue == old(queue) + [img] && speed == f.hold && next == old(next) + 1
        case Err(e) =>
          r == Err(e) && queue == old(queue) && speed == old(speed) && next == |frames|
      ensures old(next) == |frames| ==>
        r == Ok(false) && queue == old(queue) && speed == old(speed)
        && next == if counter.IsNextIteration() then 0 else |frames|
    {
      if next < |frames| {
        var f := frames[next];
        var img := RenderedFrame(f, colors, height, width);
        if img.Err? {
          next := |frames|;
          return Err(img.error);
        }
        queue := queue + [img.value];
        speed := f.hold;
        next := next + 1;
        return Ok(true);
      }
      if counter.IsNextIteration() {
        next := 0;
      }
      return Ok(false);
    }
  }

  // ------------------------------------------------------------ variants

  /** `_add_dynamic_variant`'s test: the text after the last dot, lower
      cased, is `blm` (a name without a dot is its own extension). */
  predicate AcceptsVariantFile(fileName: string) {
    PyText.LowerAscii(PyText.AfterLast(fileName, '.')) == "blm"
  }

  /** A `.blm` name in any letter case is accepted, and a name whose last
      part is anything else is refused. */
  lemma VariantExtension(stem: string, ext: string)
    requires '.' !in ext
    ensures AcceptsVariantFile(stem + "." + ext) <==> PyText.LowerAscii(ext) == "blm"
  {
    var name := stem + "." + ext;
    var r := PyText.AfterLast(name, '.');
    assert name[|stem|] == '.' && name[|stem| + 1..] == ext;
    assert r == ext;
  }

  type Path = AnimationControl.Path

  /** The variant files of the rewrite's controller: the directory and the
      files present. Resolving a path is left to the caller. */
  class VariantFiles {
    const dir: Path
    var files: set<Path>

    constructor (dir: Path, files: set<Path>)
      ensures this.dir == dir && this.files == files
    {
      this.dir, this.files := dir, files;
    }

    /** `_add_dynamic_variant`: a file whose name is refused is not
        written; otherwise it is written at its resolved path. */
    method AddDynamicVariant(fileName: string, resolved: Path) returns (accepted: bool)
      modifies this`files
      ensures accepted == AcceptsVariantFile(fileName)
      ensures files == if accepted then old(files) + {resolved} else old(files)
    {
      accepted := AcceptsVariantFile(fileName);
      if !accepted {
        return;
      }
      files := files + {resolved};
    }

    /** `_remove_dynamic_variant`: only a file inside the directory is
        unlinked; nothing outside it is ever removed. */
    method RemoveDynamicVariant(resolved: Path)
      modifies this`files
      ensures files == if AnimationControl.InsideDir(dir, resolved) then old(files) - {resolved} else old(files)
      ensures forall p :: p in old(files) && !AnimationControl.InsideDir(dir, p) ==> p in files
    {
      if AnimationControl.InsideDir(dir, resolved) {
        files := files - {resolved};
      }
    }
  }
}
