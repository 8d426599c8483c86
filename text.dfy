/** The scrolling text animation of both generations. Rendering a string
    with FreeType is not modelled: the rendered text comes in as a
    rectangular image. Modelled are the unpacking of a one-bit-per-pixel
    glyph bitmap, the padding of the rendered text, the windows cut from it
    while it scrolls left, the rewrite's frame generator driven by
    `render_next_frame`, and the legacy `animate` loop. */
module TextScroll {
  import opened Wrappers
  import DisplayBuffer
  import LedLayout
  import AnimationControl

  type Rgb = DisplayBuffer.Rgb
  type Image = DisplayBuffer.Image

  const Black: Rgb := DisplayBuffer.Rgb(0, 0, 0)

  // ------------------------------------------------------------ glyph bitmap

  /** Bit `k` of a bitmap byte, most significant first: the test
      `byte & (1 << (7 - k))`. */
  predicate Lit(b: bv8, k: nat)
    requires k < 8
  {
    b & (1 << (7 - k)) != 0
  }

  /** The unpacked value at row `y`, column `x` of a bitmap whose rows are
      `pitch` bytes long: 255 for a set bit and 0 otherwise, and 0 for a
      column past the bytes of the row. */
  function MonoPixel(buffer: seq<bv8>, pitch: nat, y: nat, x: nat): bv8
    requires y * pitch + pitch <= |buffer|
  {
    if x / 8 < pitch && Lit(buffer[y * pitch + x / 8], x % 8) then 255 else 0
  }

  lemma RowFits(y: nat, rows: nat, pitch: nat)
    requires y < rows
    ensures y * pitch + pitch <= rows * pitch
  {
    assert y * pitch + pitch == (y + 1) * pitch;
    LedLayout.MulMonotone(y + 1, rows, pitch);
  }

  /** `__unpack_mono_bitmap` (`unpack_mono_bitmap` in the legacy tree): the
      zeroed `rows` by `width` result gets, byte by byte of each row, one
      value per bit for the columns the byte covers. */
  method UnpackMonoBitmap(rows: nat, width: nat, pitch: nat, buffer: seq<bv8>)
    returns (data: array2<bv8>)
    requires rows * pitch <= |buffer|
    ensures data.Length0 == rows && data.Length1 == width
    ensures forall y, x :: 0 <= y < rows && 0 <= x < width ==>
      y * pitch + pitch <= |buffer| && data[y, x] == MonoPixel(buffer, pitch, y, x)
  {
    data := new bv8[rows, width]((_, _) => 0);
    forall y | 0 <= y < rows
      ensures y * pitch + pitch <= |buffer|
    {
      RowFits(y, rows, pitch);
    }
    var y := 0;
    while y < rows
      invariant 0 <= y <= rows
      invariant forall y', x :: 0 <= y' < y && 0 <= x < width ==> data[y', x] == MonoPixel(buffer, pitch, y', x)
      invariant forall y', x :: y <= y' < rows && 0 <= x < width ==> data[y', x] == 0
    {
      UnpackRow(data, y, pitch, buffer);
      y := y + 1;
    }
  }

  /** The loop over the bytes of row `y`: each gives one value per bit for
      the columns it covers; the other rows keep their values. */
  method UnpackRow(data: array2<bv8>, y: nat, pitch: nat, buffer: seq<bv8>)
    requires y < data.Length0 && y * pitch + pitch <= |buffer|
    requires forall x :: 0 <= x < data.Length1 ==> data[y, x] == 0
    modifies data
    ensures forall y', x :: 0 <= y' < data.Length0 && 0 <= x < data.Length1 ==>
      data[y', x] == if y' == y then MonoPixel(buffer, pitch, y, x) else old(data[y', x])
  {
    var byteIndex := 0;
    while byteIndex < pitch
      invariant 0 <= byteIndex <= pitch
      invariant forall y', x :: 0 <= y' < data.Length0 && 0 <= x < data.Length1 && y' != y ==>
        data[y', x] == old(data[y', x])
      invariant forall x :: 0 <= x < data.Length1 ==>
        data[y, x] == if x < 8 * byteIndex then MonoPixel(buffer, pitch, y, x) else 0
    {
      UnpackByte(data, y, byteIndex, buffer[y * pitch + byteIndex]);
      forall x | 0 <= x < data.Length1 && 8 * byteIndex <= x < 8 * byteIndex + 8
        ensures data[y, x] == MonoPixel(buffer, pitch, y, x)
      {
        MonoPixelInByte(buffer, pitch, y, x, byteIndex);
      }
      byteIndex := byteIndex + 1;
    }
    forall x | 0 <= x < data.Length1 && x >= 8 * pitch
      ensures MonoPixel(buffer, pitch, y, x) == 0
    {
      assert x / 8 >= pitch;
    }
  }

  /** A column covered by byte `byteIndex` of its row takes that byte's bit. */
  lemma MonoPixelInByte(buffer: seq<bv8>, pitch: nat, y: nat, x: nat, byteIndex: nat)
    requires y * pitch + pitch <= |buffer| && byteIndex < pitch
    requires 8 * byteIndex <= x < 8 * byteIndex + 8
    ensures MonoPixel(buffer, pitch, y, x) ==
      if Lit(buffer[y * pitch + byteIndex], x - 8 * byteIndex) then 255 else 0
  {
    assert x / 8 == byteIndex && x % 8 == x - 8 * byteIndex;
  }

  /** The innermost loop: the columns of byte `byteIndex` in row `y`, as far
      as the row is wide, get one value per bit. */
  method UnpackByte(data: array2<bv8>, y: nat, byteIndex: nat, byteValue: bv8)
    requires y < data.Length0
    modifies data
    ensures forall y', x :: 0 <= y' < data.Length0 && 0 <= x < data.Length1 ==>
      data[y', x] == if y' == y && 8 * byteIndex <= x < 8 * byteIndex + 8
                     then (if Lit(byteValue, x - 8 * byteIndex) then 255 else 0)
                     else old(data[y', x])
  {
    var width := data.Length1;
    var bits := if width - 8 * byteIndex < 8 then width - 8 * byteIndex else 8;
    var bit := 0;
    while bit < bits
      invariant 0 <= bit && (bits >= 0 ==> bit <= bits)
      invariant forall y', x :: 0 <= y' < data.Length0 && 0 <= x < width ==>
        data[y', x] == if y' == y && 8 * byteIndex <= x < 8 * byteIndex + bit
                       then (if Lit(byteValue, x - 8 * byteIndex) then 255 else 0)
                       else old(data[y', x])
    {
      data[y, 8 * byteIndex + bit] := if Lit(byteValue, bit) then 255 else 0;
      bit := bit + 1;
    }
  }

  // ------------------------------------------------------------ padding

  /** The vertical padding of the rendered text: a text lower than the
      matrix is centred, the extra row going below; a taller one is not
      padded. */
  function VerticalPadding(matrixHeight: nat, textHeight: nat): (p: (nat, nat))
    ensures textHeight < matrixHeight ==>
      p.0 + textHeight + p.1 == matrixHeight && p.0 <= p.1 <= p.0 + 1
    ensures textHeight >= matrixHeight ==> p == (0, 0)
  {
    if textHeight < matrixHeight then
      var v0 := (matrixHeight - textHeight) / 2;
      (v0, matrixHeight - textHeight - v0)
    else (0, 0)
  }

  /** The pixel at row `y`, column `x` of an image placed with its top left
      corner at (`top`, `left`) on a black canvas. */
  function At(img: Image, w: nat, top: nat, left: nat, y: int, x: int): Rgb
    requires DisplayBuffer.IsRect(img, |img|, w)
  {
    if top <= y < top + |img| && left <= x < left + w then img[y - top][x - left] else Black
  }

  function BlackRow(n: nat): (r: seq<Rgb>)
    ensures |r| == n && forall x :: 0 <= x < n ==> r[x] == Black
  {
    seq(n, _ => Black)
  }

  /** `np.pad` with constant zero: black rows above and below, black
      columns left and right of every row. */
  function Pad(img: Image, w: nat, top: nat, bottom: nat, left: nat, right: nat): (r: Image)
    requires DisplayBuffer.IsRect(img, |img|, w)
    ensures DisplayBuffer.IsRect(r, top + |img| + bottom, left + w + right)
    ensures forall y, x :: 0 <= y < |r| && 0 <= x < left + w + right ==>
      r[y][x] == At(img, w, top, left, y, x)
  {
    var width := left + w + right;
    var middle := seq(|img|, y requires 0 <= y < |img| => BlackRow(left) + img[y] + BlackRow(right));
    var r := seq(top, _ => BlackRow(width)) + middle + seq(bottom, _ => BlackRow(width));
    forall y | 0 <= y < |r|
      ensures |r[y]| == width && forall x :: 0 <= x < width ==> r[y][x] == At(img, w, top, left, y, x)
    {
      if top <= y < top + |img| {
        assert r[y] == middle[y - top];
        var row := img[y - top];
        assert middle[y - top] == BlackRow(left) + row + BlackRow(right);
        forall x | 0 <= x < width
          ensures r[y][x] == At(img, w, top, left, y, x)
        {
          if x < left {
          } else if x < left + w {
            assert r[y][x] == row[x - left];
          } else {
            assert r[y][x] == BlackRow(right)[x - left - w];
          }
        }
      } else {
        assert r[y] == BlackRow(width);
      }
    }
    r
  }

  /** `range(0, limit, step)`. */
  function WindowStarts(limit: int, step: nat): (r: seq<nat>)
    requires step >= 1
    ensures forall k :: 0 <= k < |r| ==> r[k] == k * step
    ensures forall k: nat :: k < |r| <==> k * step < limit
  {
    var n := if limit <= 0 then 0 else (limit - 1) / step + 1;
    forall k: nat
      ensures k < n <==> k * step < limit
    {
      RangeCount(limit, step, k);
    }
    seq(n, k => k * step)
  }

  lemma RangeCount(limit: int, step: nat, k: nat)
    requires step >= 1
    ensures (if limit <= 0 then 0 else (limit - 1) / step + 1) > k <==> k * step < limit
  {
    if limit > 0 {
      var q, m := (limit - 1) / step, (limit - 1) % step;
      assert limit - 1 == q * step + m && 0 <= m < step;
      if k <= q {
        LedLayout.MulMonotone(k, q, step);
      } else {
        LedLayout.MulMonotone(q + 1, k, step);
      }
    } else {
      assert k * step >= 0;
    }
  }

  /** `buf[0:h, left:left+w, :]`. */
  function Window(img: Image, h: nat, w: nat, left: nat): (r: Image)
    requires |img| >= h && forall y :: 0 <= y < h ==> |img[y]| >= left + w
    ensures DisplayBuffer.IsRect(r, h, w)
    ensures forall y, x :: 0 <= y < h && 0 <= x < w ==> r[y][x] == img[y][left + x]
  {
    seq(h, y requires 0 <= y < h => img[y][left..left + w])
  }

  // ------------------------------------------------------------ frames

  /** The text padded for scrolling: centred vertically, `height` black
      columns on the left and `width + pixelsPerStep` on the right. */
  function Padded(text: Image, tw: nat, height: nat, width: nat, pps: nat): (r: Image)
    requires DisplayBuffer.IsRect(text, |text|, tw)
    ensures var v := VerticalPadding(height, |text|);
      DisplayBuffer.IsRect(r, v.0 + |text| + v.1, height + tw + width + pps) && |r| >= height
  {
    var v := VerticalPadding(height, |text|);
    Pad(text, tw, v.0, v.1, height, width + pps)
  }

  /** The frames of one pass (`__generate_frames` without a stop, the legacy
      `animate` likewise): none unless the speed is positive and the step at
      least one pixel; otherwise one `height` by `width` frame per window
      start below the padded width less `width`. Frame `k` shows the text
      shifted left by `k * pps` pixels, entering from column `height`. */
  function Frames(text: Image, tw: nat, height: nat, width: nat, sps: int, pps: int): (r: seq<Image>)
    requires DisplayBuffer.IsRect(text, |text|, tw)
    ensures sps <= 0 || pps < 1 ==> r == []
    ensures sps > 0 && pps >= 1 ==> forall k: nat :: k < |r| <==> k * pps < height + tw + pps
    ensures forall k :: 0 <= k < |r| ==> DisplayBuffer.IsRect(r[k], height, width)
    ensures forall k, y, x :: 0 <= k < |r| && 0 <= y < |r[k]| && 0 <= x < |r[k][y]| ==>
      r[k][y][x] == At(text, tw, VerticalPadding(height, |text|).0, height, y, k * pps + x)
  {
    if sps <= 0 || pps < 1 then []
    else
      var padded := Padded(text, tw, height, width, pps);
      var starts := WindowStarts(height + tw + pps, pps);
      seq(|starts|, k requires 0 <= k < |starts| => Window(padded, height, width, starts[k]))
  }

  predicate Blank(img: Image) {
    forall y, x :: 0 <= y < |img| && 0 <= x < |img[y]| ==> img[y][x] == Black
  }

  /** The last frame of a pass is black: the text has scrolled out. */
  lemma LastFrameBlank(text: Image, tw: nat, height: nat, width: nat, sps: int, pps: int)
    requires DisplayBuffer.IsRect(text, |text|, tw)
    requires Frames(text, tw, height, width, sps, pps) != []
    ensures var r := Frames(text, tw, height, width, sps, pps);
      Blank(r[|r| - 1])
  {
    var r := Frames(text, tw, height, width, sps, pps);
    var k := |r| - 1;
    assert k + 1 >= |r|;
    assert (k + 1) * pps >= height + tw + pps;
    assert k * pps + pps == (k + 1) * pps;
  }

  /** Successive frames move the picture `pps` pixels to the left. */
  lemma ScrollsLeft(text: Image, tw: nat, height: nat, width: nat, sps: int, pps: int,
                    k: nat, y: nat, x: nat)
    requires DisplayBuffer.IsRect(text, |text|, tw)
    requires k + 1 < |Frames(text, tw, height, width, sps, pps)|
    requires y < height && x + pps < width
    ensures var r := Frames(text, tw, height, width, sps, pps);
      r[k + 1][y][x] == r[k][y][x + pps]
  {
    assert (k + 1) * pps + x == k * pps + (x + pps);
  }

  /** With a step no wider than the matrix every column of the text passes
      through some frame. */
  lemma EveryColumnShown(text: Image, tw: nat, height: nat, width: nat, sps: int, pps: int,
                         y: nat, c: nat)
    requires DisplayBuffer.IsRect(text, |text|, tw) && sps > 0 && 1 <= pps <= width
    requires VerticalPadding(height, |text|).0 <= y < height
    requires y < VerticalPadding(height, |text|).0 + |text| && c < tw
    ensures var r := Frames(text, tw, height, width, sps, pps);
      exists k, x :: 0 <= k < |r| && 0 <= x < width &&
        r[k][y][x] == text[y - VerticalPadding(height, |text|).0][c]
  {
    var r := Frames(text, tw, height, width, sps, pps);
    var v0 := VerticalPadding(height, |text|).0;
    var k, x := DivideColumn(height + c, pps);
    assert k * pps < height + tw + pps;
    assert k < |r|;
    assert DisplayBuffer.IsRect(r[k], height, width);
    assert r[k][y][x] == At(text, tw, v0, height, y, k * pps + x);
  }

  /** `n` as `k` whole steps and a remainder. */
  lemma DivideColumn(n: nat, step: nat) returns (k: nat, x: nat)
    requires step >= 1
    ensures n == k * step + x && x < step
  {
    k, x := n / step, n % step;
  }

  // ------------------------------------------------------------ the animations

  /** Building the rewrite's `TextAnimation`: the animation speed is
      `1.0 / steps_per_second`, so a steps-per-second of 0 raises
      ZeroDivisionError; any other value builds the animation. */
  method NewTextAnimation(text: Image, tw: nat, height: nat, width: nat, sps: int, pps: int, repeat: int)
    returns (r: Result<TextAnimation>)
    requires DisplayBuffer.IsRect(text, |text|, tw)
    ensures r.Err? <==> sps == 0
    ensures r.Err? ==> r.error == ZeroDivisionError
    ensures r.Ok? ==>
      && fresh(r.value) && r.value.pass == Frames(text, tw, height, width, sps, pps)
      && r.value.pending == r.value.pass && r.value.counter.repeat == repeat
      && r.value.counter.remaining == repeat - 1 && !r.value.stopped && r.value.queue == []
  {
    if sps == 0 {
      return Err(ZeroDivisionError);
    }
    var a := new TextAnimation(text, tw, height, width, sps, pps, repeat);
    return Ok(a);
  }

  /** The rewrite's `TextAnimation`: the frame generator is the list of
      frames it still has to yield; the stop event ends it. */
  class TextAnimation {
    /** The frames of one pass. */
    const pass: seq<Image>
    const counter: AnimationControl.Repeat
    /** What `__frame_generator` will still yield. */
    var pending: seq<Image>
    /** `_stop_event`. */
    var stopped: bool
    /** `_frame_queue`. */
    var queue: seq<Image>

    constructor (text: Image, tw: nat, height: nat, width: nat, sps: int, pps: int, repeat: int)
      requires DisplayBuffer.IsRect(text, |text|, tw) && sps != 0
      ensures pass == Frames(text, tw, height, width, sps, pps) && pending == pass
      ensures counter.repeat == repeat && counter.remaining == repeat - 1
      ensures !stopped && queue == []
    {
      var frames := Frames(text, tw, height, width, sps, pps);
      var c := new AnimationControl.Repeat(repeat);
      pass, counter := frames, c;
      pending, stopped, queue := frames, false, [];
    }

    /** `render_next_frame`: the next frame of the generator is put and
        `true` returned; with the generator exhausted or stopped nothing is
        put, `false` is returned and, when another iteration is due, the
        generator starts over. */
    method RenderNextFrame() returns (more: bool)
      modifies this`pending, this`queue
      ensures old(!stopped && pending != []) ==>
        more && queue == old(queue) + [old(pending)[0]] && pending == old(pending)[1..]
      ensures old(stopped || pending == []) ==>
        !more && queue == old(queue)
        && pending == if counter.IsNextIteration() then pass else []
    {
      if !stopped && pending != [] {
        queue := queue + [pending[0]];
        pending := pending[1..];
        return true;
      }
      pending := [];
      if counter.IsNextIteration() {
        pending := pass;
      }
      return false;
    }

    /** `stop`: sets the stop event. */
    method Stop()
      modifies this`stopped
      ensures stopped
    {
      stopped := true;
    }
  }

  /** The legacy `animate`: with the stop event already set nothing is put;
      otherwise the text is padded and the windows are put one per step
      until the stop event, here set once `stopAt` frames have been put. */
  method Animate(text: Image, tw: nat, height: nat, width: nat, sps: int, pps: int, stopAt: nat)
    returns (put: seq<Image>)
    requires DisplayBuffer.IsRect(text, |text|, tw)
    ensures var pass := Frames(text, tw, height, width, sps, pps);
      put == pass[..if stopAt < |pass| then stopAt else |pass|]
  {
    put := [];
    if stopAt == 0 || sps <= 0 || pps < 1 {
      return;
    }
    ghost var pass := Frames(text, tw, height, width, sps, pps);
    var padded := Padded(text, tw, height, width, pps);
    var starts := WindowStarts(height + tw + pps, pps);
    var k := 0;
    while k < |starts|
      invariant 0 <= k <= |starts| && k <= stopAt && |pass| == |starts|
      invariant put == pass[..k]
    {
      if k == stopAt {
        break;
      }
      put := put + [Window(padded, height, width, starts[k])];
      k := k + 1;
    }
  }
}
