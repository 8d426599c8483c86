/** The APA102 driver of the rewrite: the lookup tables built once from the
    wiring, the brightness start bytes that `set_brightness` updates in place,
    and the byte stream `show` sends over SPI. The SPI device, the gamma table
    and the floating-point brightness computation are not part of this model. */
module Apa102 {
  import opened LedLayout

  // ------------------------------------------------------------ pixel order

  /** A coordinate's index in row-major pixel order. */
  function PixelIndex(c: Coord, width: nat): nat {
    c.row * width + c.col
  }

  /** The coordinate of pixel `p`: `pixel_row = p // width`,
      `pixel_col = p - pixel_row * width`. */
  function PixelCoord(p: nat, width: nat): Coord
    requires width > 0
  {
    Coord(p / width, p - (p / width) * width)
  }

  lemma PixelCoordRoundTrip(p: nat, width: nat, height: nat)
    requires p < width * height
    ensures width > 0
    ensures InMatrix(PixelCoord(p, width), width, height)
    ensures PixelIndex(PixelCoord(p, width), width) == p
  {
    QuotientBound(p, width, height);
  }

  lemma PixelIndexRoundTrip(c: Coord, width: nat, height: nat)
    requires InMatrix(c, width, height)
    ensures PixelIndex(c, width) < width * height
    ensures PixelCoord(PixelIndex(c, width), width) == c
  {
    BlockBound(c.col, c.row, width, height);
    DivModOfBlock(c.col, c.row, width);
  }

  /** The pixel whose colour physical LED `led` shows. */
  function PixelOfLed(w: Wiring, width: nat, height: nat, led: nat): (p: nat)
    requires led < width * height
    ensures p < width * height
  {
    PixelIndexRoundTrip(CoordOf(w, width, height, led), width, height);
    PixelIndex(CoordOf(w, width, height, led), width)
  }

  // ------------------------------------------------------------ lookup tables

  /** `m` holds, at every coordinate, the LED index of the wiring. */
  ghost predicate MapFor(m: array2<int>, w: Wiring, width: nat, height: nat)
    reads m
  {
    && m.Length0 == height && m.Length1 == width
    && forall r, c :: 0 <= r < height && 0 <= c < width ==>
         m[r, c] == LedIndex(w, width, height, Coord(r, c))
  }

  /** `t` is the byte-index table flattened from shape (height, width, 4):
      the block of physical LED `led` holds the byte indices of its pixel. */
  ghost predicate TableFor(t: seq<int>, w: Wiring, width: nat, height: nat, o: (nat, nat, nat)) {
    && |t| == 4 * (width * height)
    && forall led, k :: 0 <= led < width * height && 0 <= k < 4 ==>
         t[4 * led + k] == ByteIndices(PixelOfLed(w, width, height, led), o)[k]
  }

  /** The coordinate the map builder writes at outer step `outerCount` and
      inner step `innerCount`. */
  function StepCoord(w: Wiring, width: nat, height: nat, outerCount: nat, innerCount: nat): Coord
    requires outerCount < Outer(w, width, height)
  {
    var i := OuterLine(w, Outer(w, width, height), outerCount);
    if w.orientation == Horizontally then Coord(i, innerCount) else Coord(innerCount, i)
  }

  lemma StepCoordFacts(w: Wiring, width: nat, height: nat, outerCount: nat, innerCount: nat)
    requires outerCount < Outer(w, width, height) && innerCount < Inner(w, width, height)
    ensures var c := StepCoord(w, width, height, outerCount, innerCount);
      var outer, inner := Outer(w, width, height), Inner(w, width, height);
      && InMatrix(c, width, height)
      && LineOf(w, c) == OuterLine(w, outer, outerCount)
      && StepOf(w, c) == innerCount
      && OuterStep(w, outer, LineOf(w, c)) == outerCount
      && LedIndex(w, width, height, c)
         == InnerPos(w, outer, inner, OuterLine(w, outer, outerCount), innerCount) + outerCount * inner
  {
  }

  /** Whether the builder has written cell `c` before the given steps. */
  predicate Written(w: Wiring, width: nat, height: nat, c: Coord, outerCount: nat, innerCount: nat)
    requires InMatrix(c, width, height)
  {
    var outer := Outer(w, width, height);
    var step := OuterStep(w, outer, LineOf(w, c));
    step < outerCount || (step == outerCount && StepOf(w, c) < innerCount)
  }

  /** One inner step writes exactly the cell of that step. */
  lemma WrittenNext(w: Wiring, width: nat, height: nat, outerCount: nat, innerCount: nat, r: nat, c: nat)
    requires outerCount < Outer(w, width, height) && innerCount < Inner(w, width, height)
    requires r < height && c < width
    ensures Written(w, width, height, Coord(r, c), outerCount, innerCount + 1) <==>
      Written(w, width, height, Coord(r, c), outerCount, innerCount)
      || Coord(r, c) == StepCoord(w, width, height, outerCount, innerCount)
  {
    StepCoordFacts(w, width, height, outerCount, innerCount);
  }

  /** The end of an outer step is the start of the next one. */
  lemma WrittenRollover(w: Wiring, width: nat, height: nat, outerCount: nat, r: nat, c: nat)
    requires outerCount < Outer(w, width, height) && r < height && c < width
    ensures Written(w, width, height, Coord(r, c), outerCount, Inner(w, width, height)) ==
      Written(w, width, height, Coord(r, c), outerCount + 1, 0)
  {
  }

  /** `__create_pixel_to_led_index_datastructures`, first half: the nested
      loops over `outer_range` and `range(inner)` with their counters. */
  method BuildLedMap(w: Wiring, width: nat, height: nat) returns (m: array2<int>)
    ensures fresh(m) && MapFor(m, w, width, height)
  {
    m := new int[height, width];
    var outer := Outer(w, width, height);
    var outerCount := 0;
    while outerCount < outer
      invariant 0 <= outerCount <= outer
      invariant Filled(m, w, width, height, outerCount, 0)
    {
      FillLine(m, w, width, height, outerCount);
      outerCount := outerCount + 1;
    }
    assert forall r, c :: 0 <= r < height && 0 <= c < width ==>
      Written(w, width, height, Coord(r, c), outer, 0);
  }

  /** The inner loop of the map builder for outer step `outerCount`. */
  method FillLine(m: array2<int>, w: Wiring, width: nat, height: nat, outerCount: nat)
    requires outerCount < Outer(w, width, height)
    requires Filled(m, w, width, height, outerCount, 0)
    modifies m
    ensures Filled(m, w, width, height, outerCount + 1, 0)
  {
    var outer, inner := Outer(w, width, height), Inner(w, width, height);
    var i := OuterLine(w, outer, outerCount);
    var innerCount := 0;
    while innerCount < inner
      invariant 0 <= innerCount <= inner
      invariant Filled(m, w, width, height, outerCount, innerCount)
    {
      var j := innerCount;
      if LineFlipped(w, outer, i) {
        j := (inner - 1) - innerCount;
      }
      var led := j + outerCount * inner;
      var coord := if w.orientation == Horizontally then Coord(i, innerCount) else Coord(innerCount, i);
      StepCoordFacts(w, width, height, outerCount, innerCount);
      assert coord == StepCoord(w, width, height, outerCount, innerCount);
      label before:
      m[coord.row, coord.col] := led;
      assert Filled(m, w, width, height, outerCount, innerCount + 1) by {
        forall r, c | 0 <= r < height && 0 <= c < width &&
                      Written(w, width, height, Coord(r, c), outerCount, innerCount + 1)
          ensures m[r, c] == LedIndex(w, width, height, Coord(r, c))
        {
          WrittenNext(w, width, height, outerCount, innerCount, r, c);
          if Coord(r, c) != coord {
            assert m[r, c] == old@before(m[r, c]);
          }
        }
      }
      innerCount := innerCount + 1;
    }
    forall r, c | 0 <= r < height && 0 <= c < width
      ensures Written(w, width, height, Coord(r, c), outerCount, inner) ==
              Written(w, width, height, Coord(r, c), outerCount + 1, 0)
    {
      WrittenRollover(w, width, height, outerCount, r, c);
    }
  }

  /** Every cell the builder has written holds its LED index. */
  ghost predicate Filled(m: array2<int>, w: Wiring, width: nat, height: nat, outerCount: nat, innerCount: nat)
    reads m
  {
    && m.Length0 == height && m.Length1 == width
    && forall r, c :: 0 <= r < height && 0 <= c < width ==>
         Written(w, width, height, Coord(r, c), outerCount, innerCount) ==>
         m[r, c] == LedIndex(w, width, height, Coord(r, c))
  }

  /** `__create_pixel_to_led_index_datastructures`, second half: for every
      pixel, its four byte indices go to the block of the LED that shows it. */
  method BuildByteTable(m: array2<int>, w: Wiring, width: nat, height: nat, o: (nat, nat, nat))
    returns (t: array<int>)
    requires MapFor(m, w, width, height)
    ensures fresh(t) && TableFor(t[..], w, width, height, o)
  {
    var n := width * height;
    t := new int[4 * n];
    var p := 0;
    while p < n
      invariant 0 <= p <= n
      invariant TableUpTo(t, w, width, height, o, p)
    {
      StorePixel(t, m, w, width, height, o, p);
      p := p + 1;
    }
    TableComplete(t, w, width, height, o);
  }

  /** Once every pixel is stored, the table is complete. */
  lemma TableComplete(t: array<int>, w: Wiring, width: nat, height: nat, o: (nat, nat, nat))
    requires TableUpTo(t, w, width, height, o, width * height)
    ensures TableFor(t[..], w, width, height, o)
  {
    forall led, k | 0 <= led < width * height && 0 <= k < 4
      ensures t[..][4 * led + k] == ByteIndices(PixelOfLed(w, width, height, led), o)[k]
    {
      assert PixelOfLed(w, width, height, led) < width * height;
    }
  }

  /** One step of the second half: pixel `p`'s byte indices go to the block
      of the LED the map gives for it. */
  method StorePixel(t: array<int>, m: array2<int>, w: Wiring, width: nat, height: nat, o: (nat, nat, nat), p: nat)
    requires MapFor(m, w, width, height) && p < width * height
    requires TableUpTo(t, w, width, height, o, p)
    modifies t
    ensures TableUpTo(t, w, width, height, o, p + 1)
  {
    var indices := ByteIndices(p, o);
    PixelCoordRoundTrip(p, width, height);
    var pixelRow := p / width;
    var pixelCol := p - pixelRow * width;
    var led := m[pixelRow, pixelCol];
    LedOfPixel(w, width, height, p);
    PixelCoordRoundTrip(led, width, height);
    var ledRow := led / width;
    var ledCol := led - ledRow * width;
    assert ledRow * width + ledCol == led;
    label before:
    WriteBlock(t, led, indices);
    forall l, k | 0 <= l < width * height && 0 <= k < 4 && PixelOfLed(w, width, height, l) < p + 1
      ensures t[4 * l + k] == ByteIndices(PixelOfLed(w, width, height, l), o)[k]
    {
      if l != led {
        BlocksDisjoint(l, led, k);
        assert t[4 * l + k] == old@before(t[4 * l + k]);
      }
    }
  }

  lemma BlocksDisjoint(l: nat, led: nat, k: nat)
    requires l != led && k < 4
    ensures !(4 * led <= 4 * l + k < 4 * led + 4)
  {
  }

  /** Every LED whose pixel comes before `p` has its block filled. */
  ghost predicate TableUpTo(t: array<int>, w: Wiring, width: nat, height: nat, o: (nat, nat, nat), p: nat)
    reads t
  {
    && t.Length == 4 * (width * height)
    && forall led, k :: 0 <= led < width * height && 0 <= k < 4 && PixelOfLed(w, width, height, led) < p ==>
         t[4 * led + k] == ByteIndices(PixelOfLed(w, width, height, led), o)[k]
  }

  /** The LED the map stores for pixel `p` is the one LED that shows `p`. */
  lemma LedOfPixel(w: Wiring, width: nat, height: nat, p: nat)
    requires p < width * height
    ensures width > 0
    ensures var led := LedIndex(w, width, height, PixelCoord(p, width));
      && led < width * height && PixelOfLed(w, width, height, led) == p
      && forall l :: 0 <= l < width * height && PixelOfLed(w, width, height, l) == p ==> l == led
  {
    PixelCoordRoundTrip(p, width, height);
    var c := PixelCoord(p, width);
    CoordOfLedIndex(w, width, height, c);
    var led := LedIndex(w, width, height, c);
    forall l | 0 <= l < width * height && PixelOfLed(w, width, height, l) == p ensures l == led {
      LedIndexOfCoord(w, width, height, l);
      PixelIndexRoundTrip(CoordOf(w, width, height, l), width, height);
    }
  }

  /** Stores the four entries of one LED's block, as the slice assignment
      `virtual_to_physical_byte_indices[(led_row, led_col)] = ...` does. */
  method WriteBlock(t: array<int>, led: nat, entries: seq<nat>)
    requires |entries| == 4 && 4 * led + 4 <= t.Length
    modifies t
    ensures forall k :: 0 <= k < 4 ==> t[4 * led + k] == entries[k]
    ensures forall q :: 0 <= q < t.Length && !(4 * led <= q < 4 * led + 4) ==> t[q] == old(t[q])
  {
    t[4 * led] := entries[0];
    t[4 * led + 1] := entries[1];
    t[4 * led + 2] := entries[2];
    t[4 * led + 3] := entries[3];
  }

  // ------------------------------------------------------------ SPI stream

  /** The frame `np.concatenate((start, rgb), axis=2)` flattened: per pixel
      the start byte, then red, green and blue. */
  function Frame4(start: seq<bv8>, rgb: seq<bv8>): (f: seq<bv8>)
    requires |rgb| == 3 * |start|
    ensures |f| == 4 * |start|
  {
    if start == [] then []
    else [start[0], rgb[0], rgb[1], rgb[2]] + Frame4(start[1..], rgb[3..])
  }

  /** Pixel `p`'s four bytes in the concatenated frame. */
  lemma {:induction false} Frame4At(start: seq<bv8>, rgb: seq<bv8>, p: nat, k: nat)
    requires |rgb| == 3 * |start| && p < |start| && k < 4
    ensures Frame4(start, rgb)[4 * p + k] == if k == 0 then start[p] else rgb[3 * p + k - 1]
  {
    if p > 0 {
      Frame4At(start[1..], rgb[3..], p - 1, k);
    }
  }

  /** `frame.take(table).flatten()`: entry `q` of the result is
      `src[table[q]]`. */
  function Gather(src: seq<bv8>, table: seq<int>): (g: seq<bv8>)
    requires forall q :: 0 <= q < |table| ==> 0 <= table[q] < |src|
    ensures |g| == |table| && forall q :: 0 <= q < |table| ==> g[q] == src[table[q]]
  {
    seq(|table|, q requires 0 <= q < |table| => src[table[q]])
  }

  /** What `show` writes: start frame, the gathered LED frames, end frame. */
  function Stream(start: seq<bv8>, rgb: seq<bv8>, table: seq<int>): seq<bv8>
    requires |rgb| == 3 * |start|
    requires forall q :: 0 <= q < |table| ==> 0 <= table[q] < 4 * |start|
  {
    StartFrame() + Gather(Frame4(start, rgb), table) + EndFrame(|start|)
  }

  /** A table built for `o` only points inside the frame. */
  lemma TableInRange(t: seq<int>, w: Wiring, width: nat, height: nat, o: (nat, nat, nat))
    requires TableFor(t, w, width, height, o) && OffsetsPermute(o)
    ensures forall q :: 0 <= q < |t| ==> 0 <= t[q] < 4 * (width * height)
  {
    var n := width * height;
    forall q | 0 <= q < |t| ensures 0 <= t[q] < 4 * n {
      var led, k := q / 4, q % 4;
      assert q == 4 * led + k;
      var p := PixelOfLed(w, width, height, led);
      assert t[4 * led + k] == ByteIndices(p, o)[k];
    }
  }

  /** The byte the start frame, LED `led`'s slot `k` or the end frame
      carries: 4 zero bytes, then per physical LED its pixel's start byte and
      the three channels in gathered order, then `(n+15)//16` bytes 0xFF. */
  lemma StreamLayout(start: seq<bv8>, rgb: seq<bv8>, t: seq<int>,
                     w: Wiring, width: nat, height: nat, ct: ColorType)
    requires |start| == width * height && |rgb| == 3 * |start|
    requires TableFor(t, w, width, height, ColorOffsets(ct))
    ensures forall q :: 0 <= q < |t| ==> 0 <= t[q] < 4 * |start|
    ensures var s := Stream(start, rgb, t); var n := width * height;
      && |s| == 4 + 4 * n + (n + 15) / 16
      && (forall q :: 0 <= q < 4 ==> s[q] == 0)
      && (forall q :: 4 + 4 * n <= q < |s| ==> s[q] == 0xFF)
      && (forall led :: 0 <= led < n ==> LedBytes(s, start, rgb, w, width, height, ct, led))
  {
    TableInRange(t, w, width, height, ColorOffsets(ct));
    var s := Stream(start, rgb, t);
    forall led | 0 <= led < width * height
      ensures LedBytes(s, start, rgb, w, width, height, ct, led)
    {
      TableSlots(t, w, width, height, ColorOffsets(ct), led);
      StreamAt(start, rgb, t, w, width, height, ct, led);
    }
  }

  /** The four bytes LED `led` receives: its pixel's start byte, then its
      pixel's channels in the gathered order of the colour type. */
  ghost predicate LedBytes(s: seq<bv8>, start: seq<bv8>, rgb: seq<bv8>,
                           w: Wiring, width: nat, height: nat, ct: ColorType, led: nat)
    requires |start| == width * height && |rgb| == 3 * |start| && led < width * height
  {
    var p := PixelOfLed(w, width, height, led);
    var order := GatheredOrder(ct);
    && 4 + 4 * led + 3 < |s|
    && s[4 + 4 * led] == start[p]
    && s[4 + 4 * led + 1] == rgb[3 * p + order[0]]
    && s[4 + 4 * led + 2] == rgb[3 * p + order[1]]
    && s[4 + 4 * led + 3] == rgb[3 * p + order[2]]
  }

  /** LED `led`'s four stream bytes, given where its table entries point. */
  lemma StreamAt(start: seq<bv8>, rgb: seq<bv8>, t: seq<int>,
                 w: Wiring, width: nat, height: nat, ct: ColorType, led: nat)
    requires |start| == width * height && |rgb| == 3 * |start|
    requires forall q :: 0 <= q < |t| ==> 0 <= t[q] < 4 * |start|
    requires led < width * height && 4 * led + 3 < |t|
    requires var p, o := PixelOfLed(w, width, height, led), ColorOffsets(ct);
      && t[4 * led] == 4 * p && t[4 * led + 1] == 4 * p + o.0
      && t[4 * led + 2] == 4 * p + o.1 && t[4 * led + 3] == 4 * p + o.2
    ensures LedBytes(Stream(start, rgb, t), start, rgb, w, width, height, ct, led)
  {
    var o := ColorOffsets(ct);
    var p := PixelOfLed(w, width, height, led);
    GatheredOrderOfOffsets(ct);
    StreamSlot(start, rgb, t, 4 * led, p, 0);
    StreamSlot(start, rgb, t, 4 * led + 1, p, o.0);
    StreamSlot(start, rgb, t, 4 * led + 2, p, o.1);
    StreamSlot(start, rgb, t, 4 * led + 3, p, o.2);
    var order := GatheredOrder(ct);
    assert order[0] == o.0 - 1 && order[1] == o.1 - 1 && order[2] == o.2 - 1;
  }

  /** The four table entries of LED `led` point at its pixel's start byte
      and colour bytes. */
  lemma TableSlots(t: seq<int>, w: Wiring, width: nat, height: nat, o: (nat, nat, nat), led: nat)
    requires TableFor(t, w, width, height, o) && led < width * height
    ensures var p := PixelOfLed(w, width, height, led);
      && 4 * led + 3 < |t|
      && t[4 * led] == 4 * p && t[4 * led + 1] == 4 * p + o.0
      && t[4 * led + 2] == 4 * p + o.1 && t[4 * led + 3] == 4 * p + o.2
  {
    var p := PixelOfLed(w, width, height, led);
    var idx := ByteIndices(p, o);
    assert t[4 * led] == idx[0] && t[4 * led + 1] == idx[1];
    assert t[4 * led + 2] == idx[2] && t[4 * led + 3] == idx[3];
  }

  /** Stream byte `4 + q` is frame byte `t[q]`, here byte `k` of pixel `p`. */
  lemma StreamSlot(start: seq<bv8>, rgb: seq<bv8>, t: seq<int>, q: nat, p: nat, k: nat)
    requires |rgb| == 3 * |start|
    requires forall i :: 0 <= i < |t| ==> 0 <= t[i] < 4 * |start|
    requires q < |t| && p < |start| && k < 4 && t[q] == 4 * p + k
    ensures 4 + q < |Stream(start, rgb, t)|
    ensures Stream(start, rgb, t)[4 + q] == if k == 0 then start[p] else rgb[3 * p + k - 1]
  {
    var f := Frame4(start, rgb);
    assert Stream(start, rgb, t)[4 + q] == Gather(f, t)[q];
    Frame4At(start, rgb, p, k);
  }

  // ------------------------------------------------------------ brightness

  /** The mask `(led_brightness & ~0xE0) | 0xE0` for a level that fits a
      byte: the top three bits set, the low five bits those of the level. */
  function BrightnessMask(level: bv8): (m: bv8)
    ensures (m & 0xE0) == 0xE0 && (m & 0x1F) == (level & 0x1F)
  {
    (level & !0xE0) | 0xE0
  }

  /** The start byte after a series of `&=` updates from the initial 0xFF. */
  function StartByteAfter(levels: seq<bv8>): bv8
  {
    if levels == [] then 0xFF
    else StartByteAfter(levels[..|levels| - 1]) & BrightnessMask(levels[|levels| - 1])
  }

  /** As written, a start byte can only lose bits: after any series of levels
      it carries every level's low bits ANDed together. */
  lemma {:induction false} StartByteAfterIsMeet(levels: seq<bv8>)
    ensures (StartByteAfter(levels) & 0xE0) == 0xE0
    ensures forall k :: 0 <= k < |levels| ==> (StartByteAfter(levels) & !BrightnessMask(levels[k])) == 0
  {
    if levels != [] {
      var init := levels[..|levels| - 1];
      StartByteAfterIsMeet(init);
      var m := BrightnessMask(levels[|levels| - 1]);
      var b := StartByteAfter(init);
      assert StartByteAfter(levels) == b & m;
      forall k | 0 <= k < |levels|
        ensures (StartByteAfter(levels) & !BrightnessMask(levels[k])) == 0
      {
        if k < |levels| - 1 {
          assert levels[k] == init[k];
          AndKeepsZero(b, m, BrightnessMask(levels[k]));
        } else {
          AndComplement(b, m);
        }
      }
    }
  }

  lemma AndKeepsZero(b: bv8, m: bv8, x: bv8)
    requires (b & !x) == 0
    ensures ((b & m) & !x) == 0
  {
  }

  lemma AndComplement(b: bv8, m: bv8)
    ensures ((b & m) & !m) == 0
  {
  }

  /** Dimming to level 8 and then asking for full brightness (31) leaves the
      start byte at 0xE8 instead of 0xFF. */
  lemma BrightnessCannotRise()
    ensures StartByteAfter([8, 31]) == 0xE8
    ensures BrightnessMask(31) == 0xFF
  {
    assert [8, 31][..1] == [8];
    assert [8][..0] == [];
  }

  // ------------------------------------------------------------ the driver

  class Display {
    const width: nat
    const height: nat
    const wiring: Wiring
    const colorType: ColorType
    /** `__pixel_coord_to_led_index`. */
    const coordToLed: array2<int>
    /** `__virtual_to_physical_byte_indices`, flattened. */
    const byteTable: array<int>
    /** `__led_frame_start_array`, flattened from shape (height, width, 1). */
    const startBytes: array<bv8>

    ghost predicate Valid()
      reads this, coordToLed, byteTable, startBytes
    {
      && MapFor(coordToLed, wiring, width, height)
      && TableFor(byteTable[..], wiring, width, height, ColorOffsets(colorType))
      && startBytes.Length == width * height
      && (forall p :: 0 <= p < startBytes.Length ==> (startBytes[p] & 0xE0) == 0xE0)
    }

    /** The lookup tables and the full-brightness start bytes. */
    constructor (width: nat, height: nat, wiring: Wiring, colorType: ColorType)
      ensures Valid() && fresh(startBytes)
      ensures this.width == width && this.height == height
      ensures this.wiring == wiring && this.colorType == colorType
      ensures forall p :: 0 <= p < startBytes.Length ==> startBytes[p] == 0xFF
    {
      var m := BuildLedMap(wiring, width, height);
      var t := BuildByteTable(m, wiring, width, height, ColorOffsets(colorType));
      this.width, this.height := width, height;
      this.wiring, this.colorType := wiring, colorType;
      coordToLed, byteTable := m, t;
      startBytes := new bv8[width * height](_ => 0xFF);
    }

    /** `set_brightness` for an already computed `led_brightness`: every
        start byte is ANDed with the mask, so bits can only be cleared. */
    method SetBrightness(level: bv8)
      requires Valid()
      modifies startBytes
      ensures Valid()
      ensures forall p :: 0 <= p < startBytes.Length ==>
        startBytes[p] == old(startBytes[p]) & BrightnessMask(level)
      ensures forall p :: 0 <= p < startBytes.Length ==> (startBytes[p] & !old(startBytes[p])) == 0
    {
      var mask := BrightnessMask(level);
      forall p | 0 <= p < startBytes.Length {
        startBytes[p] := startBytes[p] & mask;
      }
      forall p | 0 <= p < startBytes.Length ensures (startBytes[p] & !old(startBytes[p])) == 0 {
        AndComplement(mask, old(startBytes[p]));
        assert startBytes[p] == old(startBytes[p]) & mask;
        AndSwap(old(startBytes[p]), mask);
      }
    }

    /** The evidently intended update: every start byte becomes the mask, so
        the level set last is the level shown. */
    method SetBrightnessAssigned(level: bv8)
      requires Valid()
      modifies startBytes
      ensures Valid()
      ensures forall p :: 0 <= p < startBytes.Length ==>
        startBytes[p] == 0xE0 | (level & 0x1F)
    {
      var mask := BrightnessMask(level);
      forall p | 0 <= p < startBytes.Length {
        startBytes[p] := mask;
      }
      LowBitsMask(mask, level);
    }

    /** `show` for the channel bytes `rgb` (three bytes per pixel) that
        `__build_apa102_frame` concatenates: the frame buffer after its
        floating-point brightness lowering (`led_frame_with_brightness`),
        which comes in as this parameter. */
    method Show(rgb: seq<bv8>) returns (sent: seq<bv8>)
      requires Valid() && |rgb| == 3 * (width * height)
      ensures var n := width * height;
        && |sent| == 4 + 4 * n + (n + 15) / 16
        && (forall q :: 0 <= q < 4 ==> sent[q] == 0)
        && (forall q :: 4 + 4 * n <= q < |sent| ==> sent[q] == 0xFF)
        && (forall led :: 0 <= led < n ==>
              LedBytes(sent, startBytes[..], rgb, wiring, width, height, colorType, led))
    {
      StreamLayout(startBytes[..], rgb, byteTable[..], wiring, width, height, colorType);
      sent := Stream(startBytes[..], rgb, byteTable[..]);
    }
  }

  lemma AndSwap(a: bv8, b: bv8)
    ensures ((a & b) & !a) == 0
  {
  }

  lemma LowBitsMask(m: bv8, level: bv8)
    requires (m & 0xE0) == 0xE0 && (m & 0x1F) == (level & 0x1F)
    ensures m == 0xE0 | (level & 0x1F)
  {
  }
}
