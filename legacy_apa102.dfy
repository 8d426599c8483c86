/** The APA102 driver of the legacy tree. It shares the wiring and colour
    tables with the rewrite, keeps its brightness as a level in the frame
    buffer's `_brightness` field and recomputes the start byte on every
    `show`. The SPI device and the gamma table are not part of this model. */
module LegacyApa102 {
  import opened LedLayout
  import opened Apa102
  import DisplayBuffer

  /** `MAX_BRIGHTNESS`. */
  const MaxBrightness := 31

  /** `int((brightness / 100) * MAX_BRIGHTNESS)`: the percentage scaled to
      0..31, truncated toward zero. */
  function BrightnessLevel(percent: int): (level: int)
    ensures percent >= 0 ==> 0 <= level * 100 <= percent * MaxBrightness < level * 100 + 100
    ensures percent < 0 ==> level * 100 - 100 < percent * MaxBrightness <= level * 100 <= 0
    ensures 0 <= percent <= 100 ==> 0 <= level <= MaxBrightness
  {
    if percent >= 0 then percent * MaxBrightness / 100
    else -((-percent) * MaxBrightness / 100)
  }

  /** The byte `(_brightness & ~0b11100000) | 0b11100000` stored into a
      `uint8` array: the three top bits set and the low five bits those of
      the level. */
  function StartByte(level: int): (s: bv8)
    ensures s as int == 0xE0 + level % 32
  {
    StartByteLowBits(level);
    DisplayBuffer.Wrap(StartByteOf(level))
  }

  /** `n` copies of the byte `v`. */
  function Repeat(v: bv8, n: nat): (r: seq<bv8>)
    ensures |r| == n && forall k :: 0 <= k < n ==> r[k] == v
  {
    if n == 0 then [] else Repeat(v, n - 1) + [v]
  }

  class Display {
    /** The `AbstractDisplay` part: size, `_brightness` and `_buffer`. */
    const screen: DisplayBuffer.Display
    const wiring: Wiring
    const colorType: ColorType
    /** `__pixel_coord_to_led_index`. */
    const coordToLed: array2<int>
    /** `__virtual_to_physical_byte_indices`, flattened. */
    const byteTable: array<int>

    ghost predicate Valid()
      reads this, screen, coordToLed, byteTable
    {
      && screen.Valid()
      && MapFor(coordToLed, wiring, screen.width, screen.height)
      && TableFor(byteTable[..], wiring, screen.width, screen.height, ColorOffsets(colorType))
    }

    /** `__init__`: a zeroed buffer, the level for the given percentage and
        the lookup tables. */
    constructor (width: nat, height: nat, percent: int, wiring: Wiring, colorType: ColorType)
      ensures Valid() && fresh(screen)
      ensures screen.width == width && screen.height == height
      ensures this.wiring == wiring && this.colorType == colorType
      ensures screen.brightness == BrightnessLevel(percent)
      ensures forall k :: 0 <= k < |screen.buffer| ==> screen.buffer[k] == 0
    {
      var s := new DisplayBuffer.Display(width, height, BrightnessLevel(percent));
      var m := BuildLedMap(wiring, width, height);
      var t := BuildByteTable(m, wiring, width, height, ColorOffsets(colorType));
      screen := s;
      this.wiring, this.colorType := wiring, colorType;
      coordToLed, byteTable := m, t;
    }

    /** `set_brightness`: the level replaces the previous one. */
    method SetBrightness(percent: int)
      requires Valid()
      modifies screen`brightness
      ensures Valid() && screen.brightness == BrightnessLevel(percent)
    {
      screen.brightness := BrightnessLevel(percent);
    }

    /** `__get_brightness_array`, flattened: one start byte per pixel. */
    function BrightnessBytes(): (b: seq<bv8>)
      reads this, screen
      ensures |b| == screen.width * screen.height
      ensures forall p :: 0 <= p < |b| ==> b[p] as int == 0xE0 + screen.brightness % 32
    {
      Repeat(StartByte(screen.brightness), screen.width * screen.height)
    }

    /** `show` without gamma correction: start frame, per LED its start byte
        and its pixel's channels, end frame. */
    method Show() returns (sent: seq<bv8>)
      requires Valid()
      ensures var n := screen.width * screen.height;
        && |sent| == 4 + 4 * n + (n + 15) / 16
        && (forall q :: 0 <= q < 4 ==> sent[q] == 0)
        && (forall q :: 4 + 4 * n <= q < |sent| ==> sent[q] == 0xFF)
        && (forall led :: 0 <= led < n ==>
              LedBytes(sent, BrightnessBytes(), screen.buffer, wiring, screen.width,
                       screen.height, colorType, led))
    {
      var start := BrightnessBytes();
      StreamLayout(start, screen.buffer, byteTable[..], wiring, screen.width, screen.height, colorType);
      sent := Stream(start, screen.buffer, byteTable[..]);
    }
  }
}
