/** The frame buffer of the legacy display base class: an array of shape
    (height, width, 3) holding red, green and blue per pixel, with the guarded
    ways to replace it or write into it. */
module DisplayBuffer {
  import opened Wrappers
  import LedLayout

  /** A colour as three bytes. */
  datatype Rgb = Rgb(red: bv8, green: bv8, blue: bv8)

  /** An image as rows of pixels (an `(h, w, 3)` array). */
  type Image = seq<seq<Rgb>>

  /** `img` has `h` rows of `w` pixels each. */
  predicate IsRect(img: Image, h: nat, w: nat) {
    |img| == h && forall y :: 0 <= y < h ==> |img[y]| == w
  }

  /** What can be assigned to the `buffer` property: an ndarray with its shape
      and flattened contents, or any other Python value. */
  datatype BufferValue = NdArray(shape: seq<nat>, data: seq<bv8>) | NotAnArray

  function ShapeSize(shape: seq<nat>): nat {
    if shape == [] then 1 else shape[0] * ShapeSize(shape[1..])
  }

  /** An ndarray holds exactly as many elements as its shape says. */
  predicate WellFormed(v: BufferValue) {
    v.NdArray? ==> |v.data| == ShapeSize(v.shape)
  }

  /** An element of the list handed to the flat-values setter: an int, or a
      value NumPy cannot convert to an integer. */
  datatype FlatValue = Num(n: int) | Unconvertible

  /** `np.array(values, dtype=np.uint8)` of the NumPy releases that still have
      `np.int` (before 1.24): ints wrap modulo 256; anything else fails. */
  function ToBytes(values: seq<FlatValue>): (r: Option<seq<bv8>>)
    ensures r.Some? <==> forall k :: 0 <= k < |values| ==> values[k].Num?
    ensures r.Some? ==> |r.value| == |values|
    ensures r.Some? ==> forall k :: 0 <= k < |values| ==> r.value[k] == Wrap(values[k].n)
  {
    if values == [] then Some([])
    else match (values[0], ToBytes(values[1..]))
      case (Num(n), Some(rest)) => Some([Wrap(n)] + rest)
      case _ => None
  }

  /** An int stored into a `uint8` array: its value modulo 256. */
  function Wrap(n: int): (b: bv8)
    ensures b as int == n % 256
  {
    ByteOf(n % 256)
  }

  /** The byte of value `m`, assembled from its binary digits. */
  function ByteOf(m: int): (b: bv8)
    requires 0 <= m < 256
    ensures b as int == m
  {
    if m == 0 then 0 else if m == 1 then 1 else ByteOf(m / 2) * 2 + ByteOf(m % 2)
  }

  /** `ndarray.resize((size,))`: truncates, or pads with zero bytes. */
  function Resized(data: seq<bv8>, size: nat): (r: seq<bv8>)
    ensures |r| == size
    ensures forall k :: 0 <= k < size ==> r[k] == if k < |data| then data[k] else 0
  {
    if |data| >= size then data[..size] else data + seq(size - |data|, _ => 0)
  }

  class Display {
    const width: nat
    const height: nat
    /** `_brightness`, as the concrete driver stores it. */
    var brightness: int
    /** `_buffer`, flattened in row-major order. */
    var buffer: seq<bv8>

    function NumPixels(): nat {
      height * width
    }

    ghost predicate Valid()
      reads this
    {
      |buffer| == 3 * NumPixels()
    }

    /** A zeroed buffer of shape (height, width, 3). */
    constructor (width: nat, height: nat, brightness: int)
      ensures Valid() && this.width == width && this.height == height
      ensures this.brightness == brightness
      ensures forall k :: 0 <= k < |buffer| ==> buffer[k] == 0
    {
      this.width, this.height, this.brightness := width, height, brightness;
      buffer := seq(3 * (height * width), _ => 0);
    }

    /** The `buffer` setter: only an ndarray of the same shape is taken. */
    method SetBuffer(value: BufferValue)
      requires Valid() && WellFormed(value)
      modifies this`buffer
      ensures Valid()
      ensures if value.NdArray? && value.shape == [height, width, 3] then buffer == value.data
              else buffer == old(buffer)
    {
      if value.NdArray? {
        if value.shape == [height, width, 3] {
          assert ShapeSize([3]) == 3;
          assert ShapeSize(value.shape) == height * (width * 3) by {
            assert value.shape[1..] == [width, 3] && value.shape[2..] == [3];
          }
          buffer := value.data;
        }
      }
    }

    /** `clear_buffer`: zeros of the same shape. */
    method ClearBuffer()
      requires Valid()
      modifies this`buffer
      ensures Valid() && forall k :: 0 <= k < |buffer| ==> buffer[k] == 0
    {
      buffer := seq(|buffer|, _ => 0);
    }

    /** `__set_pixel_at_index`: an index outside the pixels is ignored;
        otherwise bytes `3i .. 3i+2` take the colour. */
    method SetPixelAtIndex(index: int, color: Rgb)
      requires Valid()
      modifies this`buffer
      ensures Valid()
      ensures if index < 0 || index >= NumPixels() then buffer == old(buffer)
              else buffer == old(buffer)[3 * index := color.red][3 * index + 1 := color.green]
                                        [3 * index + 2 := color.blue]
    {
      if index < 0 || index >= NumPixels() {
        return;
      }
      var i := index * 3;
      buffer := buffer[i := color.red][i + 1 := color.green][i + 2 := color.blue];
    }

    /** `__set_pixel_at_coord`: a coordinate outside the matrix is ignored;
        otherwise only pixel `[y, x]` changes. */
    method SetPixelAtCoord(x: int, y: int, color: Rgb)
      requires Valid()
      modifies this`buffer
      ensures Valid()
      ensures if x < 0 || x >= width || y < 0 || y >= height then buffer == old(buffer)
              else
                var p := 3 * (y * width + x);
                p + 2 < |buffer| &&
                buffer == old(buffer)[p := color.red][p + 1 := color.green][p + 2 := color.blue]
    {
      if x < 0 || x >= width || y < 0 || y >= height {
        return;
      }
      var p := 3 * (y * width + x);
      LedLayout.BlockBound(x, y, width, height);
      buffer := buffer[p := color.red][p + 1 := color.green][p + 2 := color.blue];
    }

    /** `__set_buffer_with_flat_values`: the values are converted, resized to
        `3 * num_pixels` and reshaped; if conversion fails nothing changes. */
    method SetBufferWithFlatValues(values: seq<FlatValue>)
      requires Valid()
      modifies this`buffer
      ensures Valid()
      ensures (exists k :: 0 <= k < |values| && values[k].Unconvertible?) ==> buffer == old(buffer)
      ensures (forall k :: 0 <= k < |values| ==> values[k].Num?) ==>
        forall k :: 0 <= k < |buffer| ==>
          buffer[k] == if k < |values| then Wrap(values[k].n) else 0
    {
      var converted := ToBytes(values);
      if converted.None? {
        return;
      }
      buffer := Resized(converted.value, 3 * NumPixels());
    }
  }
}
