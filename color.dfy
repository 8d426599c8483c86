/** The `Color` value of both generations: three integer components, made
    from integers, from `#rrggbb` text or (legacy) from a list, and written
    back as `#rrggbb`. */
module RgbColor {
  import opened Wrappers
  import PyText

  datatype Color = Color(red: int, green: int, blue: int)

  /** Every component is a byte value. */
  predicate InByteRange(c: Color) {
    0 <= c.red < 256 && 0 <= c.green < 256 && 0 <= c.blue < 256
  }

  /** `format(v, 'x').zfill(2)`. */
  function HexByte(v: int): string {
    PyText.ZFill(PyText.HexString(v), 2)
  }

  /** `hex_value`: `#` and each component as `HexByte`. */
  function HexValue(c: Color): string {
    "#" + HexByte(c.red) + HexByte(c.green) + HexByte(c.blue)
  }

  predicate StartsWithHash(s: string) {
    |s| > 0 && s[0] == '#'
  }

  /** `int(s[1:3], 16)`, `int(s[3:5], 16)` and `int(s[5:7], 16)`; a slice
      that is no hexadecimal number raises ValueError. */
  function ParseHexColor(s: string): Result<Color> {
    match (PyText.ParseInt(PyText.Slice(s, 1, 3), 16),
           PyText.ParseInt(PyText.Slice(s, 3, 5), 16),
           PyText.ParseInt(PyText.Slice(s, 5, 7), 16))
    case (Some(r), Some(g), Some(b)) => Ok(Color(r, g, b))
    case _ => Err(ValueError)
  }

  // ------------------------------------------------------------ rewrite

  /** The first argument of the rewrite's constructor: an int (with the
      other two components), a string, or anything else. */
  datatype Arg = IntArgs(red: int, green: int, blue: int) | Text(s: string) | OtherArg

  /** `Color.__init__`: ints are stored unchanged, a `#` string is parsed
      as hexadecimal, anything else is black. */
  function NewColor(arg: Arg): (r: Result<Color>)
    ensures arg.IntArgs? ==> r == Ok(Color(arg.red, arg.green, arg.blue))
    ensures arg.OtherArg? || (arg.Text? && !StartsWithHash(arg.s)) ==> r == Ok(Color(0, 0, 0))
    ensures r.Err? ==> r.error == ValueError && arg.Text? && StartsWithHash(arg.s)
  {
    match arg
    case IntArgs(r, g, b) => Ok(Color(r, g, b))
    case Text(s) => if StartsWithHash(s) then ParseHexColor(s) else Ok(Color(0, 0, 0))
    case OtherArg => Ok(Color(0, 0, 0))
  }

  /** `pil_tuple`: the components in order, from which the same colour is
      made again. */
  function PilTuple(c: Color): (t: (int, int, int))
    ensures NewColor(IntArgs(t.0, t.1, t.2)) == Ok(c)
  {
    (c.red, c.green, c.blue)
  }

  /** A byte value takes exactly two lower-case hexadecimal digits, which
      `int(_, 16)` reads back. */
  lemma HexByteShape(v: int)
    requires 0 <= v < 256
    ensures |HexByte(v)| == 2 && PyText.IsDigitText(HexByte(v))
    ensures PyText.ParseInt(HexByte(v), 16) == Some(v)
  {
    var s := PyText.HexString(v);
    HexDigitCount(v);
    PyText.NatToStringShape(v, 16);
    PyText.ParseHexZFill(v);
    if |s| < 2 {
      PadOne(s);
    }
  }

  lemma HexDigitCount(v: int)
    requires 0 <= v < 256
    ensures 1 <= |PyText.HexString(v)| <= 2
  {
    if v < 16 {
      assert PyText.NatDigits(v, 16) == [v];
    } else {
      assert PyText.NatDigits(v / 16, 16) == [v / 16];
      assert PyText.NatDigits(v, 16) == [v / 16, v % 16];
    }
  }

  /** `zfill(2)` puts one zero before a single digit. */
  lemma PadOne(s: string)
    requires |s| == 1 && PyText.IsDigitText(s)
    ensures PyText.ZFill(s, 2) == "0" + s && PyText.IsDigitText("0" + s)
  {
    var t := "0" + s;
    assert t[1] == s[0];
  }

  /** `hex_value` of a colour with byte components is `#` and three pairs
      of lower-case hexadecimal digits. */
  lemma HexValueShape(c: Color)
    requires InByteRange(c)
    ensures var h := HexValue(c);
      && |h| == 7 && h[0] == '#'
      && h[1..3] == HexByte(c.red) && h[3..5] == HexByte(c.green) && h[5..7] == HexByte(c.blue)
      && PyText.IsDigitText(h[1..3]) && PyText.IsDigitText(h[3..5]) && PyText.IsDigitText(h[5..7])
  {
    HexByteShape(c.red);
    HexByteShape(c.green);
    HexByteShape(c.blue);
    SevenParts("#", HexByte(c.red), HexByte(c.green), HexByte(c.blue));
  }

  lemma SevenParts(p: string, a: string, b: string, c: string)
    requires |p| == 1 && |a| == 2 && |b| == 2 && |c| == 2
    ensures var h := p + a + b + c;
      |h| == 7 && h[0] == p[0] && h[1..3] == a && h[3..5] == b && h[5..7] == c
  {
  }

  /** `hex_value` of a colour with byte components parses back to it. */
  lemma ParseHexValue(c: Color)
    requires InByteRange(c)
    ensures ParseHexColor(HexValue(c)) == Ok(c)
  {
    var h := HexValue(c);
    HexValueShape(c);
    HexPair(h, 1, c.red);
    HexPair(h, 3, c.green);
    HexPair(h, 5, c.blue);
  }

  /** Two digits written by `HexByte` read back through `int(s[i:i+2], 16)`. */
  lemma HexPair(h: string, i: nat, v: int)
    requires 0 <= v < 256 && i + 2 <= |h| && h[i..i + 2] == HexByte(v)
    ensures PyText.ParseInt(PyText.Slice(h, i, i + 2), 16) == Some(v)
  {
    PyText.SliceInRange(h, i, i + 2);
    HexByteShape(v);
  }


  /** `Color(c.hex_value) == c` for byte components. */
  lemma HexRoundTrip(c: Color)
    requires InByteRange(c)
    ensures NewColor(Text(HexValue(c))) == Ok(c)
  {
    ParseHexValue(c);
    HexValueStartsWithHash(c);
  }

  lemma HexValueStartsWithHash(c: Color)
    ensures StartsWithHash(HexValue(c))
  {
    HashFirst(HexByte(c.red), HexByte(c.green), HexByte(c.blue));
  }

  lemma HashFirst(a: string, b: string, c: string)
    ensures StartsWithHash("#" + a + b + c)
  {
    assert ("#" + a + b + c)[0] == ("#" + a)[0] == '#';
  }

  // ------------------------------------------------------------ legacy

  /** A Python value handed to the legacy constructor. */
  datatype PyValue = IntV(i: int) | StrV(s: string) | ListV(items: seq<PyValue>) | NoneV

  /** `int(v)`: an int unchanged, a string as decimal text (ValueError
      otherwise), anything else TypeError. */
  function ToInt(v: PyValue): (r: Result<int>)
    ensures v.IntV? ==> r == Ok(v.i)
    ensures v.ListV? || v.NoneV? ==> r == Err(TypeError)
  {
    match v
    case IntV(i) => Ok(i)
    case StrV(s) => (match PyText.ParseInt(s, 10) case Some(i) => Ok(i) case None => Err(ValueError))
    case _ => Err(TypeError)
  }

  /** `int(a)`, `int(b)`, `int(c)` in that order, the first failure
      propagating. */
  function ThreeInts(a: PyValue, b: PyValue, c: PyValue): Result<Color> {
    match ToInt(a)
    case Err(e) => Err(e)
    case Ok(r) =>
      match ToInt(b)
      case Err(e) => Err(e)
      case Ok(g) =>
        match ToInt(c)
        case Err(e) => Err(e)
        case Ok(bl) => Ok(Color(r, g, bl))
  }

  /** The legacy `Color(*args)`: three arguments are int-converted; one list
      or tuple gives its first three items (IndexError if shorter); one `#`
      string is parsed; any other single argument leaves the components
      unset (`None` here); any other number of arguments gives black. */
  function LegacyNewColor(args: seq<PyValue>): (r: Result<Option<Color>>)
    ensures |args| != 1 && |args| != 3 ==> r == Ok(Some(Color(0, 0, 0)))
    ensures |args| == 3 && args[0].IntV? && args[1].IntV? && args[2].IntV? ==>
      r == Ok(Some(Color(args[0].i, args[1].i, args[2].i)))
    ensures r == Ok(None) <==> |args| == 1 && !args[0].ListV? && !(args[0].StrV? && StartsWithHash(args[0].s))
  {
    if |args| == 3 then
      match ThreeInts(args[0], args[1], args[2])
      case Ok(c) => Ok(Some(c))
      case Err(e) => Err(e)
    else if |args| == 1 then
      match args[0]
      case ListV(items) =>
        if |items| == 0 then Err(IndexError)
        else if ToInt(items[0]).Err? then Err(ToInt(items[0]).error)
        else if |items| == 1 then Err(IndexError)
        else if ToInt(items[1]).Err? then Err(ToInt(items[1]).error)
        else if |items| == 2 then Err(IndexError)
        else (match ThreeInts(items[0], items[1], items[2]) case Ok(c) => Ok(Some(c)) case Err(e) => Err(e))
      case StrV(s) =>
        if StartsWithHash(s) then
          (match ParseHexColor(s) case Ok(c) => Ok(Some(c)) case Err(e) => Err(e))
        else Ok(None)
      case _ => Ok(None)
    else Ok(Some(Color(0, 0, 0)))
  }

  /** The legacy `hex_value`: the same text, or AttributeError when the
      components were never set. */
  function LegacyHexValue(c: Option<Color>): (r: Result<string>)
    ensures c.None? <==> r == Err(AttributeError)
  {
    match c
    case Some(col) => Ok(HexValue(col))
    case None => Err(AttributeError)
  }

  /** Both generations make the same colour from three ints and from a `#`
      string, and the legacy hex text of a byte colour parses back to it. */
  lemma LegacyAgrees(r: int, g: int, b: int, s: string)
    ensures LegacyNewColor([IntV(r), IntV(g), IntV(b)]) == Ok(Some(Color(r, g, b)))
    ensures NewColor(IntArgs(r, g, b)) == Ok(Color(r, g, b))
    ensures StartsWithHash(s) ==>
      match NewColor(Text(s))
      case Ok(c) => LegacyNewColor([StrV(s)]) == Ok(Some(c))
      case Err(e) => LegacyNewColor([StrV(s)]) == Err(e)
  {
    var args := [IntV(r), IntV(g), IntV(b)];
    assert LegacyNewColor(args) == Ok(Some(Color(r, g, b))) by {
      assert |args| == 3 && args[0] == IntV(r) && args[1] == IntV(g) && args[2] == IntV(b);
    }
    if StartsWithHash(s) {
      LegacyOneString(s);
    }
  }

  lemma LegacyHexRoundTrip(c: Color)
    requires InByteRange(c)
    ensures LegacyNewColor([StrV(HexValue(c))]) == Ok(Some(c))
    ensures LegacyHexValue(Some(c)) == Ok(HexValue(c))
  {
    var h := HexValue(c);
    assert StartsWithHash(h) by {
      HexValueShape(c);
    }
    ParseHexValue(c);
    LegacyOneString(h);
  }

  /** A single string argument: parsed when it starts with `#`, left
      without components otherwise. */
  lemma LegacyOneString(s: string)
    ensures StartsWithHash(s) ==>
      LegacyNewColor([StrV(s)]) == match ParseHexColor(s) case Ok(c) => Ok(Some(c)) case Err(e) => Err(e)
    ensures !StartsWithHash(s) ==> LegacyNewColor([StrV(s)]) == Ok(None)
  {
  }

  /** A single plain string such as `"red"` leaves the legacy colour
      without components, so reading its hex value raises. */
  lemma LegacyPlainStringUnset(s: string)
    requires !StartsWithHash(s)
    ensures LegacyNewColor([StrV(s)]) == Ok(None)
    ensures LegacyHexValue(None) == Err(AttributeError)
    ensures NewColor(Text(s)) == Ok(Color(0, 0, 0))
  {
  }
}
