/** The Gameframe animation of both generations: the folder's `config.ini`
    and its defaults, the order of the `.bmp` frames, the centring of a
    frame on the matrix, the window generator that pans over the frames,
    and the checks on uploaded and removed variant folders. Decoding the
    bitmaps and reading the folder are replaced by the images and names
    they yield. */
module Gameframe {
  import opened Wrappers
  import PyText
  import DisplayBuffer
  import AnimationControl

  type Rgb = DisplayBuffer.Rgb
  type Image = DisplayBuffer.Image

  // ------------------------------------------------------------ config.ini

  /** A parsed `config.ini`: section, then option, then value. ConfigParser
      stores option names in lower case, so they are looked up that way. */
  type Ini = map<string, map<string, string>>

  function Get(ini: Ini, section: string, option: string): (r: Option<string>)
    ensures r.Some? <==> section in ini && option in ini[section]
    ensures r.Some? ==> r.value == ini[section][option]
  {
    if section in ini && option in ini[section] then Some(ini[section][option]) else None
  }

  /** The words `ConfigParser.getboolean` accepts, after lower-casing. */
  const TrueWords: set<string> := {"1", "yes", "true", "on"}
  const FalseWords: set<string> := {"0", "no", "false", "off"}

  /** `getboolean` of a present value; anything else raises ValueError. */
  function Boolean(v: string): (r: Result<bool>)
    ensures r.Err? ==> r.error == ValueError
  {
    var l := PyText.LowerAscii(v);
    if l in TrueWords then Ok(true) else if l in FalseWords then Ok(false) else Err(ValueError)
  }

  /** `int(parser.get(section, option, fallback=...))`. */
  function IntOption(ini: Ini, section: string, option: string, fallback: int): (r: Result<int>)
    ensures Get(ini, section, option).None? ==> r == Ok(fallback)
    ensures Get(ini, section, option).Some? ==>
      var p := PyText.ParseInt(Get(ini, section, option).value, 10);
      r == if p.Some? then Ok(p.value) else Err(ValueError)
  {
    match Get(ini, section, option)
    case None => Ok(fallback)
    case Some(v) =>
      match PyText.ParseInt(v, 10)
      case None => Err(ValueError)
      case Some(n) => Ok(n)
  }

  /** `parser.getboolean(section, option, fallback=...)`. */
  function BoolOption(ini: Ini, section: string, option: string, fallback: bool): (r: Result<bool>)
    ensures Get(ini, section, option).None? ==> r == Ok(fallback)
    ensures Get(ini, section, option).Some? ==> r == Boolean(Get(ini, section, option).value)
  {
    match Get(ini, section, option)
    case None => Ok(fallback)
    case Some(v) => Boolean(v)
  }

  /** `_GameframeConfig` / the fields `__read_config` sets. The next folder
      is a name in the rewrite and, as read, a boolean in the legacy tree. */
  datatype Config<N> = Config(hold: int, loop: bool, moveX: int, moveY: int,
                              moveLoop: bool, panOff: bool, nextFolder: Option<N>)

  /** The defaults: hold 100 ms, loop, no movement, no move loop, no pan off. */
  function Defaults<N>(): Config<N> {
    Config(100, true, 0, 0, false, false, None)
  }

  /** The six options both generations read, in their order; the first
      value that does not convert raises ValueError. */
  function ReadMotion<N>(ini: Ini): Result<Config<N>> {
    match IntOption(ini, "animation", "hold", 100)
    case Err(e) => Err(e)
    case Ok(hold) =>
    match BoolOption(ini, "animation", "loop", true)
    case Err(e) => Err(e)
    case Ok(loop) =>
    match IntOption(ini, "translate", "movex", 0)
    case Err(e) => Err(e)
    case Ok(moveX) =>
    match IntOption(ini, "translate", "movey", 0)
    case Err(e) => Err(e)
    case Ok(moveY) =>
    match BoolOption(ini, "translate", "loop", false)
    case Err(e) => Err(e)
    case Ok(moveLoop) =>
    match BoolOption(ini, "translate", "panoff", false)
    case Err(e) => Err(e)
    case Ok(panOff) => Ok(Config(hold, loop, moveX, moveY, moveLoop, panOff, None))
  }

  /** `_GameframeConfig.__post_init__`: without a `config.ini` the
      defaults; otherwise the options read, and the next folder as the name
      given, if any. */
  function ReadConfig(ini: Option<Ini>): (r: Result<Config<string>>)
    ensures ini.None? ==> r == Ok(Defaults())
    ensures ini.Some? && r.Ok? ==> r.value.nextFolder == Get(ini.value, "translate", "nextfolder")
  {
    if ini.None? then Ok(Defaults())
    else
      match ReadMotion<string>(ini.value)
      case Err(e) => Err(e)
      case Ok(c) => Ok(c.(nextFolder := Get(ini.value, "translate", "nextfolder")))
  }

  /** The legacy `__read_config`: the same options, but the next folder is
      read with `getboolean`, so a folder name raises ValueError. */
  function ReadConfigLegacy(ini: Option<Ini>): (r: Result<Config<bool>>)
    ensures ini.None? ==> r == Ok(Defaults())
  {
    if ini.None? then Ok(Defaults())
    else
      match ReadMotion<bool>(ini.value)
      case Err(e) => Err(e)
      case Ok(c) =>
        match Get(ini.value, "translate", "nextfolder")
        case None => Ok(c)
        case Some(v) =>
          match Boolean(v)
          case Err(e) => Err(e)
          case Ok(b) => Ok(c.(nextFolder := Some(b)))
  }

  /** A `config.ini` without any of the options gives the defaults. */
  lemma NoOptionsGiveDefaults(ini: Ini)
    requires "animation" !in ini && "translate" !in ini
    ensures ReadConfig(Some(ini)) == Ok(Defaults())
    ensures ReadConfigLegacy(Some(ini)) == Ok(Defaults())
  {
  }

  /** The `config.ini` a configuration is written as: numbers in decimal,
      flags as `true` / `false`, the next folder by name. */
  function IniOf(c: Config<string>): Ini {
    map["animation" := AnimationSection(c), "translate" := TranslateSection(c)]
  }

  function AnimationSection(c: Config<string>): map<string, string> {
    map["hold" := PyText.IntToString(c.hold), "loop" := FlagText(c.loop)]
  }

  function TranslateSection(c: Config<string>): map<string, string> {
    var translate := map["movex" := PyText.IntToString(c.moveX), "movey" := PyText.IntToString(c.moveY),
                         "loop" := FlagText(c.moveLoop), "panoff" := FlagText(c.panOff)];
    if c.nextFolder.Some? then translate["nextfolder" := c.nextFolder.value] else translate
  }

  function FlagText(b: bool): string {
    if b then "true" else "false"
  }

  lemma FlagTextRead(b: bool)
    ensures Boolean(FlagText(b)) == Ok(b)
  {
    if b {
      TrueTextRead();
    } else {
      FalseTextRead();
    }
  }

  lemma TrueTextRead()
    ensures Boolean("true") == Ok(true)
  {
    assert PyText.LowerAscii("true") == "true" by {
      PyText.LowerAsciiKeepsLower("true");
    }
    assert "true" in TrueWords;
  }

  lemma FalseTextRead()
    ensures Boolean("false") == Ok(false)
  {
    assert PyText.LowerAscii("false") == "false" by {
      PyText.LowerAsciiKeepsLower("false");
    }
    assert "false" !in TrueWords by {
      assert forall w | w in TrueWords :: |w| < 5;
    }
    assert "false" in FalseWords;
  }

  lemma IniOfOptions(c: Config<string>)
    ensures Get(IniOf(c), "animation", "hold") == Some(PyText.IntToString(c.hold))
    ensures Get(IniOf(c), "animation", "loop") == Some(FlagText(c.loop))
    ensures Get(IniOf(c), "translate", "movex") == Some(PyText.IntToString(c.moveX))
    ensures Get(IniOf(c), "translate", "movey") == Some(PyText.IntToString(c.moveY))
    ensures Get(IniOf(c), "translate", "loop") == Some(FlagText(c.moveLoop))
    ensures Get(IniOf(c), "translate", "panoff") == Some(FlagText(c.panOff))
    ensures Get(IniOf(c), "translate", "nextfolder") == c.nextFolder
  {
    var ini := IniOf(c);
    assert ini["animation"] == AnimationSection(c) && ini["translate"] == TranslateSection(c) by {
      assert "animation" != "translate";
    }
    TranslateOptions(c);
  }

  lemma TranslateOptions(c: Config<string>)
    ensures var t := TranslateSection(c);
      && "movex" in t && t["movex"] == PyText.IntToString(c.moveX)
      && "movey" in t && t["movey"] == PyText.IntToString(c.moveY)
      && "loop" in t && t["loop"] == FlagText(c.moveLoop)
      && "panoff" in t && t["panoff"] == FlagText(c.panOff)
      && ("nextfolder" in t <==> c.nextFolder.Some?)
      && (c.nextFolder.Some? ==> t["nextfolder"] == c.nextFolder.value)
  {
    assert "nextfolder" != "movex" && "nextfolder" != "movey" && "nextfolder" != "loop" && "nextfolder" != "panoff";
  }

  /** The six options of a written configuration read back. */
  lemma ReadMotionRoundTrip<N>(c: Config<string>)
    ensures ReadMotion<N>(IniOf(c)) == Ok(Config(c.hold, c.loop, c.moveX, c.moveY, c.moveLoop, c.panOff, None))
  {
    var ini := IniOf(c);
    IniOfOptions(c);
    PyText.ParseIntToString(c.hold);
    PyText.ParseIntToString(c.moveX);
    PyText.ParseIntToString(c.moveY);
    FlagTextRead(c.loop);
    FlagTextRead(c.moveLoop);
    FlagTextRead(c.panOff);
    assert IntOption(ini, "animation", "hold", 100) == Ok(c.hold);
    assert BoolOption(ini, "animation", "loop", true) == Ok(c.loop);
    assert IntOption(ini, "translate", "movex", 0) == Ok(c.moveX);
    assert IntOption(ini, "translate", "movey", 0) == Ok(c.moveY);
    assert BoolOption(ini, "translate", "loop", false) == Ok(c.moveLoop);
    assert BoolOption(ini, "translate", "panoff", false) == Ok(c.panOff);
  }

  /** Reading back a written configuration gives it back. */
  lemma ReadConfigRoundTrip(c: Config<string>)
    ensures ReadConfig(Some(IniOf(c))) == Ok(c)
  {
    ReadMotionRoundTrip<string>(c);
    IniOfOptions(c);
  }

  /** As written, the legacy reader refuses every configuration that names
      a next folder other than a boolean word, though the rewrite reads it. */
  lemma LegacyRejectsNextFolder(c: Config<string>)
    requires c.nextFolder.Some? && PyText.LowerAscii(c.nextFolder.value) !in TrueWords + FalseWords
    ensures ReadConfigLegacy(Some(IniOf(c))) == Err(ValueError)
    ensures ReadConfig(Some(IniOf(c))) == Ok(c)
  {
    ReadConfigRoundTrip(c);
    ReadMotionRoundTrip<bool>(c);
    IniOfOptions(c);
  }

  /** The repeat an animation runs with: forced to 0 unless it loops or
      move-loops. */
  function EffectiveRepeat<N>(c: Config<N>, repeat: int): (r: int)
    ensures c.loop || c.moveLoop ==> r == repeat
    ensures !(c.loop || c.moveLoop) ==> r == 0 && AnimationControl.Passes(r) == Some(1)
  {
    if !(c.loop || c.moveLoop) then 0 else repeat
  }

  // ------------------------------------------------------------ frame order

  /** `int(bmpfile.stem)` for every frame file, or ValueError when one stem
      is no integer. */
  function StemKeys(stems: seq<string>): (r: Result<seq<int>>)
    ensures r.Ok? ==> (|r.value| == |stems|
      && forall k :: 0 <= k < |stems| ==> PyText.ParseInt(stems[k], 10) == Some(r.value[k]))
    ensures r.Err? ==> (r.error == ValueError
      && exists k :: 0 <= k < |stems| && PyText.ParseInt(stems[k], 10).None?)
  {
    if forall k :: 0 <= k < |stems| ==> PyText.ParseInt(stems[k], 10).Some?
    then Ok(seq(|stems|, k requires 0 <= k < |stems| => PyText.ParseInt(stems[k], 10).value))
    else Err(ValueError)
  }

  /** Frame `a` comes before frame `b`: a smaller number, or the same number
      and found earlier (`sorted` is stable). */
  predicate Before(keys: seq<int>, a: nat, b: nat)
    requires a < |keys| && b < |keys|
  {
    keys[a] < keys[b] || (keys[a] == keys[b] && a < b)
  }

  predicate InOrder(keys: seq<int>, order: seq<nat>)
  {
    && (forall i :: 0 <= i < |order| ==> order[i] < |keys|)
    && (forall i, j :: 0 <= i < j < |order| ==> Before(keys, order[i], order[j]))
  }

  /** `__load_frames`' file order: the files sorted by the number in their
      name. A name that is no number raises ValueError while sorting; no
      file at all raises AttributeError. */
  method FrameOrder(stems: seq<string>) returns (r: Result<seq<nat>>)
    ensures StemKeys(stems).Err? ==> r == Err(ValueError)
    ensures StemKeys(stems).Ok? && stems == [] ==> r == Err(AttributeError)
    ensures r.Ok? ==> (StemKeys(stems).Ok? && |r.value| == |stems|
      && InOrder(StemKeys(stems).value, r.value)
      && forall k :: 0 <= k < |stems| ==> k in r.value)
  {
    var parsed := StemKeys(stems);
    if parsed.Err? {
      return Err(ValueError);
    }
    var order := SortByKeys(parsed.value);
    if |order| == 0 {
      return Err(AttributeError);
    }
    return Ok(order);
  }

  /** `sorted(range(len(keys)), key=keys.__getitem__)`, by insertion. */
  method SortByKeys(keys: seq<int>) returns (order: seq<nat>)
    ensures |order| == |keys| && InOrder(keys, order)
    ensures forall k :: 0 <= k < |keys| ==> k in order
  {
    order := [];
    var next := 0;
    while next < |keys|
      invariant 0 <= next <= |keys| && |order| == next
      invariant InOrder(keys, order)
      invariant forall i :: 0 <= i < |order| ==> order[i] < next
      invariant forall k :: 0 <= k < next ==> k in order
    {
      var p := 0;
      while p < |order| && keys[order[p]] <= keys[next]
        invariant 0 <= p <= |order|
        invariant forall q :: 0 <= q < p ==> keys[order[q]] <= keys[next]
      {
        p := p + 1;
      }
      InsertKeepsOrder(keys, order, p, next);
      InsertKeepsMembers(order, p, next);
      order := order[..p] + [next] + order[p..];
      next := next + 1;
    }
  }

  lemma InsertKeepsMembers(order: seq<nat>, p: nat, next: nat)
    requires p <= |order|
    requires forall i :: 0 <= i < |order| ==> order[i] < next
    requires forall k :: 0 <= k < next ==> k in order
    ensures var r := order[..p] + [next] + order[p..];
      (forall i :: 0 <= i < |r| ==> r[i] < next + 1) && forall k :: 0 <= k < next + 1 ==> k in r
  {
    var r := order[..p] + [next] + order[p..];
    assert r[p] == next;
    forall k | 0 <= k < next ensures k in r {
      assert k in order;
      var i :| 0 <= i < |order| && order[i] == k;
      if i < p { assert r[i] == k; } else { assert r[i + 1] == k; }
    }
  }

  /** Inserting a later file after every file with a number no larger
      keeps the order. */
  lemma InsertKeepsOrder(keys: seq<int>, order: seq<nat>, p: nat, next: nat)
    requires InOrder(keys, order) && next < |keys| && p <= |order|
    requires forall i :: 0 <= i < |order| ==> order[i] < next
    requires forall q :: 0 <= q < p ==> keys[order[q]] <= keys[next]
    requires p < |order| ==> keys[order[p]] > keys[next]
    ensures InOrder(keys, order[..p] + [next] + order[p..])
  {
    var r := order[..p] + [next] + order[p..];
    forall i, j | 0 <= i < j < |r| ensures Before(keys, r[i], r[j]) {
      if j < p || i > p {
        if i > p {
          assert r[i] == order[i - 1] && r[j] == order[j - 1];
        }
      } else if i == p {
        assert r[j] == order[j - 1];
        assert keys[order[p]] <= keys[order[j - 1]] by {
          if j - 1 > p {
            assert Before(keys, order[p], order[j - 1]);
          }
        }
      } else if j == p {
        assert r[i] == order[i];
      } else {
        assert r[i] == order[i] && r[j] == order[j - 1];
      }
    }
  }

  // ------------------------------------------------------------ centring

  /** `int(d / 2)`: the half, truncated toward zero. */
  function Half(d: int): (r: int)
    ensures d >= 0 ==> 0 <= r && d - 2 * r <= 1 && 2 * r <= d
    ensures d < 0 ==> r <= 0 && d <= 2 * r && 2 * r - d <= 1
  {
    if d >= 0 then d / 2 else -((-d) / 2)
  }

  /** The frame pasted at (`left`, `top`) on a `width` by `height`
      background; pixels outside the background are cut. */
  function Pasted(img: Image, h: nat, w: nat, width: nat, height: nat, left: int, top: int, bg: Rgb): (r: Image)
    requires DisplayBuffer.IsRect(img, h, w)
    ensures DisplayBuffer.IsRect(r, height, width)
    ensures forall y, x :: 0 <= y < height && 0 <= x < width ==>
      r[y][x] == if 0 <= y - top < h && 0 <= x - left < w then img[y - top][x - left] else bg
  {
    seq(height, y requires 0 <= y < height => seq(width, x requires 0 <= x < width =>
      if 0 <= y - top < h && 0 <= x - left < w then img[y - top][x - left] else bg))
  }

  /** A frame without movement: centred on a background of the matrix
      size, at (`int((W - w) / 2)`, `int((H - h) / 2)`). */
  function Centred(img: Image, h: nat, w: nat, width: nat, height: nat, bg: Rgb): (r: Image)
    requires DisplayBuffer.IsRect(img, h, w)
    ensures DisplayBuffer.IsRect(r, height, width)
  {
    Pasted(img, h, w, width, height, Half(width - w), Half(height - h), bg)
  }

  /** A frame no larger than the matrix is shown whole, with margins on
      either side that differ by at most one pixel, the larger one right
      (below); a larger frame loses at most one pixel more on the right
      (bottom) than on the left (top). */
  lemma CentredFrame(img: Image, h: nat, w: nat, width: nat, height: nat, bg: Rgb)
    requires DisplayBuffer.IsRect(img, h, w)
    ensures w <= width ==> var left := Half(width - w);
      0 <= left <= width - w - left <= left + 1
    ensures w > width ==> var cut := -Half(width - w);
      0 <= cut <= w - width - cut <= cut + 1
    ensures w <= width && h <= height ==>
      forall y, x :: 0 <= y < h && 0 <= x < w ==>
        Centred(img, h, w, width, height, bg)[y + Half(height - h)][x + Half(width - w)] == img[y][x]
  {
    var r := Centred(img, h, w, width, height, bg);
    if w <= width && h <= height {
      forall y, x | 0 <= y < h && 0 <= x < w
        ensures r[y + Half(height - h)][x + Half(width - w)] == img[y][x]
      {
      }
    }
  }

  /** `__global_crop_x` / `__global_crop_y` for a moving frame:
      `abs(int((W - move) / 2))` when the move is positive, 0 otherwise. */
  function GlobalCrop(size: nat, move: int): (r: nat)
    ensures move <= 0 ==> r == 0
  {
    if move > 0 then var c := Half(size - move); if c < 0 then -c else c else 0
  }

  /** A loaded frame: a moving animation keeps the whole image; otherwise
      it is centred on the matrix. */
  function LoadedFrame<N>(img: Image, h: nat, w: nat, c: Config<N>, width: nat, height: nat, bg: Rgb): (r: Image)
    requires DisplayBuffer.IsRect(img, h, w)
    ensures c.moveX > 0 || c.moveY > 0 ==> r == img
    ensures !(c.moveX > 0 || c.moveY > 0) ==> DisplayBuffer.IsRect(r, height, width)
  {
    if c.moveX > 0 || c.moveY > 0 then img else Centred(img, h, w, width, height, bg)
  }

  // ------------------------------------------------------------ the generator

  const Black := DisplayBuffer.Rgb(0, 0, 0)

  function Width(img: Image): nat {
    if img == [] then 0 else |img[0]|
  }

  function Abs(v: int): nat {
    if v < 0 then -v else v
  }

  /** `np.pad` with as many black columns as the frame is wide on either
      side. */
  function PadSides(img: Image): (r: Image)
    ensures |r| == |img|
  {
    var w := Width(img);
    seq(|img|, y requires 0 <= y < |img| => seq(w, _ => Black) + img[y] + seq(w, _ => Black))
  }

  /** `np.pad` with as many black rows as the frame is high above and
      below. */
  function PadAbove(img: Image): (r: Image)
    ensures |r| == 3 * |img|
  {
    var blank := seq(Width(img), _ => Black);
    seq(|img|, _ => blank) + img + seq(|img|, _ => blank)
  }

  /** With `pan_off` a moving frame pans in from and out to black. */
  function Panned<N>(frame: Image, c: Config<N>): Image {
    var a := if c.panOff && c.moveX != 0 then PadSides(frame) else frame;
    if c.panOff && c.moveY != 0 then PadAbove(a) else a
  }

  /** `frame[cur_y:cur_y+H, cur_x:cur_x+W, :]`, with Python's slice bounds
      (a negative start counts from the end). */
  function Window(frame: Image, cx: int, cy: int, width: nat, height: nat): Image {
    var rows := PyText.Slice(frame, cy, cy + height);
    seq(|rows|, k requires 0 <= k < |rows| => PyText.Slice(rows[k], cx, cx + width))
  }

  /** `frame.size == 0`. */
  predicate Empty(win: Image) {
    win == [] || win[0] == []
  }

  /** Where the generator cuts a frame, and the frame's size. */
  datatype Cursor = Cursor(cx: int, cy: int, w: int, h: int)

  /** The cut for the `k`-th frame yielded, started at (`x0`, `y0`): the
      `k`-th frame of the list, cyclically, moved `k` steps. */
  function CursorAt<N>(frames: seq<Image>, c: Config<N>, width: nat, height: nat, x0: int, y0: int, k: nat): (u: Cursor)
    requires frames != []
    ensures c.moveX >= 0 ==> u.cx == u.w - width - (x0 + k * Abs(c.moveX))
    ensures c.moveX < 0 ==> u.cx == x0 + k * Abs(c.moveX)
    ensures c.moveY >= 0 ==> u.cy == y0 + k * Abs(c.moveY)
    ensures c.moveY < 0 ==> u.cy == u.h - height - (y0 + k * Abs(c.moveY))
  {
    var f := Panned(frames[k % |frames|], c);
    var x := x0 + k * Abs(c.moveX);
    var y := y0 + k * Abs(c.moveY);
    Cursor(if c.moveX >= 0 then Width(f) - width - x else x,
           if c.moveY >= 0 then y else |f| - height - y, Width(f), |f|)
  }

  /** The pan has reached the far edge of the frame. */
  predicate PanEnded<N>(c: Config<N>, u: Cursor, width: nat, height: nat) {
    || (c.moveX > 0 && u.cx <= 0) || (c.moveX < 0 && u.cx >= u.w - width)
    || (c.moveY > 0 && u.cy + height >= u.h) || (c.moveY < 0 && u.cy <= 0)
  }

  /** The pan has room left. */
  predicate Moving<N>(c: Config<N>, u: Cursor, width: nat, height: nat) {
    || (c.moveX > 0 && u.cx > 0) || (c.moveX < 0 && u.cx < u.w - width)
    || (c.moveY > 0 && u.cy + height < u.h) || (c.moveY < 0 && u.cy > 0)
  }

  /** What the generator yields `k`-th, and whether it ends after it: at
      the far edge, or after the last frame unless it loops and still has
      room to pan. */
  datatype Shot = Shot(window: Image, stops: bool)

  function ShotAt<N>(frames: seq<Image>, c: Config<N>, width: nat, height: nat, x0: int, y0: int, k: nat): Shot
    requires frames != []
  {
    var u := CursorAt(frames, c, width, height, x0, y0, k);
    Shot(Window(Panned(frames[k % |frames|], c), u.cx, u.cy, width, height),
         PanEnded(c, u, width, height)
         || (k % |frames| == |frames| - 1 && !((c.loop || c.moveLoop) && Moving(c, u, width, height))))
  }

  /** Without movement one pass shows each frame once, in order, and ends
      after the last. */
  lemma StillFramesOnePass<N>(frames: seq<Image>, c: Config<N>, width: nat, height: nat, x0: int, y0: int, k: nat)
    requires frames != [] && c.moveX == 0 && c.moveY == 0
    ensures ShotAt(frames, c, width, height, x0, y0, k).stops <==> k % |frames| == |frames| - 1
    ensures k < |frames| ==>
      ShotAt(frames, c, width, height, x0, y0, k).window == Window(frames[k], Width(frames[k]) - width - x0, y0, width, height)
  {
    StillCursor(frames, c, width, height, x0, y0, k);
    if k < |frames| {
      ModUnique(k, |frames|, 0, k);
    }
  }

  /** Without movement every frame is cut at the start position and the
      pan never ends nor has room. */
  lemma StillCursor<N>(frames: seq<Image>, c: Config<N>, width: nat, height: nat, x0: int, y0: int, k: nat)
    requires frames != [] && c.moveX == 0 && c.moveY == 0
    ensures var f := frames[k % |frames|];
      var u := CursorAt(frames, c, width, height, x0, y0, k);
      && Panned(f, c) == f
      && u == Cursor(Width(f) - width - x0, y0, Width(f), |f|)
      && !PanEnded(c, u, width, height) && !Moving(c, u, width, height)
  {
    assert k * Abs(c.moveX) == 0 && k * Abs(c.moveY) == 0;
  }

  /** Before the far edge, a moving animation still has room: after the
      last frame the list starts over exactly when the animation loops or
      move-loops and moves at all. */
  lemma RestartsWhileMoving<N>(frames: seq<Image>, c: Config<N>, width: nat, height: nat, x0: int, y0: int, k: nat)
    requires frames != [] && k % |frames| == |frames| - 1
    requires !PanEnded(c, CursorAt(frames, c, width, height, x0, y0, k), width, height)
    ensures !ShotAt(frames, c, width, height, x0, y0, k).stops <==>
      (c.loop || c.moveLoop) && (c.moveX != 0 || c.moveY != 0)
  {
  }

  /** A horizontal pan ends once it has moved across the frame. */
  lemma PanEnds<N>(frames: seq<Image>, c: Config<N>, width: nat, height: nat, x0: int, y0: int, k: nat)
    requires frames != [] && c.moveX != 0
    requires x0 + k * Abs(c.moveX) >= Width(Panned(frames[k % |frames|], c)) - width
    ensures ShotAt(frames, c, width, height, x0, y0, k).stops
  {
  }

  /** The generator, `count` frames in, yields once more. */
  predicate Yields<N>(frames: seq<Image>, c: Config<N>, width: nat, height: nat, x0: int, y0: int, count: nat, finished: bool) {
    !finished && frames != [] && !Empty(ShotAt(frames, c, width, height, x0, y0, count).window)
  }

  lemma ModUnique(a: int, n: int, q: int, r: int)
    requires n > 0 && 0 <= r < n && a == n * q + r
    ensures a % n == r
  {
    var q', r' := a / n, a % n;
    assert n * (q' - q) == r - r';
    if q' > q {
      MulAtLeast(n, q' - q);
      assert false;
    } else if q' < q {
      MulAtLeast(n, q - q');
      assert false;
    }
  }

  lemma MulAtLeast(n: int, d: int)
    requires n > 0 && d >= 1
    ensures n * d >= n
  {
  }

  /** Walking the list cyclically: the index after `count % n`. */
  lemma NextIndex(count: nat, n: nat)
    requires n > 0
    ensures (count + 1) % n == if count % n + 1 == n then 0 else count % n + 1
  {
    var q, r := count / n, count % n;
    if r + 1 == n {
      ModUnique(count + 1, n, q + 1, 0);
    } else {
      ModUnique(count + 1, n, q, r + 1);
    }
  }

  lemma MulStep(k: nat, a: nat)
    ensures (k + 1) * a == k * a + a
  {
  }

  /** One turn of the generator loop, `k` frames in, with the frame index
      `i` and the offsets `x`, `y` it has reached: the cut of the panned
      frame, whether the generator ends after yielding it, and the index
      and offsets for the next turn. */
  method Advance<N>(frames: seq<Image>, c: Config<N>, width: nat, height: nat, x0: int, y0: int,
                    k: nat, i: nat, x: int, y: int)
    returns (window: Image, stops: bool, i': nat, x': int, y': int)
    requires frames != [] && i == k % |frames|
    requires x == x0 + k * Abs(c.moveX) && y == y0 + k * Abs(c.moveY)
    ensures Shot(window, stops) == ShotAt(frames, c, width, height, x0, y0, k)
    ensures !stops ==> i' == (k + 1) % |frames|
    ensures x' == x0 + (k + 1) * Abs(c.moveX) && y' == y0 + (k + 1) * Abs(c.moveY)
  {
    var frame := Panned(frames[i], c);
    var h, w := |frame|, Width(frame);
    var curX := if c.moveX >= 0 then w - width - x else x;
    var curY := if c.moveY >= 0 then y else h - height - y;
    var u := Cursor(curX, curY, w, h);
    assert u == CursorAt(frames, c, width, height, x0, y0, k);
    window := Window(frame, curX, curY, width, height);
    NextIndex(k, |frames|);
    MulStep(k, Abs(c.moveX));
    MulStep(k, Abs(c.moveY));
    i', x', y', stops := i + 1, x + Abs(c.moveX), y + Abs(c.moveY), false;
    if PanEnded(c, u, width, height) {
      stops := true;
    } else if i' == |frames| {
      if (c.loop || c.moveLoop) && Moving(c, u, width, height) {
        i' := 0;
      } else {
        stops := true;
      }
    }
  }

  /** The rewrite's animation thread: the frames, the generator's state
      (`i`, `x`, `y`) and the frame queue. */
  class GameframeAnimation {
    const frames: seq<Image>
    const config: Config<string>
    const width: nat
    const height: nat
    /** `__global_crop_x` and `__global_crop_y`, where `x` and `y` start. */
    const cropX: nat
    const cropY: nat
    const counter: AnimationControl.Repeat
    /** The animation speed set, in milliseconds. */
    const speed: int
    var i: nat
    var x: int
    var y: int
    /** The frames the current generator has yielded. */
    var count: nat
    /** The current generator has ended. */
    var finished: bool
    /** `_frame_queue`. */
    var queue: seq<Image>

    /** The generator moves `|move|` per frame yielded and walks the frame
        list cyclically. */
    ghost predicate Valid()
      reads this
    {
      && x == cropX + count * Abs(config.moveX) && y == cropY + count * Abs(config.moveY)
      && (frames != [] && !finished ==> i == count % |frames|)
    }

    /** `__init__` after the frames are loaded: the global crop is set for
        a positive move, the repeat is forced to 0 for an animation that
        neither loops nor move-loops, and the speed is the hold. */
    constructor (frames: seq<Image>, config: Config<string>, width: nat, height: nat, repeat: int)
      ensures Valid() && this.frames == frames && this.config == config
      ensures this.width == width && this.height == height
      ensures cropX == GlobalCrop(width, config.moveX) && cropY == GlobalCrop(height, config.moveY)
      ensures counter.repeat == EffectiveRepeat(config, repeat) && speed == config.hold
      ensures count == 0 && !finished && queue == []
    {
      this.frames, this.config, this.width, this.height := frames, config, width, height;
      cropX := GlobalCrop(width, config.moveX);
      cropY := GlobalCrop(height, config.moveY);
      counter := new AnimationControl.Repeat(EffectiveRepeat(config, repeat));
      speed := config.hold;
      i, x, y, count, finished, queue := 0, GlobalCrop(width, config.moveX), GlobalCrop(height, config.moveY), 0, false, [];
    }

    /** `next` on `__rendered_frames`: nothing from an empty list or an
        ended generator; an empty cut ends it; otherwise the cut is yielded
        and the generator ends as `ShotAt` says. */
    method Next() returns (f: Option<Image>)
      requires Valid()
      modifies this`i, this`x, this`y, this`count, this`finished
      ensures Valid()
      ensures old(finished) || frames == [] ==> f.None? && finished && count == old(count)
      ensures !old(finished) && frames != [] ==>
        var s := ShotAt(frames, config, width, height, cropX, cropY, old(count));
        && (Empty(s.window) ==> f.None? && finished && count == old(count))
        && (!Empty(s.window) ==> f == Some(s.window) && count == old(count) + 1 && finished == s.stops)
    {
      if finished || |frames| == 0 {
        finished := true;
        return None;
      }
      var window, stops, i', x', y' := Advance(frames, config, width, height, cropX, cropY, count, i, x, y);
      if Empty(window) {
        finished := true;
        return None;
      }
      f := Some(window);
      i, x, y, count, finished := i', x', y', count + 1, stops;
    }

    /** `render_next_frame`: a yielded frame is put and `true` returned;
        otherwise `false`, and when another iteration is due the generator
        starts over. */
    method RenderNextFrame() returns (more: bool)
      requires Valid()
      modifies this`i, this`x, this`y, this`count, this`finished, this`queue
      ensures Valid()
      ensures Yields(frames, config, width, height, cropX, cropY, old(count), old(finished)) ==>
        more && queue == old(queue) + [ShotAt(frames, config, width, height, cropX, cropY, old(count)).window]
      ensures !Yields(frames, config, width, height, cropX, cropY, old(count), old(finished)) ==>
        && !more && queue == old(queue)
        && (counter.IsNextIteration() ==> count == 0 && !finished)
        && (!counter.IsNextIteration() ==> finished)
    {
      var f := Next();
      if f.Some? {
        queue := queue + [f.value];
        return true;
      }
      if counter.IsNextIteration() {
        i, x, y, count, finished := 0, cropX, cropY, 0, false;
      }
      return false;
    }
  }

  lemma AppendShot<N>(frames: seq<Image>, c: Config<N>, width: nat, height: nat, out: seq<Image>, window: Image, stops: bool)
    requires frames != []
    requires forall k :: 0 <= k < |out| ==> out[k] == ShotAt(frames, c, width, height, 0, 0, k).window
    requires forall k :: 0 <= k < |out| ==> !ShotAt(frames, c, width, height, 0, 0, k).stops
    requires Shot(window, stops) == ShotAt(frames, c, width, height, 0, 0, |out|)
    ensures var next := out + [window];
      && (forall k :: 0 <= k < |next| ==> next[k] == ShotAt(frames, c, width, height, 0, 0, k).window)
      && (forall k :: 0 <= k < |next| ==> !stops ==> !ShotAt(frames, c, width, height, 0, 0, k).stops)
      && (forall k :: 0 <= k < |next| - 1 ==> !ShotAt(frames, c, width, height, 0, 0, k).stops)
      && ShotAt(frames, c, width, height, 0, 0, |next| - 1).stops == stops
  {
  }

  /** The legacy `__rendered_frames`, drained until it ends or `budget`
      frames are taken (the consumer's stop). It starts at (0, 0) and has
      no empty-cut check. */
  method LegacyRenderedFrames(frames: seq<Image>, c: Config<bool>, width: nat, height: nat, budget: nat)
    returns (out: seq<Image>)
    ensures frames == [] ==> out == []
    ensures |out| <= budget
    ensures frames != [] ==> forall k :: 0 <= k < |out| ==> out[k] == ShotAt(frames, c, width, height, 0, 0, k).window
    ensures frames != [] ==> forall k :: 0 <= k < |out| - 1 ==> !ShotAt(frames, c, width, height, 0, 0, k).stops
    ensures frames != [] && |out| < budget ==> |out| > 0 && ShotAt(frames, c, width, height, 0, 0, |out| - 1).stops
  {
    out := [];
    if |frames| == 0 {
      return;
    }
    var i, x, y := 0, 0, 0;
    while |out| < budget
      invariant |out| <= budget
      invariant i == |out| % |frames| && x == |out| * Abs(c.moveX) && y == |out| * Abs(c.moveY)
      invariant forall k :: 0 <= k < |out| ==> out[k] == ShotAt(frames, c, width, height, 0, 0, k).window
      invariant forall k :: 0 <= k < |out| ==> !ShotAt(frames, c, width, height, 0, 0, k).stops
    {
      var window, stops, i', x', y' := Advance(frames, c, width, height, 0, 0, |out|, i, x, y);
      AppendShot(frames, c, width, height, out, window, stops);
      out := out + [window];
      if stops {
        return;
      }
      i, x, y := i', x', y';
    }
  }

  // ------------------------------------------------------------ variants

  type Path = AnimationControl.Path

  /** An entry of the uploaded zip file: its path, as the components
      `extractall` writes, and whether it is a directory. */
  datatype ZipEntry = ZipEntry(fileName: string, path: Path, isDir: bool)

  /** What `_add_dynamic_variant` did. */
  datatype Added = NotZip | EmptyZip | AlreadyExists | Extracted

  /** A path component named by a string: `pathlib` drops a trailing
      slash. */
  function Component(s: string): (r: string)
    ensures |r| <= |s| && r == s[..|r|]
    ensures '/' !in s ==> r == s
  {
    if s != [] && s[|s| - 1] == '/' then s[..|s| - 1] else s
  }

  /** The upload's last extension is "zip" in any case. */
  predicate AcceptsZip(fileName: string) {
    PyText.LowerAscii(PyText.AfterLast(fileName, '.')) == "zip"
  }

  /** A zip with more than one entry whose first entry is a directory is
      extracted as it is. */
  predicate HasRootDir(entries: seq<ZipEntry>) {
    |entries| > 1 && entries[0].isDir
  }

  /** The variant directory whose existence is checked: the root entry's
      name, or the upload's name, each without its last extension. */
  function CheckedPath(dir: Path, fileName: string, entries: seq<ZipEntry>): (p: Path)
    requires entries != []
    ensures AnimationControl.InsideDir(dir, p) && |p| == |dir| + 1
  {
    var name := if HasRootDir(entries) then entries[0].fileName else fileName;
    dir + [Component(PyText.BeforeLast(name, '.'))]
  }

  /** Where the entries are extracted to. */
  function ExtractPath(dir: Path, fileName: string, entries: seq<ZipEntry>): (p: Path)
    requires entries != []
    ensures |p| >= |dir| && p[..|dir|] == dir
  {
    if HasRootDir(entries) then dir else CheckedPath(dir, fileName, entries)
  }

  /** The paths `extractall` writes under `base`. */
  function ExtractedPaths(base: Path, entries: seq<ZipEntry>): (r: set<Path>)
    ensures forall e :: e in entries ==> base + e.path in r
  {
    set e | e in entries :: base + e.path
  }

  /** Extraction under the gameframe directory writes only inside it. */
  lemma ExtractedInside(dir: Path, base: Path, entries: seq<ZipEntry>)
    requires |base| >= |dir| && base[..|dir|] == dir
    requires forall e :: e in entries ==> e.path != []
    ensures forall q :: q in ExtractedPaths(base, entries) ==> AnimationControl.InsideDir(dir, q)
  {
    forall q | q in ExtractedPaths(base, entries)
      ensures AnimationControl.InsideDir(dir, q)
    {
      var e :| e in entries && q == base + e.path;
      assert q[..|dir|] == base[..|dir|];
    }
  }

  /** The gameframe directory tree: every existing path in it. */
  class VariantTree {
    const dir: Path
    var paths: set<Path>

    constructor (dir: Path, paths: set<Path>)
      ensures this.dir == dir && this.paths == paths
    {
      this.dir, this.paths := dir, paths;
    }

    /** `_add_dynamic_variant`: not a zip, an empty zip or an existing
        variant directory change nothing; otherwise the variant directory is
        made when the zip has no root directory and every entry is extracted
        under the extraction path. */
    method AddDynamicVariant(fileName: string, entries: seq<ZipEntry>) returns (result: Added)
      requires forall e :: e in entries ==> e.path != []
      modifies this`paths
      ensures !AcceptsZip(fileName) ==>
        result == NotZip && paths == old(paths)
      ensures AcceptsZip(fileName) && entries == [] ==>
        result == EmptyZip && paths == old(paths)
      ensures AcceptsZip(fileName) && entries != [] ==>
        var base := ExtractPath(dir, fileName, entries);
        && (CheckedPath(dir, fileName, entries) in old(paths) ==> result == AlreadyExists && paths == old(paths))
        && (CheckedPath(dir, fileName, entries) !in old(paths) ==>
              result == Extracted
              && paths == old(paths) + (if HasRootDir(entries) then {} else {base})
                                     + ExtractedPaths(base, entries))
      ensures forall p :: !AnimationControl.InsideDir(dir, p) ==> (p in paths <==> p in old(paths))
    {
      if !AcceptsZip(fileName) {
        result := NotZip;
      } else if entries == [] {
        result := EmptyZip;
      } else if CheckedPath(dir, fileName, entries) in paths {
        result := AlreadyExists;
      } else {
        Extract(ExtractPath(dir, fileName, entries), !HasRootDir(entries), entries);
        result := Extracted;
      }
    }

    /** `extractall` under `base`, made first when `make` is set. */
    method Extract(base: Path, make: bool, entries: seq<ZipEntry>)
      requires AnimationControl.InsideDir(dir, base) || (!make && base == dir)
      requires forall e :: e in entries ==> e.path != []
      modifies this`paths
      ensures paths == old(paths) + (if make then {base} else {}) + ExtractedPaths(base, entries)
      ensures forall p :: !AnimationControl.InsideDir(dir, p) ==> (p in paths <==> p in old(paths))
    {
      ExtractedInside(dir, base, entries);
      paths := paths + (if make then {base} else {}) + ExtractedPaths(base, entries);
    }

    /** `_remove_dynamic_variant`: a directory inside the gameframe
        directory is removed with everything below it; anything else is
        left alone. */
    method RemoveDynamicVariant(resolved: Path)
      modifies this`paths
      ensures AnimationControl.InsideDir(dir, resolved) ==>
        paths == set p | p in old(paths) && p != resolved && !AnimationControl.InsideDir(resolved, p)
      ensures !AnimationControl.InsideDir(dir, resolved) ==> paths == old(paths)
      ensures forall p :: !AnimationControl.InsideDir(dir, p) && p in old(paths) ==> p in paths
    {
      if AnimationControl.InsideDir(dir, resolved) {
        paths := set p | p in paths && p != resolved && !AnimationControl.InsideDir(resolved, p);
      }
    }
  }
}
