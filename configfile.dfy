/** The rewrite's INI configuration file: the reader's defaulting and
    casting rule, the section context it reads in, the five sections it
    reads, and the order the writer puts them in. */
module ConfigFile {
  import opened Wrappers
  import PyText
  import LedLayout
  import MainConfig
  import IpAddress

  /** What the INI parser hands back for a key: nothing found, `None`, a
      list (repeated key), or one scalar. A bare key comes back as `True`. */
  datatype IniValue = NotFound | NoneV | ListV | BoolV(b: bool) | IntV(i: int) | StrV(s: string)

  /** The parsed file: section name to key to value. */
  type IniFile = map<string, map<string, IniValue>>

  /** The target types `__get_value` is called with. */
  datatype Target = StrT | IntT | BoolT

  datatype Typed = TStr(s: string) | TInt(i: int) | TBool(b: bool)

  predicate HasType(v: Typed, t: Target) {
    match t
    case StrT => v.TStr?
    case IntT => v.TInt?
    case BoolT => v.TBool?
  }

  function Lookup(file: IniFile, section: string, key: string): IniValue {
    if section in file && key in file[section] then file[section][key] else NotFound
  }

  /** `str(v)`, `int(v)` or `bool(v)` of a scalar: `int` of text that is no
      decimal number raises ValueError; a non-empty string is true. */
  function Cast(v: IniValue, t: Target): (r: Result<Typed>)
    requires v.BoolV? || v.IntV? || v.StrV?
    ensures r.Ok? ==> HasType(r.value, t)
    ensures r.Err? ==> r.error == ValueError && t == IntT && v.StrV?
    ensures v.StrV? && t == StrT ==> r == Ok(TStr(v.s))
    ensures v.IntV? && t == IntT ==> r == Ok(TInt(v.i))
    ensures v.BoolV? && t == BoolT ==> r == Ok(TBool(v.b))
  {
    match t
    case StrT =>
      Ok(TStr(match v
        case StrV(s) => s
        case IntV(i) => PyText.IntToString(i)
        case BoolV(b) => if b then "True" else "False"))
    case IntT =>
      (match v
       case IntV(i) => Ok(TInt(i))
       case BoolV(b) => Ok(TInt(if b then 1 else 0))
       case StrV(s) =>
         match PyText.ParseInt(s, 10)
         case Some(i) => Ok(TInt(i))
         case None => Err(ValueError))
    case BoolT =>
      Ok(TBool(match v
        case BoolV(b) => b
        case IntV(i) => i != 0
        case StrV(s) => |s| > 0))
  }

  /** `__get_value`: RuntimeError outside a section; the default for a
      missing key, `None`, a list, or a bare key read as anything but a
      bool; otherwise the value cast to the target type, a cast error
      propagating. */
  function GetValue(file: IniFile, current: Option<string>, key: string, t: Target, default: Typed): (r: Result<Typed>)
    requires HasType(default, t)
    ensures current.None? <==> r == Err(RuntimeError)
    ensures r.Ok? ==> HasType(r.value, t)
    ensures current.Some? ==>
      (var v := Lookup(file, current.value, key);
      && (v.NotFound? || v.NoneV? || v.ListV? || (t != BoolT && v == BoolV(true)) ==> r == Ok(default))
      && (v.StrV? && t == StrT ==> r == Ok(TStr(v.s)))
      && (v.IntV? && t == IntT ==> r == Ok(TInt(v.i)))
      && (v.BoolV? && t == BoolT ==> r == Ok(TBool(v.b))))
  {
    if current.None? then Err(RuntimeError)
    else
      var v := Lookup(file, current.value, key);
      if v.NoneV? || v.NotFound? || (t != BoolT && v == BoolV(true)) || v.ListV? then Ok(default)
      else Cast(v, t)
  }

  /** One `__get_value` call of a section reader: key, target type and
      default. */
  datatype Spec = Spec(key: string, target: Target, default: Typed)

  predicate WellTyped(specs: seq<Spec>) {
    forall k :: 0 <= k < |specs| ==> HasType(specs[k].default, specs[k].target)
  }

  /** The calls of one section reader, in order, inside its section. */
  function Values(file: IniFile, section: string, specs: seq<Spec>): (r: Result<seq<Typed>>)
    requires WellTyped(specs)
    ensures r.Ok? ==> (|r.value| == |specs|
      && forall k :: 0 <= k < |specs| ==> HasType(r.value[k], specs[k].target))
  {
    if specs == [] then Ok([])
    else
      match GetValue(file, Some(section), specs[0].key, specs[0].target, specs[0].default)
      case Err(e) => Err(e)
      case Ok(v) =>
        match Values(file, section, specs[1..])
        case Err(e) => Err(e)
        case Ok(vs) => Ok([v] + vs)
  }

  /** The defaults of a section reader's calls, in order. */
  function DefaultsOf(specs: seq<Spec>): (r: seq<Typed>)
    ensures |r| == |specs| && forall k :: 0 <= k < |specs| ==> r[k] == specs[k].default
  {
    if specs == [] then [] else [specs[0].default] + DefaultsOf(specs[1..])
  }

  /** A section without any of the keys yields every default. */
  lemma {:induction false} MissingSectionDefaults(file: IniFile, section: string, specs: seq<Spec>)
    requires WellTyped(specs)
    requires section !in file
    ensures Values(file, section, specs) == Ok(DefaultsOf(specs))
  {
    if specs != [] {
      assert WellTyped(specs[1..]) by {
        forall k | 0 <= k < |specs[1..]| ensures HasType(specs[1..][k].default, specs[1..][k].target) {
          assert specs[1..][k] == specs[k + 1];
        }
      }
      MissingSectionDefaults(file, section, specs[1..]);
    }
  }

  // ------------------------------------------------------------ settings

  datatype Hardware = Apa102Hardware | ComputerHardware

  /** `Hardware(s)`: the enumeration's values are its names. */
  function HardwareOf(s: string): (r: Result<Hardware>)
    ensures r.Ok? <==> s == "APA102" || s == "COMPUTER"
    ensures r.Err? ==> r.error == ValueError
  {
    if s == "APA102" then Ok(Apa102Hardware)
    else if s == "COMPUTER" then Ok(ComputerHardware)
    else Err(ValueError)
  }

  function HardwareName(h: Hardware): (s: string)
    ensures HardwareOf(s) == Ok(h)
  {
    match h
    case Apa102Hardware => "APA102"
    case ComputerHardware => "COMPUTER"
  }

  /** `LEDColorType(i)`: 1 RGB, 2 RBG, 3 GRB, 4 GBR, 5 BGR, 6 BRG. */
  function ColorTypeOf(i: int): (r: Result<LedLayout.ColorType>)
    ensures r.Ok? <==> 1 <= i <= 6
    ensures r.Err? ==> r.error == ValueError
  {
    if i == 1 then Ok(LedLayout.RGB) else if i == 2 then Ok(LedLayout.RBG)
    else if i == 3 then Ok(LedLayout.GRB) else if i == 4 then Ok(LedLayout.GBR)
    else if i == 5 then Ok(LedLayout.BGR) else if i == 6 then Ok(LedLayout.BRG)
    else Err(ValueError)
  }

  function ColorTypeValue(c: LedLayout.ColorType): (i: int)
    ensures ColorTypeOf(i) == Ok(c)
  {
    match c
    case RGB => 1 case RBG => 2 case GRB => 3 case GBR => 4 case BGR => 5 case BRG => 6
  }

  /** `LEDWireMode(i)`: 1 line by line, 2 zig-zag. */
  function WireModeOf(i: int): (r: Result<LedLayout.WireMode>)
    ensures r.Ok? <==> i == 1 || i == 2
  {
    if i == 1 then Ok(LedLayout.LineByLine) else if i == 2 then Ok(LedLayout.ZigZag) else Err(ValueError)
  }

  function WireModeValue(w: LedLayout.WireMode): (i: int)
    ensures WireModeOf(i) == Ok(w)
  {
    if w.LineByLine? then 1 else 2
  }

  /** `LEDOrientation(i)`: 1 horizontally, 2 vertically. */
  function OrientationOf(i: int): (r: Result<LedLayout.Orientation>)
    ensures r.Ok? <==> i == 1 || i == 2
  {
    if i == 1 then Ok(LedLayout.Horizontally) else if i == 2 then Ok(LedLayout.Vertically) else Err(ValueError)
  }

  function OrientationValue(o: LedLayout.Orientation): (i: int)
    ensures OrientationOf(i) == Ok(o)
  {
    if o.Horizontally? then 1 else 2
  }

  /** `LEDOrigin(i)`: 1 top left, 2 top right, 3 bottom left, 4 bottom right. */
  function OriginOf(i: int): (r: Result<LedLayout.Origin>)
    ensures r.Ok? <==> 1 <= i <= 4
  {
    if i == 1 then Ok(LedLayout.TopLeft) else if i == 2 then Ok(LedLayout.TopRight)
    else if i == 3 then Ok(LedLayout.BottomLeft) else if i == 4 then Ok(LedLayout.BottomRight)
    else Err(ValueError)
  }

  function OriginValue(o: LedLayout.Origin): (i: int)
    ensures OriginOf(i) == Ok(o)
  {
    match o
    case TopLeft => 1 case TopRight => 2 case BottomLeft => 3 case BottomRight => 4
  }

  datatype Main = Main(hardware: Hardware, displayWidth: int, displayHeight: int,
                       dayBrightness: int, nightBrightness: int, httpServer: bool,
                       httpServerPort: int, httpServerListenIp: string, tpm2netServer: bool)
  datatype DefaultAnimation = DefaultAnimation(animationName: string, variant: string, parameter: string, repeat: int)
  datatype Apa102 = Apa102(colorType: LedLayout.ColorType, wireMode: LedLayout.WireMode,
                           orientation: LedLayout.Orientation, origin: LedLayout.Origin)
  datatype Computer = Computer(margin: int, ledSize: int)
  datatype Settings = Settings(main: Main, defaultAnimation: DefaultAnimation, apa102: Apa102,
                               computer: Computer, scheduleTable: string)

  /** The dataclass defaults. */
  const Defaults := Settings(
    Main(Apa102Hardware, MainConfig.DefaultWidth, MainConfig.DefaultHeight, MainConfig.DefaultDayBrightness,
         MainConfig.NightDisabled, true, MainConfig.DefaultHttpPort, MainConfig.DefaultListenIp, false),
    DefaultAnimation("dummy", "null", "null", 0),
    Apa102(LedLayout.BGR, LedLayout.ZigZag, LedLayout.Horizontally, LedLayout.TopLeft),
    Computer(5, 30),
    "[]")

  const MainSection := "MAIN"
  const DefaultAnimationSection := "DEFAULTANIMATION"
  const Apa102Section := "APA102"
  const ComputerSection := "COMPUTER"
  const ScheduledAnimationsSection := "SCHEDULEDANIMATIONS"

  /** The keys of each section reader with their types and defaults. */
  function MainSpecs(): (s: seq<Spec>)
    ensures WellTyped(s) && |s| == 9
  {
    var d := Defaults.main;
    [Spec("Hardware", StrT, TStr(HardwareName(d.hardware))),
     Spec("DisplayWidth", IntT, TInt(d.displayWidth)),
     Spec("DisplayHeight", IntT, TInt(d.displayHeight)),
     Spec("DayBrightness", IntT, TInt(d.dayBrightness)),
     Spec("NightBrightness", IntT, TInt(d.nightBrightness)),
     Spec("HttpServer", BoolT, TBool(d.httpServer)),
     Spec("HttpServerPort", IntT, TInt(d.httpServerPort)),
     Spec("HttpServerListenIP", StrT, TStr(d.httpServerListenIp)),
     Spec("TPM2NetServer", BoolT, TBool(d.tpm2netServer))]
  }

  function DefaultAnimationSpecs(): (s: seq<Spec>)
    ensures WellTyped(s) && |s| == 4
  {
    var d := Defaults.defaultAnimation;
    [Spec("Animation", StrT, TStr(d.animationName)),
     Spec("Variant", StrT, TStr(d.variant)),
     Spec("Parameter", StrT, TStr(d.parameter)),
     Spec("Repeat", IntT, TInt(d.repeat))]
  }

  function Apa102Specs(): (s: seq<Spec>)
    ensures WellTyped(s) && |s| == 4
  {
    var d := Defaults.apa102;
    [Spec("ColorType", IntT, TInt(ColorTypeValue(d.colorType))),
     Spec("WireMode", IntT, TInt(WireModeValue(d.wireMode))),
     Spec("Orientation", IntT, TInt(OrientationValue(d.orientation))),
     Spec("Origin", IntT, TInt(OriginValue(d.origin)))]
  }

  function ComputerSpecs(): (s: seq<Spec>)
    ensures WellTyped(s) && |s| == 2
  {
    [Spec("Margin", IntT, TInt(Defaults.computer.margin)),
     Spec("LEDSize", IntT, TInt(Defaults.computer.ledSize))]
  }

  function ScheduleSpecs(): (s: seq<Spec>)
    ensures WellTyped(s) && |s| == 1
  {
    [Spec("ScheduleTable", StrT, TStr(Defaults.scheduleTable))]
  }

  /** `__read_main` after its values are read: the hardware name must name
      a `Hardware` value and the listen address must be an IP address. */
  function MainOf(v: seq<Typed>): Result<Main>
    requires |v| == 9 && v[0].TStr? && v[1].TInt? && v[2].TInt? && v[3].TInt? && v[4].TInt?
    requires v[5].TBool? && v[6].TInt? && v[7].TStr? && v[8].TBool?
  {
    match HardwareOf(v[0].s)
    case Err(e) => Err(e)
    case Ok(h) =>
      match IpAddress.Check(v[7].s)
      case Err(e) => Err(e)
      case Ok(ip) => Ok(Main(h, v[1].i, v[2].i, v[3].i, v[4].i, v[5].b, v[6].i, ip, v[8].b))
  }

  /** What `__read_main` makes of its values: the main settings exactly
      when the hardware name and the listen address are valid, and
      otherwise ValueError. */
  lemma MainOfValid(v: seq<Typed>)
    requires |v| == 9 && v[0].TStr? && v[1].TInt? && v[2].TInt? && v[3].TInt? && v[4].TInt?
    requires v[5].TBool? && v[6].TInt? && v[7].TStr? && v[8].TBool?
    ensures MainOf(v).Ok? <==> HardwareOf(v[0].s).Ok? && IpAddress.Check(v[7].s).Ok?
    ensures MainOf(v).Err? ==> MainOf(v).error == ValueError
    ensures MainOf(v).Ok? ==> MainValues(MainOf(v).value) == v
  {
  }

  function DefaultAnimationOf(v: seq<Typed>): DefaultAnimation
    requires |v| == 4 && v[0].TStr? && v[1].TStr? && v[2].TStr? && v[3].TInt?
  {
    DefaultAnimation(v[0].s, v[1].s, v[2].s, v[3].i)
  }

  /** `__read_apa102` after its values are read: each number must be a
      value of its enumeration. */
  function Apa102Of(v: seq<Typed>): Result<Apa102>
    requires |v| == 4 && v[0].TInt? && v[1].TInt? && v[2].TInt? && v[3].TInt?
  {
    match (ColorTypeOf(v[0].i), WireModeOf(v[1].i), OrientationOf(v[2].i), OriginOf(v[3].i))
    case (Ok(c), Ok(w), Ok(o), Ok(g)) => Ok(Apa102(c, w, o, g))
    case (Err(e), _, _, _) => Err(e)
    case (_, Err(e), _, _) => Err(e)
    case (_, _, Err(e), _) => Err(e)
    case (_, _, _, Err(e)) => Err(e)
  }

  /** `__read_main`. */
  function MainRead(file: IniFile): Result<Main> {
    match Values(file, MainSection, MainSpecs())
    case Err(e) => Err(e)
    case Ok(v) => MainOf(v)
  }

  /** `__read_default_animation`. */
  function DefaultAnimationRead(file: IniFile): Result<DefaultAnimation> {
    match Values(file, DefaultAnimationSection, DefaultAnimationSpecs())
    case Err(e) => Err(e)
    case Ok(v) => Ok(DefaultAnimationOf(v))
  }

  /** `__read_apa102`. */
  function Apa102Read(file: IniFile): Result<Apa102> {
    match Values(file, Apa102Section, Apa102Specs())
    case Err(e) => Err(e)
    case Ok(v) => Apa102Of(v)
  }

  /** `__read_computer`. */
  function ComputerRead(file: IniFile): Result<Computer> {
    match Values(file, ComputerSection, ComputerSpecs())
    case Err(e) => Err(e)
    case Ok(v) => Ok(Computer(v[0].i, v[1].i))
  }

  /** `__read_scheduled_animations`. */
  function ScheduleRead(file: IniFile): Result<string> {
    match Values(file, ScheduledAnimationsSection, ScheduleSpecs())
    case Err(e) => Err(e)
    case Ok(v) => Ok(v[0].s)
  }

  /** `read`: the five sections in order, the first error propagating. */
  function ReadSettings(file: IniFile): Result<Settings> {
    match MainRead(file)
    case Err(e) => Err(e)
    case Ok(main) =>
      match DefaultAnimationRead(file)
      case Err(e) => Err(e)
      case Ok(d) =>
        match Apa102Read(file)
        case Err(e) => Err(e)
        case Ok(apa) =>
          match ComputerRead(file)
          case Err(e) => Err(e)
          case Ok(c) =>
            match ScheduleRead(file)
            case Err(e) => Err(e)
            case Ok(table) => Ok(Settings(main, d, apa, c, table))
  }

  class ConfigReader {
    const file: IniFile
    /** `__current_section`. */
    var currentSection: Option<string>

    constructor (file: IniFile)
      ensures this.file == file && currentSection == None
    {
      this.file := file;
      currentSection := None;
    }

    /** Entering `with self.__section(name):` and making the block's
        `__get_value` calls: the section is set for the calls. The reader
        that entered the block resets it to `None` when the whole block
        succeeds; an exception leaves the block before the reset. */
    method EnterSection(name: string, specs: seq<Spec>) returns (r: Result<seq<Typed>>)
      requires WellTyped(specs)
      modifies this`currentSection
      ensures r == Values(file, name, specs)
      ensures currentSection == Some(name)
    {
      currentSection := Some(name);
      r := Values(file, currentSection.value, specs);
    }

    /** `read`. */
    method Read() returns (r: Result<Settings>)
      requires currentSection == None
      modifies this`currentSection
      ensures r == ReadSettings(file)
      ensures r.Ok? <==> currentSection == None
    {
      var main := ReadMain();
      if main.Err? {
        return Err(main.error);
      }
      var d := ReadDefaultAnimation();
      if d.Err? {
        return Err(d.error);
      }
      var apa := ReadApa102();
      if apa.Err? {
        return Err(apa.error);
      }
      var c := ReadComputer();
      if c.Err? {
        return Err(c.error);
      }
      var table := ReadScheduledAnimations();
      if table.Err? {
        return Err(table.error);
      }
      return Ok(Settings(main.value, d.value, apa.value, c.value, table.value));
    }

    /** `__read_main`. */
    method ReadMain() returns (r: Result<Main>)
      modifies this`currentSection
      ensures r == MainRead(file)
      ensures currentSection == if r.Ok? then None else Some(MainSection)
    {
      var v := EnterSection(MainSection, MainSpecs());
      if v.Err? {
        return Err(v.error);
      }
      r := MainOf(v.value);
      if r.Ok? {
        currentSection := None;
      }
    }

    /** `__read_default_animation`. */
    method ReadDefaultAnimation() returns (r: Result<DefaultAnimation>)
      modifies this`currentSection
      ensures r == DefaultAnimationRead(file)
      ensures currentSection == if r.Ok? then None else Some(DefaultAnimationSection)
    {
      var v := EnterSection(DefaultAnimationSection, DefaultAnimationSpecs());
      if v.Err? {
        return Err(v.error);
      }
      r := Ok(DefaultAnimationOf(v.value));
      if r.Ok? {
        currentSection := None;
      }
    }

    /** `__read_apa102`. */
    method ReadApa102() returns (r: Result<Apa102>)
      modifies this`currentSection
      ensures r == Apa102Read(file)
      ensures currentSection == if r.Ok? then None else Some(Apa102Section)
    {
      var v := EnterSection(Apa102Section, Apa102Specs());
      if v.Err? {
        return Err(v.error);
      }
      r := Apa102Of(v.value);
      if r.Ok? {
        currentSection := None;
      }
    }

    /** `__read_computer`. */
    method ReadComputer() returns (r: Result<Computer>)
      modifies this`currentSection
      ensures r == ComputerRead(file)
      ensures currentSection == if r.Ok? then None else Some(ComputerSection)
    {
      var v := EnterSection(ComputerSection, ComputerSpecs());
      if v.Err? {
        return Err(v.error);
      }
      r := Ok(Computer(v.value[0].i, v.value[1].i));
      if r.Ok? {
        currentSection := None;
      }
    }

    /** `__read_scheduled_animations`. */
    method ReadScheduledAnimations() returns (r: Result<string>)
      modifies this`currentSection
      ensures r == ScheduleRead(file)
      ensures currentSection == if r.Ok? then None else Some(ScheduledAnimationsSection)
    {
      var v := EnterSection(ScheduledAnimationsSection, ScheduleSpecs());
      if v.Err? {
        return Err(v.error);
      }
      r := Ok(v.value[0].s);
      if r.Ok? {
        currentSection := None;
      }
    }
  }

  /** A file without any of the sections reads as the defaults. */
  lemma EmptyFileReadsDefaults(file: IniFile)
    requires MainSection !in file && DefaultAnimationSection !in file && Apa102Section !in file
    requires ComputerSection !in file && ScheduledAnimationsSection !in file
    ensures ReadSettings(file) == Ok(Defaults)
  {
    MissingMainReadsDefault(file);
    MissingDefaultAnimationReadsDefault(file);
    MissingApa102ReadsDefault(file);
    MissingComputerReadsDefault(file);
    MissingScheduleReadsDefault(file);
  }

  lemma MissingMainReadsDefault(file: IniFile)
    requires MainSection !in file
    ensures MainRead(file) == Ok(Defaults.main)
  {
    MissingSectionDefaults(file, MainSection, MainSpecs());
    IpAddress.LoopbackAccepted();
  }

  lemma MissingDefaultAnimationReadsDefault(file: IniFile)
    requires DefaultAnimationSection !in file
    ensures DefaultAnimationRead(file) == Ok(Defaults.defaultAnimation)
  {
    MissingSectionDefaults(file, DefaultAnimationSection, DefaultAnimationSpecs());
  }

  lemma MissingApa102ReadsDefault(file: IniFile)
    requires Apa102Section !in file
    ensures Apa102Read(file) == Ok(Defaults.apa102)
  {
    MissingSectionDefaults(file, Apa102Section, Apa102Specs());
  }

  lemma MissingComputerReadsDefault(file: IniFile)
    requires ComputerSection !in file
    ensures ComputerRead(file) == Ok(Defaults.computer)
  {
    MissingSectionDefaults(file, ComputerSection, ComputerSpecs());
  }

  lemma MissingScheduleReadsDefault(file: IniFile)
    requires ScheduledAnimationsSection !in file
    ensures ScheduleRead(file) == Ok(Defaults.scheduleTable)
  {
    MissingSectionDefaults(file, ScheduledAnimationsSection, ScheduleSpecs());
  }


  // ------------------------------------------------------------ writer

  /** The keys `write` emits, section by section, with the values as
      written. */
  function Written(c: Settings): (w: seq<(string, seq<(string, IniValue)>)>)
    ensures |w| == 5
    ensures w[0].0 == MainSection && w[1].0 == DefaultAnimationSection && w[2].0 == Apa102Section
    ensures w[3].0 == ComputerSection && w[4].0 == ScheduledAnimationsSection
  {
    var m := c.main;
    var d := c.defaultAnimation;
    var a := c.apa102;
    [(MainSection, [("Hardware", StrV(HardwareName(m.hardware))),
                    ("DisplayWidth", IntV(m.displayWidth)),
                    ("DisplayHeight", IntV(m.displayHeight)),
                    ("DayBrightness", IntV(m.dayBrightness)),
                    ("NightBrightness", IntV(m.nightBrightness)),
                    ("HttpServer", BoolV(m.httpServer)),
                    ("HttpServerPort", IntV(m.httpServerPort)),
                    ("HttpServerListenIP", StrV(m.httpServerListenIp)),
                    ("TPM2NetServer", BoolV(m.tpm2netServer))]),
     (DefaultAnimationSection, [("Animation", StrV(d.animationName)),
                                ("Variant", StrV(d.variant)),
                                ("Parameter", StrV(d.parameter)),
                                ("Repeat", IntV(d.repeat))]),
     (Apa102Section, [("ColorType", IntV(ColorTypeValue(a.colorType))),
                      ("WireMode", IntV(WireModeValue(a.wireMode))),
                      ("Orientation", IntV(OrientationValue(a.orientation))),
                      ("Origin", IntV(OriginValue(a.origin)))]),
     (ComputerSection, [("Margin", IntV(c.computer.margin)),
                        ("LEDSize", IntV(c.computer.ledSize))]),
     (ScheduledAnimationsSection, [("ScheduleTable", StrV(c.scheduleTable))])]
  }

  /** The keys of one written section as a map. */
  function SectionMap(keys: seq<(string, IniValue)>): map<string, IniValue> {
    if keys == [] then map[] else SectionMap(keys[..|keys| - 1])[keys[|keys| - 1].0 := keys[|keys| - 1].1]
  }

  /** The written sections as the parser would see them. */
  function FileOf(w: seq<(string, seq<(string, IniValue)>)>): IniFile {
    if w == [] then map[] else FileOf(w[..|w| - 1])[w[|w| - 1].0 := SectionMap(w[|w| - 1].1)]
  }

  /** The value a typed setting is written as. */
  function AsIni(v: Typed): (r: IniValue)
    ensures r.BoolV? || r.IntV? || r.StrV?
  {
    match v
    case TStr(s) => StrV(s)
    case TInt(i) => IntV(i)
    case TBool(b) => BoolV(b)
  }

  /** A section holding each key with a value of the key's own type reads
      back exactly those values. */
  lemma {:induction false} ValuesReadBack(file: IniFile, section: string, specs: seq<Spec>, vals: seq<Typed>)
    requires WellTyped(specs) && |vals| == |specs|
    requires forall k :: 0 <= k < |specs| ==>
      HasType(vals[k], specs[k].target) && Lookup(file, section, specs[k].key) == AsIni(vals[k])
    ensures Values(file, section, specs) == Ok(vals)
  {
    if specs != [] {
      assert HasType(vals[0], specs[0].target) && Lookup(file, section, specs[0].key) == AsIni(vals[0]);
      ValuesReadBack(file, section, specs[1..], vals[1..]);
      assert [vals[0]] + vals[1..] == vals;
    }
  }

  predicate DistinctKeys<V>(keys: seq<(string, V)>) {
    forall i, j :: 0 <= i < j < |keys| ==> keys[i].0 != keys[j].0
  }

  lemma {:induction false} SectionMapHas(keys: seq<(string, IniValue)>, k: nat)
    requires k < |keys| && DistinctKeys(keys)
    ensures keys[k].0 in SectionMap(keys) && SectionMap(keys)[keys[k].0] == keys[k].1
  {
    if k < |keys| - 1 {
      SectionMapHas(keys[..|keys| - 1], k);
    }
  }

  lemma {:induction false} FileOfHas(w: seq<(string, seq<(string, IniValue)>)>, n: nat)
    requires n < |w| && DistinctKeys(w)
    ensures w[n].0 in FileOf(w) && FileOf(w)[w[n].0] == SectionMap(w[n].1)
  {
    if n < |w| - 1 {
      FileOfHas(w[..|w| - 1], n);
    }
  }

  /** Section `n` of a written file reads back the values it was written
      with. */
  lemma WrittenSectionReadsBack(w: seq<(string, seq<(string, IniValue)>)>, n: nat, specs: seq<Spec>, vals: seq<Typed>)
    requires n < |w| && DistinctKeys(w) && DistinctKeys(w[n].1)
    requires WellTyped(specs) && |vals| == |specs| && |w[n].1| == |specs|
    requires forall k :: 0 <= k < |specs| ==>
      w[n].1[k] == (specs[k].key, AsIni(vals[k])) && HasType(vals[k], specs[k].target)
    ensures Values(FileOf(w), w[n].0, specs) == Ok(vals)
  {
    FileOfHas(w, n);
    forall k | 0 <= k < |specs|
      ensures Lookup(FileOf(w), w[n].0, specs[k].key) == AsIni(vals[k])
    {
      SectionMapHas(w[n].1, k);
    }
    ValuesReadBack(FileOf(w), w[n].0, specs, vals);
  }

  predicate SectionsDistinct(c: Settings) {
    DistinctKeys(Written(c))
  }

  function MainValues(m: Main): seq<Typed> {
    [TStr(HardwareName(m.hardware)), TInt(m.displayWidth), TInt(m.displayHeight),
     TInt(m.dayBrightness), TInt(m.nightBrightness), TBool(m.httpServer),
     TInt(m.httpServerPort), TStr(m.httpServerListenIp), TBool(m.tpm2netServer)]
  }

  function DefaultAnimationValues(d: DefaultAnimation): seq<Typed> {
    [TStr(d.animationName), TStr(d.variant), TStr(d.parameter), TInt(d.repeat)]
  }

  function Apa102Values(a: Apa102): seq<Typed> {
    [TInt(ColorTypeValue(a.colorType)), TInt(WireModeValue(a.wireMode)),
     TInt(OrientationValue(a.orientation)), TInt(OriginValue(a.origin))]
  }

  lemma WrittenSections(c: Settings)
    ensures SectionsDistinct(c)
  {
  }

  /** The written MAIN section holds the main reader's keys, in order, with
      the main settings' values. */
  lemma MainSectionWritten(c: Settings)
    ensures var keys := Written(c)[0].1;
      && DistinctKeys(keys) && |keys| == |MainSpecs()|
      && forall k :: 0 <= k < |MainSpecs()| ==>
        keys[k] == (MainSpecs()[k].key, AsIni(MainValues(c.main)[k])) && HasType(MainValues(c.main)[k], MainSpecs()[k].target)
  {
  }

  lemma MainReadsBack(c: Settings)
    requires IpAddress.Check(c.main.httpServerListenIp).Ok?
    ensures Values(FileOf(Written(c)), MainSection, MainSpecs()) == Ok(MainValues(c.main))
    ensures MainOf(MainValues(c.main)) == Ok(c.main)
  {
    MainSectionWritten(c);
    WrittenSections(c);
    WrittenSectionReadsBack(Written(c), 0, MainSpecs(), MainValues(c.main));
  }

  lemma DefaultAnimationReadsBack(c: Settings)
    ensures Values(FileOf(Written(c)), DefaultAnimationSection, DefaultAnimationSpecs())
      == Ok(DefaultAnimationValues(c.defaultAnimation))
  {
    WrittenSections(c);
    var w := Written(c);
    assert DistinctKeys(w[1].1);
    WrittenSectionReadsBack(w, 1, DefaultAnimationSpecs(), DefaultAnimationValues(c.defaultAnimation));
  }

  lemma Apa102ReadsBack(c: Settings)
    ensures Values(FileOf(Written(c)), Apa102Section, Apa102Specs()) == Ok(Apa102Values(c.apa102))
    ensures Apa102Of(Apa102Values(c.apa102)) == Ok(c.apa102)
  {
    WrittenSections(c);
    var w := Written(c);
    assert DistinctKeys(w[2].1);
    WrittenSectionReadsBack(w, 2, Apa102Specs(), Apa102Values(c.apa102));
  }

  lemma ComputerAndScheduleReadBack(c: Settings)
    ensures Values(FileOf(Written(c)), ComputerSection, ComputerSpecs())
      == Ok([TInt(c.computer.margin), TInt(c.computer.ledSize)])
    ensures Values(FileOf(Written(c)), ScheduledAnimationsSection, ScheduleSpecs()) == Ok([TStr(c.scheduleTable)])
  {
    WrittenSections(c);
    var w := Written(c);
    assert DistinctKeys(w[3].1);
    WrittenSectionReadsBack(w, 3, ComputerSpecs(), [TInt(c.computer.margin), TInt(c.computer.ledSize)]);
    WrittenSectionReadsBack(w, 4, ScheduleSpecs(), [TStr(c.scheduleTable)]);
  }

  /** What the writer writes, the reader reads back unchanged: every key is
      written under the section and name it is read from. */
  lemma WrittenReadsBack(c: Settings)
    requires IpAddress.Check(c.main.httpServerListenIp).Ok?
    ensures ReadSettings(FileOf(Written(c))) == Ok(c)
  {
    MainReadsBack(c);
    DefaultAnimationReadsBack(c);
    Apa102ReadsBack(c);
    ComputerAndScheduleReadBack(c);
  }

  // ------------------------------------------------ reading the text back

  /** A text the parser reads back as written: it holds no ',' (the
      writer's value delimiter) and is none of the writer's keywords. */
  predicate PlainText(s: string) {
    ',' !in s && s != "True" && s != "False" && s != "None"
  }

  /** The value the parser gives back for a value the writer wrote, as far
      as the writer's delimiter and keywords decide it: a text with a ','
      comes back as a list, a keyword text as the bool or `None` it names,
      anything else as written. */
  function Reread(v: IniValue): (r: IniValue)
    ensures !v.StrV? || PlainText(v.s) <==> r == v
  {
    match v
    case StrV(s) =>
      if ',' in s then ListV
      else if s == "True" then BoolV(true)
      else if s == "False" then BoolV(false)
      else if s == "None" then NoneV
      else v
    case _ => v
  }

  /** The written sections as the parser reads them back. */
  function Reparsed(w: seq<(string, seq<(string, IniValue)>)>): (r: seq<(string, seq<(string, IniValue)>)>)
    ensures |r| == |w|
    ensures forall n :: 0 <= n < |w| ==> r[n].0 == w[n].0 && |r[n].1| == |w[n].1|
    ensures forall n, k :: 0 <= n < |w| && 0 <= k < |w[n].1| ==> r[n].1[k] == (w[n].1[k].0, Reread(w[n].1[k].1))
  {
    seq(|w|, n requires 0 <= n < |w| =>
      (w[n].0, seq(|w[n].1|, k requires 0 <= k < |w[n].1| => (w[n].1[k].0, Reread(w[n].1[k].1)))))
  }

  /** Every text the writer writes is plain. */
  predicate WrittenPlain(c: Settings) {
    && PlainText(HardwareName(c.main.hardware)) && PlainText(c.main.httpServerListenIp)
    && PlainText(c.defaultAnimation.animationName) && PlainText(c.defaultAnimation.variant)
    && PlainText(c.defaultAnimation.parameter) && PlainText(c.scheduleTable)
  }

  /** Settings whose texts are all plain and whose listen address is an IP
      address survive a write and a read. */
  lemma PlainWrittenReadsBack(c: Settings)
    requires WrittenPlain(c) && IpAddress.Check(c.main.httpServerListenIp).Ok?
    ensures Reparsed(Written(c)) == Written(c)
    ensures ReadSettings(FileOf(Reparsed(Written(c)))) == Ok(c)
  {
    PlainWrittenKept(c);
    WrittenReadsBack(c);
  }

  /** The parser keeps a written file whose texts are all plain. */
  lemma PlainWrittenKept(c: Settings)
    requires WrittenPlain(c)
    ensures Reparsed(Written(c)) == Written(c)
  {
    var w := Written(c);
    var r := Reparsed(w);
    forall n | 0 <= n < |w| ensures r[n] == w[n] {
      forall k | 0 <= k < |w[n].1| ensures r[n].1[k] == w[n].1[k] {
        assert Reread(w[n].1[k].1) == w[n].1[k].1;
      }
      assert r[n].1 == w[n].1;
    }
  }

  /** A schedule table holding a ',' is written as several values, which
      the reader takes for a list: it reads back the default table. */
  lemma DelimitedScheduleReadsDefault(c: Settings)
    requires ',' in c.scheduleTable
    ensures ScheduleRead(FileOf(Reparsed(Written(c)))) == Ok(Defaults.scheduleTable)
  {
    var w := Reparsed(Written(c));
    WrittenSections(c);
    assert DistinctKeys(w);
    FileOfHas(w, 4);
    SectionMapHas(w[4].1, 0);
    var specs := ScheduleSpecs();
    assert Lookup(FileOf(w), ScheduledAnimationsSection, specs[0].key) == ListV;
    assert GetValue(FileOf(w), Some(ScheduledAnimationsSection), specs[0].key, specs[0].target, specs[0].default)
      == Ok(specs[0].default);
    assert Values(FileOf(w), ScheduledAnimationsSection, specs[1..]) == Ok([]);
    assert [specs[0].default] + [] == [specs[0].default];
    assert Values(FileOf(w), ScheduledAnimationsSection, specs) == Ok([specs[0].default]);
  }

  /** A listen address that is no IP address is written, but the file then
      fails to read. */
  lemma InvalidListenIpUnreadable(c: Settings)
    requires IpAddress.Check(c.main.httpServerListenIp).Err?
    ensures ReadSettings(FileOf(Written(c))) == Err(ValueError)
  {
    MainSectionWritten(c);
    WrittenSections(c);
    WrittenSectionReadsBack(Written(c), 0, MainSpecs(), MainValues(c.main));
  }
}
