/** The web interface's form handling: the cron value ranges offered for a
    scheduled animation, the selector pattern the browser checks a selection
    against, the server's own check of the submitted cron form, the input
    widget chosen for an animation parameter, and the brightness settings a
    form saves or previews. A submitted form is a map from field names to
    their text. */
module HttpForms {
  import opened Wrappers
  import PyText
  import RgbColor
  import MainConfig

  // ------------------------------------------------------------ cron ranges

  /** The keys of `CRON_DICT`, in its order. */
  datatype Category = Second | Minute | Hour | DayOfWeek | Week | Day | Month | Year

  const Categories: seq<Category> := [Second, Minute, Hour, DayOfWeek, Week, Day, Month, Year]

  function Name(c: Category): string {
    match c
    case Second => "second"
    case Minute => "minute"
    case Hour => "hour"
    case DayOfWeek => "day_of_week"
    case Week => "week"
    case Day => "day"
    case Month => "month"
    case Year => "year"
  }

  /** The first value offered; `year` is the current year. */
  function Low(c: Category, year: int): int {
    match c
    case Second => 0
    case Minute => 0
    case Hour => 0
    case DayOfWeek => 0
    case Week => 1
    case Day => 1
    case Month => 1
    case Year => year
  }

  /** One past the last value offered (the `range` end). */
  function High(c: Category, year: int): int {
    match c
    case Second => 60
    case Minute => 60
    case Hour => 24
    case DayOfWeek => 7
    case Week => 54
    case Day => 32
    case Month => 13
    case Year => year + 11
  }

  /** The `value` entries of a category of `CRON_DICT`. */
  function Values(c: Category, year: int): seq<int> {
    seq(High(c, year) - Low(c, year), k => Low(c, year) + k)
  }

  /** A value is offered exactly when it lies in the category's range. */
  lemma InValues(c: Category, year: int, v: int)
    ensures v in Values(c, year) <==> Low(c, year) <= v < High(c, year)
  {
    if Low(c, year) <= v < High(c, year) {
      assert Values(c, year)[v - Low(c, year)] == v;
    }
  }

  /** The ranges of the eight categories. */
  lemma CronRanges(year: int, v: int)
    ensures v in Values(Second, year) <==> 0 <= v <= 59
    ensures v in Values(Minute, year) <==> 0 <= v <= 59
    ensures v in Values(Hour, year) <==> 0 <= v <= 23
    ensures v in Values(DayOfWeek, year) <==> 0 <= v <= 6
    ensures v in Values(Week, year) <==> 1 <= v <= 53
    ensures v in Values(Day, year) <==> 1 <= v <= 31
    ensures v in Values(Month, year) <==> 1 <= v <= 12
    ensures v in Values(Year, year) <==> year <= v <= year + 10
  {
    InValues(Second, year, v);
    InValues(Minute, year, v);
    InValues(Hour, year, v);
    InValues(DayOfWeek, year, v);
    InValues(Week, year, v);
    InValues(Day, year, v);
    InValues(Month, year, v);
    InValues(Year, year, v);
  }

  /** `valid_numbers`: the values of the category as text. */
  function ValidNumbers(c: Category, year: int): seq<string> {
    var vs := Values(c, year);
    seq(|vs|, k requires 0 <= k < |vs| => PyText.IntToString(vs[k]))
  }

  // ------------------------------------------------------------ comma lists

  /** `str(v)` holds no comma. */
  lemma NoComma(v: int)
    ensures ',' !in PyText.IntToString(v)
  {
    var n: nat := if v < 0 then -v else v;
    PyText.NatToStringShape(n, 10);
  }

  /** `str` is one-to-one. */
  lemma IntToStringInjective(a: int, b: int)
    requires PyText.IntToString(a) == PyText.IntToString(b)
    ensures a == b
  {
    PyText.ParseIntToString(a);
    PyText.ParseIntToString(b);
  }

  // ------------------------------------------------------------ selector pattern

  /** The text `get_cron_selector_pattern` matches in full: the valid numbers
      joined by commas, at least one, and (the negative look-ahead) no
      number twice. A valid number consists of digits only, so the word
      boundaries of the pattern fall exactly at the commas and the ends. */
  predicate Accepts(c: Category, year: int, s: string) {
    var parts := PyText.Split(s, ',');
    && (forall k :: 0 <= k < |parts| ==> parts[k] in ValidNumbers(c, year))
    && (forall i, j :: 0 <= i < j < |parts| ==> parts[i] != parts[j])
  }

  /** A valid number is the text of a value in range. */
  lemma ValidNumberValue(c: Category, year: int, p: string)
    requires p in ValidNumbers(c, year)
    ensures PyText.ParseInt(p, 10).Some?
    ensures Low(c, year) <= PyText.ParseInt(p, 10).value < High(c, year)
    ensures p == PyText.IntToString(PyText.ParseInt(p, 10).value)
  {
    var k :| 0 <= k < |ValidNumbers(c, year)| && ValidNumbers(c, year)[k] == p;
    var v := Low(c, year) + k;
    assert p == PyText.IntToString(v) by {
      assert Values(c, year)[k] == v;
    }
    PyText.ParseIntToString(v);
  }

  /** What the pattern accepts is a list of distinct values in range, each
      readable by `int`. */
  lemma AcceptedValues(c: Category, year: int, s: string)
    requires Accepts(c, year, s)
    ensures var parts := PyText.Split(s, ',');
      && (forall k :: 0 <= k < |parts| ==>
            PyText.ParseInt(parts[k], 10).Some?
            && Low(c, year) <= PyText.ParseInt(parts[k], 10).value < High(c, year))
      && (forall i, j :: 0 <= i < j < |parts| ==>
            PyText.ParseInt(parts[i], 10).value != PyText.ParseInt(parts[j], 10).value)
  {
    var parts := PyText.Split(s, ',');
    forall k | 0 <= k < |parts|
      ensures PyText.ParseInt(parts[k], 10).Some?
      ensures Low(c, year) <= PyText.ParseInt(parts[k], 10).value < High(c, year)
    {
      ValidNumberValue(c, year, parts[k]);
    }
    forall i, j | 0 <= i < j < |parts|
      ensures PyText.ParseInt(parts[i], 10).value != PyText.ParseInt(parts[j], 10).value
    {
      ValidNumberValue(c, year, parts[i]);
      ValidNumberValue(c, year, parts[j]);
    }
  }

  /** The texts of the given values. */
  function Texts(vs: seq<int>): (r: seq<string>)
    ensures |r| == |vs|
  {
    seq(|vs|, k requires 0 <= k < |vs| => PyText.IntToString(vs[k]))
  }

  /** Every non-empty selection of distinct values in range, joined by
      commas, is accepted by the pattern. */
  lemma SelectionAccepted(c: Category, year: int, vs: seq<int>)
    requires |vs| > 0
    requires forall k :: 0 <= k < |vs| ==> Low(c, year) <= vs[k] < High(c, year)
    requires forall i, j :: 0 <= i < j < |vs| ==> vs[i] != vs[j]
    ensures Accepts(c, year, PyText.Join(Texts(vs), ','))
  {
    var parts := Texts(vs);
    forall k | 0 <= k < |parts| ensures ',' !in parts[k] {
      NoComma(vs[k]);
    }
    PyText.SplitJoin(parts, ',');
    forall k | 0 <= k < |parts| ensures parts[k] in ValidNumbers(c, year) {
      assert ValidNumbers(c, year)[vs[k] - Low(c, year)] == parts[k];
    }
    forall i, j | 0 <= i < j < |parts| ensures parts[i] != parts[j] {
      if parts[i] == parts[j] {
        IntToStringInjective(vs[i], vs[j]);
      }
    }
  }

  // ------------------------------------------------------------ cron form

  /** The form field of a category's selection. */
  function CronField(c: Category): string {
    "cron_" + Name(c) + "_select_value"
  }

  /** Every comma part of the text is read by `int`. */
  predicate IntParts(s: string) {
    var parts := PyText.Split(s, ',');
    forall k :: 0 <= k < |parts| ==> PyText.ParseInt(parts[k], 10).Some?
  }

  /** One category of `__parse_cron_form`: no selection gives `None`, and so
      does a selection with a part `int` rejects; otherwise the text is
      kept as submitted. */
  function CronValue(form: map<string, string>, c: Category): (r: Option<string>)
    ensures r.Some? <==> CronField(c) in form && IntParts(form[CronField(c)])
    ensures r.Some? ==> r.value == form[CronField(c)]
  {
    if CronField(c) !in form then None
    else if IntParts(form[CronField(c)]) then Some(form[CronField(c)])
    else None
  }

  /** The cron structure of a form: every category with its checked value. */
  function CronStructure(form: map<string, string>): (r: map<Category, Option<string>>)
    ensures forall c :: c in r <==> c in Categories
  {
    map c | c in Categories :: CronValue(form, c)
  }

  /** The loop of `__parse_cron_form` over the categories. */
  method ParseCronForm(form: map<string, string>) returns (cron: map<Category, Option<string>>)
    ensures cron == CronStructure(form)
  {
    cron := map[];
    for i := 0 to |Categories|
      invariant cron == map c | c in Categories[..i] :: CronValue(form, c)
    {
      var category := Categories[i];
      var selected := if CronField(category) in form then Some(form[CronField(category)]) else None;
      if selected.Some? && !IntParts(selected.value) {
        selected := None;
      }
      assert Categories[..i + 1] == Categories[..i] + [category];
      cron := cron[category := selected];
    }
    assert Categories[..|Categories|] == Categories;
  }

  /** A selection the browser's pattern accepts passes the server's check
      unchanged. */
  lemma AcceptedSelectionKept(form: map<string, string>, c: Category, year: int)
    requires CronField(c) in form && Accepts(c, year, form[CronField(c)])
    ensures CronStructure(form)[c] == Some(form[CronField(c)])
  {
    var s := form[CronField(c)];
    AcceptedValues(c, year, s);
    assert IntParts(s);
    assert c in Categories;
    assert CronStructure(form)[c] == CronValue(form, c);
  }

  /** The server's check is weaker than the pattern: a second of 99 passes
      it although the pattern rejects it. */
  lemma OutOfRangeSecondKept(form: map<string, string>, year: int)
    requires form == map[CronField(Second) := "99"]
    ensures CronStructure(form)[Second] == Some("99")
    ensures !Accepts(Second, year, "99")
  {
    ParseNinetyNine();
    PyText.SplitNoSep("99", ',');
    assert IntParts("99");
    assert Second in Categories;
    assert CronStructure(form)[Second] == CronValue(form, Second);
    if Accepts(Second, year, "99") {
      assert PyText.Split("99", ',')[0] == "99";
      ValidNumberValue(Second, year, "99");
    }
  }

  lemma ParseNinetyNine()
    ensures PyText.ParseInt("99", 10) == Some(99)
  {
    assert PyText.NatDigits(99, 10) == [9, 9];
    assert PyText.IntToString(99) == "99";
    PyText.ParseIntToString(99);
  }

  // ------------------------------------------------------------ parameter inputs

  /** An animation parameter value, by the type the `Input` widget checks. */
  datatype ParamValue =
    | BoolP(b: bool)
    | IntP(i: int)
    | FloatP(f: real)
    | ColorP(c: RgbColor.Color)
    | TextP(s: string)
    | OtherP(description: string)

  /** An `Input`: the HTML input type, the value shown and the step. */
  datatype Input = Input(inputType: string, value: ParamValue, step: string)

  /** `Input(value)`: booleans (checked before ints, since a Python bool is
      an int) become a checkbox, ints and floats a number field where only
      floats take any step, a colour a colour field showing its `#rrggbb`
      text, and anything else a text field. */
  function NewInput(v: ParamValue): (r: Input)
    ensures r.inputType == "checkbox" <==> v.BoolP?
    ensures r.inputType == "number" <==> v.IntP? || v.FloatP?
    ensures r.inputType == "color" <==> v.ColorP?
    ensures r.inputType == "text" <==> v.TextP? || v.OtherP?
    ensures r.step == "any" <==> v.FloatP?
    ensures !v.FloatP? ==> r.step == "1"
    ensures !v.ColorP? ==> r.value == v
    ensures v.ColorP? ==> r.value == TextP(RgbColor.HexValue(v.c))
  {
    match v
    case BoolP(_) => Input("checkbox", v, "1")
    case IntP(_) => Input("number", v, "1")
    case FloatP(_) => Input("number", v, "any")
    case ColorP(c) => Input("color", TextP(RgbColor.HexValue(c)), "1")
    case _ => Input("text", v, "1")
  }

  /** The text a colour field shows reads back as the same colour. */
  lemma ColorInputReadsBack(c: RgbColor.Color)
    requires RgbColor.InByteRange(c)
    ensures NewInput(ColorP(c)).value.TextP?
    ensures RgbColor.NewColor(RgbColor.Text(NewInput(ColorP(c)).value.s)) == Ok(c)
  {
    RgbColor.HexRoundTrip(c);
  }

  // ------------------------------------------------------------ brightness forms

  /** `form.get(key, type=int, default=d)`: the default when the field is
      missing or `int` rejects its text. */
  function FormInt(form: map<string, string>, key: string, default: int): (r: int)
    ensures key !in form ==> r == default
    ensures key in form && PyText.ParseInt(form[key], 10).Some? ==> r == PyText.ParseInt(form[key], 10).value
    ensures key in form && PyText.ParseInt(form[key], 10).None? ==> r == default
  {
    if key in form then
      match PyText.ParseInt(form[key], 10)
      case Some(v) => v
      case None => default
    else default
  }

  /** `form.get(key, type=bool, default=False)`: a present, non-empty text. */
  function FormBool(form: map<string, string>, key: string): (r: bool)
    ensures r <==> key in form && form[key] != ""
  {
    key in form && form[key] != ""
  }

  /** The values the main settings tab edits; colour temperatures by their
      enumeration names. */
  datatype MainTab = MainTab(dayBrightness: int, dayColorTemp: string,
                             nightBrightness: int, nightColorTemp: string,
                             tpm2netServer: bool)

  /** `ColorTemp[name]`: a name that is no member raises KeyError. */
  function TempByName(form: map<string, string>, key: string, current: string,
                      names: set<string>): (r: Result<string>)
    ensures key !in form ==> r == (if current in names then Ok(current) else Err(KeyError))
    ensures key in form ==> (r.Ok? <==> form[key] in names)
    ensures r.Ok? ==> r.value in names
    ensures key in form && r.Ok? ==> r.value == form[key]
  {
    var name := if key in form then form[key] else current;
    if name in names then Ok(name) else Err(KeyError)
  }

  /** `save_settings` for the main tab: the day values from the form, the
      night values from the form only when the night setting is enabled,
      otherwise a night brightness of -1 and the night colour temperature
      kept. */
  function SaveMainTab(form: map<string, string>, current: MainTab, names: set<string>): (r: Result<MainTab>)
    requires current.dayColorTemp in names && current.nightColorTemp in names
    ensures r.Ok? ==> r.value.dayBrightness == FormInt(form, "day_brightness_value", current.dayBrightness)
    ensures r.Ok? ==> r.value.tpm2netServer == FormBool(form, "enable_tpm2net")
    // a colour temperature is the form's name when sent, otherwise the current one
    ensures r.Ok? ==>
      r.value.dayColorTemp ==
        (if "day_color_temp_value" in form then form["day_color_temp_value"] else current.dayColorTemp)
    ensures r.Ok? && FormBool(form, "setting_night_brightness_enabled_value") ==>
      r.value.nightColorTemp ==
        (if "night_color_temp_value" in form then form["night_color_temp_value"] else current.nightColorTemp)
    ensures r.Ok? && !FormBool(form, "setting_night_brightness_enabled_value") ==>
      r.value.nightBrightness == MainConfig.NightDisabled && r.value.nightColorTemp == current.nightColorTemp
    ensures r.Ok? && FormBool(form, "setting_night_brightness_enabled_value") ==>
      r.value.nightBrightness == FormInt(form, "night_brightness_value", current.nightBrightness)
    ensures r.Err? <==>
      TempByName(form, "day_color_temp_value", current.dayColorTemp, names).Err?
      || (FormBool(form, "setting_night_brightness_enabled_value")
          && TempByName(form, "night_color_temp_value", current.nightColorTemp, names).Err?)
  {
    var day := FormInt(form, "day_brightness_value", current.dayBrightness);
    match TempByName(form, "day_color_temp_value", current.dayColorTemp, names)
    case Err(e) => Err(e)
    case Ok(dayTemp) =>
      if FormBool(form, "setting_night_brightness_enabled_value") then
        match TempByName(form, "night_color_temp_value", current.nightColorTemp, names)
        case Err(e) => Err(e)
        case Ok(nightTemp) =>
          Ok(MainTab(day, dayTemp, FormInt(form, "night_brightness_value", current.nightBrightness),
                     nightTemp, FormBool(form, "enable_tpm2net")))
      else
        Ok(MainTab(day, dayTemp, MainConfig.NightDisabled, current.nightColorTemp,
                   FormBool(form, "enable_tpm2net")))
  }

  /** With the night setting switched off in the form, the saved settings
      show the day brightness at every time of day. */
  lemma NightOffShowsDay(form: map<string, string>, current: MainTab, names: set<string>,
                         sun: MainConfig.SunTimes, now: int)
    requires current.dayColorTemp in names && current.nightColorTemp in names
    requires !FormBool(form, "setting_night_brightness_enabled_value")
    requires SaveMainTab(form, current, names).Ok?
    ensures var saved := SaveMainTab(form, current, names).value;
      MainConfig.DayOrNight(saved.nightBrightness, sun, now, saved.dayBrightness, saved.nightBrightness)
      == saved.dayBrightness
  {
  }

  /** `set_brightness`: the preview value (default -1) is applied only when
      it is above -1. */
  function PreviewBrightness(form: map<string, string>): (r: Option<int>)
    ensures r.Some? <==> ("preview_brightness_value" in form
      && PyText.ParseInt(form["preview_brightness_value"], 10).Some?
      && PyText.ParseInt(form["preview_brightness_value"], 10).value >= 0)
    ensures r.Some? ==> r.value == PyText.ParseInt(form["preview_brightness_value"], 10).value
  {
    var value := FormInt(form, "preview_brightness_value", -1);
    if value > -1 then Some(value) else None
  }
}
