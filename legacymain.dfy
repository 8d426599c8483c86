/** Parts of the legacy application object and its animation controller:
    applying the day or night brightness, creating stop events and naming
    the current animation. */
module LegacyMain {
  import opened Wrappers
  import MainConfig

  class Main {
    var dayBrightness: int
    var nightBrightness: int
    var displayBrightness: int
    var sun: MainConfig.SunTimes
    /** Whether the display was already initialised (`preview_brightness`). */
    const hasDisplay: bool
    /** The brightness values handed to the display, in order. */
    var applied: seq<int>

    constructor (day: int, night: int, sun: MainConfig.SunTimes, hasDisplay: bool)
      ensures dayBrightness == day && nightBrightness == night && this.sun == sun
      ensures this.hasDisplay == hasDisplay && applied == []
    {
      dayBrightness := day;
      nightBrightness := night;
      displayBrightness := day;
      this.sun := sun;
      this.hasDisplay := hasDisplay;
      applied := [];
    }

    /** `apply_brightness`: store the given values, then pick the day value
        when the night setting is disabled or the time is between sunrise
        and sunset, else the night value, and hand it to the display. */
    method ApplyBrightness(newDay: Option<int>, newNight: Option<int>, now: int)
      modifies this
      ensures dayBrightness == (if newDay.Some? then newDay.value else old(dayBrightness))
      ensures nightBrightness == (if newNight.Some? then newNight.value else old(nightBrightness))
      ensures sun == old(sun)
      ensures displayBrightness
        == MainConfig.DayOrNight(nightBrightness, sun, now, dayBrightness, nightBrightness)
      ensures nightBrightness == MainConfig.NightDisabled ==> displayBrightness == dayBrightness
      ensures applied == old(applied) + (if hasDisplay then [displayBrightness] else [])
    {
      if newDay.Some? {
        dayBrightness := newDay.value;
      }
      if newNight.Some? {
        nightBrightness := newNight.value;
      }
      if nightBrightness == MainConfig.NightDisabled || sun.sunrise <= now <= sun.sunset {
        displayBrightness := dayBrightness;
      } else {
        displayBrightness := nightBrightness;
      }
      if hasDisplay {
        applied := applied + [displayBrightness];
      }
    }
  }

  /** The legacy brightness rule is the rewrite's `brightness` property. */
  lemma SameRuleAsRewrite(m: Main, s: MainConfig.MainSettings, now: int)
    requires m.dayBrightness == s.dayBrightness && m.nightBrightness == s.nightBrightness && m.sun == s.sun
    requires m.displayBrightness == MainConfig.DayOrNight(m.nightBrightness, m.sun, now, m.dayBrightness, m.nightBrightness)
    ensures m.displayBrightness == s.Brightness(now)
  {
  }

  /** A running animation: the name of its defaults and the settings it
      runs with. */
  datatype Running = Running(name: string, settings: string)

  class AnimationController {
    var current: Option<Running>
    /** The settings of the stop events put on the control queue. */
    var stopQueue: seq<string>

    constructor ()
      ensures current == None && stopQueue == []
    {
      current := None;
      stopQueue := [];
    }

    /** `__create_stop_event`: nothing when no animation is current or a
        name is given that is not the current one; otherwise a stop event
        for the current animation's settings is put and returned. */
    method CreateStopEvent(name: Option<string>) returns (e: Option<string>)
      modifies this
      ensures current == old(current)
      ensures e.None? <==> old(current).None? || (name.Some? && name.value != old(current).value.name)
      ensures e.Some? ==> e.value == current.value.settings && stopQueue == old(stopQueue) + [e.value]
      ensures e.None? ==> stopQueue == old(stopQueue)
    {
      if current.None? {
        return None;
      }
      if name.Some? && current.value.name != name.value {
        return None;
      }
      stopQueue := stopQueue + [current.value.settings];
      return Some(current.value.settings);
    }

    /** `get_current_animation_name`: the empty name when idle. */
    function CurrentAnimationName(): (r: string)
      reads this
      ensures current.None? ==> r == ""
      ensures current.Some? ==> r == current.value.name
    {
      if current.Some? then current.value.name else ""
    }
  }
}
