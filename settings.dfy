/** The rewrite's main settings: display size, day and night brightness and
    colour temperature, and the day-time rule that picks between them.
    Times are seconds since the epoch; the sun times come from outside. */
module MainConfig {

  /** A colour temperature in kelvin. */
  type ColorTemp = int

  const DefaultWidth := 15
  const DefaultHeight := 12
  const DefaultDayBrightness := 85
  /** A night brightness of -1 disables the night setting. */
  const NightDisabled := -1
  const DefaultDayColorTemp: ColorTemp := 6000
  const DefaultNightColorTemp: ColorTemp := 3200
  const DefaultHttpPort := 8080
  const DefaultListenIp := "127.0.0.1"

  /** Sunrise and sunset of one day. */
  datatype SunTimes = SunTimes(sunrise: int, sunset: int)

  /** `__is_day_time`: always day while the night setting is disabled,
      otherwise between sunrise and sunset inclusive. */
  predicate IsDayTime(night: int, sun: SunTimes, now: int) {
    night == NightDisabled || sun.sunrise <= now <= sun.sunset
  }

  /** The day value in day time, else the night value. */
  function DayOrNight<T>(night: int, sun: SunTimes, now: int, dayValue: T, nightValue: T): (r: T)
    ensures IsDayTime(night, sun, now) ==> r == dayValue
    ensures !IsDayTime(night, sun, now) ==> r == nightValue
  {
    if IsDayTime(night, sun, now) then dayValue else nightValue
  }

  /** `refresh_sunset_sunrise`: today's times, or tomorrow's once today's
      sunset has passed. */
  function NextSunTimes(today: SunTimes, tomorrow: SunTimes, now: int): (r: SunTimes)
    ensures now <= today.sunset ==> r == today
    ensures today.sunset < now ==> r == tomorrow
  {
    if today.sunset < now then tomorrow else today
  }

  class MainSettings {
    var displayWidth: int
    var displayHeight: int
    var dayBrightness: int
    var nightBrightness: int
    var dayColorTemp: ColorTemp
    var nightColorTemp: ColorTemp
    var httpServer: bool
    var httpServerPort: int
    var httpServerListenIp: string
    var tpm2netServer: bool
    var sun: SunTimes
    /** `num_of_pixels`: computed once in `__post_init__`, so later changes
        of the width or height fields do not reach it. */
    const numOfPixels: int

    /** `MainSettings(...)` followed by `__post_init__`. */
    constructor (width: int, height: int, day: int, night: int, today: SunTimes, tomorrow: SunTimes, now: int)
      ensures displayWidth == width && displayHeight == height
      ensures dayBrightness == day && nightBrightness == night
      ensures dayColorTemp == DefaultDayColorTemp && nightColorTemp == DefaultNightColorTemp
      ensures httpServer && httpServerPort == DefaultHttpPort && httpServerListenIp == DefaultListenIp
      ensures !tpm2netServer
      ensures sun == NextSunTimes(today, tomorrow, now)
      ensures numOfPixels == width * height
    {
      displayWidth := width;
      displayHeight := height;
      dayBrightness := day;
      nightBrightness := night;
      dayColorTemp := DefaultDayColorTemp;
      nightColorTemp := DefaultNightColorTemp;
      httpServer := true;
      httpServerPort := DefaultHttpPort;
      httpServerListenIp := DefaultListenIp;
      tpm2netServer := false;
      sun := NextSunTimes(today, tomorrow, now);
      numOfPixels := width * height;
    }

    method RefreshSunsetSunrise(today: SunTimes, tomorrow: SunTimes, now: int)
      modifies this
      ensures sun == NextSunTimes(today, tomorrow, now)
      ensures displayWidth == old(displayWidth) && displayHeight == old(displayHeight)
      ensures dayBrightness == old(dayBrightness) && nightBrightness == old(nightBrightness)
      ensures dayColorTemp == old(dayColorTemp) && nightColorTemp == old(nightColorTemp)
      ensures httpServer == old(httpServer) && httpServerPort == old(httpServerPort)
      ensures httpServerListenIp == old(httpServerListenIp) && tpm2netServer == old(tpm2netServer)
    {
      sun := NextSunTimes(today, tomorrow, now);
    }

    /** `brightness`: never the disabled marker unless the day value is. */
    function Brightness(now: int): (b: int)
      reads this
      ensures nightBrightness == NightDisabled ==> b == dayBrightness
      ensures b == dayBrightness || b == nightBrightness
      ensures b == NightDisabled ==> dayBrightness == NightDisabled
      ensures dayBrightness != nightBrightness ==>
        (b == dayBrightness <==> IsDayTime(nightBrightness, sun, now))
    {
      DayOrNight(nightBrightness, sun, now, dayBrightness, nightBrightness)
    }

    /** `color_temp`: the same day-time rule as the brightness. */
    function ColorTemperature(now: int): (t: ColorTemp)
      reads this
      ensures nightBrightness == NightDisabled ==> t == dayColorTemp
      ensures dayColorTemp != nightColorTemp ==>
        (t == dayColorTemp <==> IsDayTime(nightBrightness, sun, now))
    {
      DayOrNight(nightBrightness, sun, now, dayColorTemp, nightColorTemp)
    }
  }

  /** Brightness and colour temperature switch together: in night time both
      take their night values. */
  lemma NightSwitchesBoth(m: MainSettings, now: int)
    requires m.dayBrightness != m.nightBrightness && m.dayColorTemp != m.nightColorTemp
    ensures m.Brightness(now) == m.nightBrightness <==> m.ColorTemperature(now) == m.nightColorTemp
  {
  }
}
