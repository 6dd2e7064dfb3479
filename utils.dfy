/** Pure helpers of `utils.py`: battery-life projection, mode detection from a
    file name, the mode-name table, and the unit choice for durations. */
module Utils {
  import opened Numbers
  import opened Text

  /** The dictionary `calculate_battery_life` returns. */
  datatype BatteryLife = BatteryLife(hours: ExtReal, days: ExtReal,
                                     batteryCapacityMAh: real, voltage: real, avgPowerW: real)

  /** Battery energy in joules: mAh x V x 3.6. */
  function BatteryEnergyJ(capacityMAh: real, voltage: real): real
  {
    capacityMAh * voltage * 3.6
  }

  /** `calculate_battery_life`: hours of operation at `avgPowerW`, or +infinity
      when the power is not positive (a sentinel, not an error). */
  function CalculateBatteryLife(avgPowerW: real, capacityMAh: real := 1000.0, voltage: real := 3.7): (b: BatteryLife)
    ensures b.batteryCapacityMAh == capacityMAh && b.voltage == voltage && b.avgPowerW == avgPowerW
    ensures b.hours.PosInf? <==> avgPowerW <= 0.0
    ensures b.days.PosInf? <==> avgPowerW <= 0.0
  {
    if avgPowerW > 0.0 then
      var hours := BatteryEnergyJ(capacityMAh, voltage) / (avgPowerW * 3600.0);
      BatteryLife(Finite(hours), Finite(hours / 24.0), capacityMAh, voltage, avgPowerW)
    else
      BatteryLife(PosInf, PosInf, capacityMAh, voltage, avgPowerW)
  }

  /** For positive power, hours x power x 3600 s is the battery's energy and a day is 24 hours. */
  lemma BatteryLifeEnergyBalance(avgPowerW: real, capacityMAh: real, voltage: real)
    requires avgPowerW > 0.0
    ensures var b := CalculateBatteryLife(avgPowerW, capacityMAh, voltage);
      && b.hours.r * avgPowerW * 3600.0 == BatteryEnergyJ(capacityMAh, voltage)
      && b.days.r * 24.0 == b.hours.r
  {
    var e, d := BatteryEnergyJ(capacityMAh, voltage), avgPowerW * 3600.0;
    assert (e / d) * d == e;
    assert (e / d) * avgPowerW * 3600.0 == (e / d) * d;
  }

  /** Drawing more power never lengthens the projected battery life. */
  lemma BatteryLifeAntitone(p1: real, p2: real, capacityMAh: real, voltage: real)
    requires 0.0 < p1 <= p2
    requires capacityMAh >= 0.0 && voltage >= 0.0
    ensures CalculateBatteryLife(p2, capacityMAh, voltage).hours.r <= CalculateBatteryLife(p1, capacityMAh, voltage).hours.r
  {
    var e := BatteryEnergyJ(capacityMAh, voltage);
    assert e >= 0.0 by { assert capacityMAh * voltage >= 0.0; }
    var d1, d2 := p1 * 3600.0, p2 * 3600.0;
    assert 0.0 < d1 <= d2;
    assert e / d2 <= e / d1 by {
      assert e / d1 - e / d2 == e * (d2 - d1) / (d1 * d2);
      assert e * (d2 - d1) >= 0.0;
    }
  }

  /** The default battery (1000 mAh at 3.7 V) at 50 mW lasts 74 hours. */
  lemma DefaultBatteryExample()
    ensures CalculateBatteryLife(0.05).hours == Finite(74.0)
  {
  }

  /** `get_mode_names`: mode key to display name. */
  function GetModeNames(): map<string, string>
  {
    map["Nolight" := "無燈光", "Breath" := "呼吸燈", "Colorcycle" := "彩色循環",
        "Flash" := "閃爍", "Unknown" := "未知模式"]
  }

  predicate IsNolightName(s: string)
  {
    Contains(s, "nolight") || Contains(s, "no light") || Contains(s, "無燈")
  }

  predicate IsBreathName(s: string)
  {
    Contains(s, "breath") || Contains(s, "呼吸")
  }

  predicate IsColorcycleName(s: string)
  {
    Contains(s, "colorcycle") || Contains(s, "color cycle") || Contains(s, "color") || Contains(s, "彩色")
  }

  predicate IsFlashName(s: string)
  {
    Contains(s, "flash") || Contains(s, "閃爍")
  }

  /** `detect_mode_from_filename`: keyword tests on the lower-cased name, in the
      priority Nolight, Breath, Colorcycle, Flash; `Unknown` otherwise. */
  function DetectModeFromFilename(filename: string): string
  {
    var s := Lower(filename);
    if IsNolightName(s) then "Nolight"
    else if IsBreathName(s) then "Breath"
    else if IsColorcycleName(s) then "Colorcycle"
    else if IsFlashName(s) then "Flash"
    else "Unknown"
  }

  /** The detected mode is a known mode, and each mode is chosen exactly when
      its keywords occur and no keyword of a higher-priority mode does. */
  lemma DetectModePriority(filename: string)
    ensures DetectModeFromFilename(filename) in GetModeNames()
    ensures var mode, s := DetectModeFromFilename(filename), Lower(filename);
      && (mode == "Nolight" <==> IsNolightName(s))
      && (mode == "Breath" <==> !IsNolightName(s) && IsBreathName(s))
      && (mode == "Colorcycle" <==> !IsNolightName(s) && !IsBreathName(s) && IsColorcycleName(s))
      && (mode == "Flash" <==> !IsNolightName(s) && !IsBreathName(s) && !IsColorcycleName(s) && IsFlashName(s))
  {
  }

  lemma {:induction false} LowerIdempotent(s: string)
    ensures Lower(Lower(s)) == Lower(s)
  {
    if s != [] {
      LowerIdempotent(s[1..]);
      assert Lower(s)[1..] == Lower(s[1..]);
    }
  }

  /** Detection ignores letter case. */
  lemma DetectModeCaseInsensitive(filename: string)
    ensures DetectModeFromFilename(Lower(filename)) == DetectModeFromFilename(filename)
  {
    LowerIdempotent(filename);
  }

  datatype TimeUnit = Seconds | Minutes | Hours | Days

  /** `format_time_duration` before rendering: the unit picked and the value in that unit. */
  datatype Duration = Duration(value: real, unit: TimeUnit)

  function UnitSeconds(u: TimeUnit): real
  {
    match u
    case Seconds => 1.0
    case Minutes => 60.0
    case Hours => 3600.0
    case Days => 86400.0
  }

  /** `format_time_duration`: the unit chosen by the thresholds 60, 3600 and 86400 seconds. */
  function FormatTimeDuration(seconds: real): (d: Duration)
    ensures d.value * UnitSeconds(d.unit) == seconds
    ensures d.unit == Seconds <==> seconds < 60.0
    ensures d.unit == Minutes <==> 60.0 <= seconds < 3600.0
    ensures d.unit == Hours <==> 3600.0 <= seconds < 86400.0
    ensures d.unit == Days <==> 86400.0 <= seconds
    ensures d.unit != Seconds && d.unit != Days ==> 1.0 <= d.value < 60.0
    ensures d.unit == Days ==> d.value >= 1.0
  {
    if seconds < 60.0 then Duration(seconds, Seconds)
    else if seconds < 3600.0 then Duration(seconds / 60.0, Minutes)
    else if seconds < 86400.0 then Duration(seconds / 3600.0, Hours)
    else Duration(seconds / 86400.0, Days)
  }
}
