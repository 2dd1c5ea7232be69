/**
 * The dashboard's formatting helpers: absent numbers and times shown as a
 * dash, and the colour and label tables for volume and pressure statuses.
 */
module Formatters {
  import opened Js

  const Dash := "-"

  /**
   * `formatNumber(num, decimals)`; `None` is null or undefined, and `render`
   * is the runtime's `toLocaleString('en-US', …)` with that many decimals.
   */
  function FormatNumber(num: Option<real>, decimals: nat, render: (real, nat) -> string): (r: string)
    ensures num.None? ==> r == Dash
  {
    if num.None? then Dash else render(num.value, decimals)
  }

  /** `formatVolume`: the number with no decimals and the cubic-metre unit. */
  function FormatVolume(volume: Option<real>, render: (real, nat) -> string): (r: string)
    ensures r == Dash <==> volume.None?
  {
    if volume.None? then Dash else FormatNumber(volume, 0, render) + " m³"
  }

  /** `formatPressure`: one decimal and the bar unit. */
  function FormatPressure(pressure: Option<real>, render: (real, nat) -> string): (r: string)
    ensures r == Dash <==> pressure.None?
  {
    if pressure.None? then Dash else FormatNumber(pressure, 1, render) + " bar"
  }

  /** `formatPercentage`: two decimals and a percent sign. */
  function FormatPercentage(percent: Option<real>, render: (real, nat) -> string): (r: string)
    ensures r == Dash <==> percent.None?
  {
    if percent.None? then Dash
    else
      var r := FormatNumber(percent, 2, render) + "%";
      assert r[|r| - 1] == '%';
      r
  }

  /** A present measurement is the plain number followed by its unit. */
  lemma UnitFollowsNumber(x: real, render: (real, nat) -> string)
    ensures var v := FormatVolume(Some(x), render); v[..|v| - 3] == render(x, 0) && v[|v| - 3..] == " m³"
    ensures var p := FormatPressure(Some(x), render); p[..|p| - 4] == render(x, 1) && p[|p| - 4..] == " bar"
    ensures var q := FormatPercentage(Some(x), render); q[..|q| - 1] == render(x, 2) && q[|q| - 1..] == "%"
  {
  }

  /** `formatTime`: a dash for null or the empty string, the text itself otherwise. */
  function FormatTime(time: Option<string>): (r: string)
    ensures r != ""
    ensures Present(time) ==> r == time.value
    ensures !Present(time) ==> r == Dash
  {
    if Present(time) then time.value else Dash
  }

  /** Formatting a formatted time changes nothing. */
  lemma FormatTimeIdempotent(time: Option<string>)
    ensures FormatTime(Some(FormatTime(time))) == FormatTime(time)
  {
  }

  const Green := "#4caf50"
  const Red := "#f44336"
  const Orange := "#ff9800"
  const Blue := "#2196f3"
  const Gray := "#9e9e9e"

  function VolumeStatusColor(status: string): (c: string)
    ensures c in {Green, Red, Orange, Gray}
  {
    match status
    case "ON_TARGET" => Green
    case "BELOW_TARGET" => Red
    case "ABOVE_TARGET" => Orange
    case "OFFLINE" => Gray
    case _ => Gray
  }

  function PressureStatusColor(status: string): (c: string)
    ensures c in {Green, Blue, Red, Gray}
  {
    match status
    case "NORMAL" => Green
    case "LOW" => Blue
    case "HIGH" => Red
    case "OFFLINE" => Gray
    case _ => Gray
  }

  const VolumeCodes: seq<string> := ["ON_TARGET", "BELOW_TARGET", "ABOVE_TARGET"]
  const PressureCodes: seq<string> := ["NORMAL", "LOW", "HIGH"]

  /** Only the three volume codes get a colour; offline and unknown statuses are gray, and distinct codes get distinct colours. */
  lemma VolumeColorTable(s: string, t: string)
    ensures VolumeStatusColor(s) == Gray <==> s !in VolumeCodes
    ensures s in VolumeCodes && t in VolumeCodes && s != t ==> VolumeStatusColor(s) != VolumeStatusColor(t)
  {
  }

  lemma PressureColorTable(s: string, t: string)
    ensures PressureStatusColor(s) == Gray <==> s !in PressureCodes
    ensures s in PressureCodes && t in PressureCodes && s != t ==> PressureStatusColor(s) != PressureStatusColor(t)
  {
  }

  const KnownCodes: seq<string> := VolumeCodes + ["OFFLINE"] + PressureCodes

  function StatusLabel(status: string): (r: string)
    ensures status !in KnownCodes ==> r == status
  {
    match status
    case "ON_TARGET" => "On Target"
    case "BELOW_TARGET" => "Below Target"
    case "ABOVE_TARGET" => "Above Target"
    case "OFFLINE" => "Offline"
    case "NORMAL" => "Normal"
    case "LOW" => "Low"
    case "HIGH" => "High"
    case _ => status
  }

  /** The seven known codes get labels of their own, none of which is a code. */
  lemma StatusLabelsAreNotCodes(s: string)
    ensures s in KnownCodes ==> StatusLabel(s) != s && StatusLabel(s) !in KnownCodes
  {
  }

  /**
   * Different known codes get different labels, so a label tells the code
   * back.
   */
  lemma StatusLabelsDistinct(s: string, t: string)
    ensures s in KnownCodes && t in KnownCodes && s != t ==> StatusLabel(s) != StatusLabel(t)
  {
  }

  /** An unknown status spelled like a label (`On Target`) shows the same text as its code. */
  lemma LabelSpelledStatusCollides()
    ensures StatusLabel("On Target") == StatusLabel("ON_TARGET")
  {
  }

  /** Every status with a colour of its own has a label of its own. */
  lemma ColouredStatusesAreLabelled(s: string)
    ensures VolumeStatusColor(s) != Gray ==> StatusLabel(s) != s
    ensures PressureStatusColor(s) != Gray ==> StatusLabel(s) != s
  {
  }
}
