/** Device discovery (`xac_dinh_vi_tri_thiet_bi`) and the device type and
    power tables behind the "write UID" columns.

    The backend's "all occurrences" search is an oracle:
    `find(p, path, confidence, region)` is what it reports for template
    `path` in pass `p` within `region` (None = the whole screen). */
module Devices {
  import opened Common
  import opened Config
  import opened Locator

  /** Confidence used for the device-list title template. */
  const TitleConfidence: real := 0.8

  function Min(a: real, b: real): real { if a <= b then a else b }
  function Max(a: real, b: real): real { if a >= b then a else b }

  /** Per-class confidence: `min(0.75, conf * 0.9)`, raised to 0.6 when below. */
  function DeviceConfidence(configured: real): (c: real)
    ensures 0.6 <= c <= 0.75
  {
    var c := Min(0.75, configured * 0.9);
    if c < 0.6 then 0.6 else c
  }

  /** The code's two-step form is the clamp `max(0.6, min(0.75, conf * 0.9))`;
      it is monotone, and for a configured confidence of at least 0.6 it is
      never stricter than the configured one. */
  lemma DeviceConfidenceIsClamp(configured: real)
    ensures DeviceConfidence(configured) == Max(0.6, Min(0.75, configured * 0.9))
    ensures 0.6 <= configured * 0.9 <= 0.75 ==> DeviceConfidence(configured) == configured * 0.9
    ensures configured >= 0.6 ==> DeviceConfidence(configured) <= configured
    ensures forall other: real :: configured <= other ==> DeviceConfidence(configured) <= DeviceConfidence(other)
  {}

  lemma DeviceConfidenceExamples()
    ensures DeviceConfidence(0.5) == 0.6
    ensures DeviceConfidence(0.9) == 0.75
    ensures DeviceConfidence(1.0) == 0.75
  {}

  // ------------------------------------------------------------ search region

  /** What the backend reports for the title template at a given confidence. */
  type TitleScreen = (string, real) -> Probe

  /** The region searched for devices: the box of the first title template
      when it is found at confidence 0.8; the whole screen (None) when there
      is no title template, it is not found, or the backend errs. Only the
      first title template is tried. */
  function SearchRegion(titlePaths: seq<string>, title: TitleScreen): (region: Option<Rect>)
    ensures region.Some? <==> titlePaths != [] && title(titlePaths[0], TitleConfidence).Hit?
    ensures region.Some? ==> region.value == title(titlePaths[0], TitleConfidence).box
  {
    if titlePaths == [] then None
    else match title(titlePaths[0], TitleConfidence)
      case Hit(box) => Some(box)
      case _ => None
  }

  // ------------------------------------------------------------ device passes

  datatype Matches = Found(boxes: seq<Rect>) | MatchError

  /** pass, template path, confidence, region -> all occurrences found. */
  type DeviceScreen = (nat, string, real, Option<Rect>) -> Matches

  /** Both "not found" and an error contribute nothing. */
  function BoxesOf(m: Matches): seq<Rect> {
    if m.Found? then m.boxes else []
  }

  /** One class in one pass: the matches of its templates, concatenated in
      template order. */
  function ClassMatches(find: DeviceScreen, p: nat, paths: seq<string>, conf: real, region: Option<Rect>): seq<Rect>
    decreases |paths|
  {
    if |paths| == 0 then []
    else ClassMatches(find, p, paths[..|paths| - 1], conf, region)
         + BoxesOf(find(p, paths[|paths| - 1], conf, region))
  }

  /** A class comes back empty exactly when none of its templates matched. */
  lemma {:induction false} ClassMatchesEmpty(find: DeviceScreen, p: nat, paths: seq<string>, conf: real, region: Option<Rect>)
    ensures ClassMatches(find, p, paths, conf, region) == [] <==>
            forall j :: 0 <= j < |paths| ==> BoxesOf(find(p, paths[j], conf, region)) == []
    decreases |paths|
  {
    if |paths| > 0 {
      var init := paths[..|paths| - 1];
      ClassMatchesEmpty(find, p, init, conf, region);
      assert forall j :: 0 <= j < |init| ==> init[j] == paths[j];
    }
  }

  datatype Devices = Devices(led: seq<Rect>, pump: seq<Rect>, dmx2vfd: seq<Rect>)

  predicate AnyFound(d: Devices) {
    d.led != [] || d.pump != [] || d.dmx2vfd != []
  }

  datatype Templates = Templates(led: seq<string>, pump: seq<string>, dmx2vfd: seq<string>)

  /** The three class lists of pass `p`. */
  function PassDevices(find: DeviceScreen, p: nat, t: Templates, conf: real, region: Option<Rect>): Devices {
    Devices(ClassMatches(find, p, t.led, conf, region),
            ClassMatches(find, p, t.pump, conf, region),
            ClassMatches(find, p, t.dmx2vfd, conf, region))
  }

  /** Passes `p` to `passes - 1`: the first pass in which some class is
      non-empty is returned whole; if none is, three empty lists. */
  function LocateFrom(find: DeviceScreen, p: nat, passes: nat, t: Templates, conf: real, region: Option<Rect>): Devices
    decreases passes - p
  {
    if p >= passes then Devices([], [], [])
    else if AnyFound(PassDevices(find, p, t, conf, region)) then PassDevices(find, p, t, conf, region)
    else LocateFrom(find, p + 1, passes, t, conf, region)
  }

  /** Three empty lists come back exactly when every pass found nothing. */
  lemma {:induction false} LocateEmptyIffNothingFound(find: DeviceScreen, p: nat, passes: nat, t: Templates, conf: real, region: Option<Rect>)
    ensures !AnyFound(LocateFrom(find, p, passes, t, conf, region)) <==>
            forall q :: p <= q < passes ==> !AnyFound(PassDevices(find, q, t, conf, region))
    decreases passes - p
  {
    if p < passes {
      LocateEmptyIffNothingFound(find, p + 1, passes, t, conf, region);
    }
  }

  /** The result is the first pass with a match, and only an all-empty pass
      leads to another one. */
  lemma {:induction false} LocateReturnsFirstFound(find: DeviceScreen, p: nat, q: nat, passes: nat, t: Templates, conf: real, region: Option<Rect>)
    requires p <= q < passes
    requires AnyFound(PassDevices(find, q, t, conf, region))
    requires forall k :: p <= k < q ==> !AnyFound(PassDevices(find, k, t, conf, region))
    ensures LocateFrom(find, p, passes, t, conf, region) == PassDevices(find, q, t, conf, region)
    decreases q - p
  {
    if p < q {
      LocateReturnsFirstFound(find, p + 1, q, passes, t, conf, region);
    }
  }

  /** One of the three per-class loops: extend the class list with every
      template's matches. */
  method CollectClass(find: DeviceScreen, p: nat, paths: seq<string>, conf: real, region: Option<Rect>)
    returns (locs: seq<Rect>)
    ensures locs == ClassMatches(find, p, paths, conf, region)
  {
    locs := [];
    var i := 0;
    while i < |paths|
      invariant 0 <= i <= |paths|
      invariant locs == ClassMatches(find, p, paths[..i], conf, region)
    {
      assert paths[..i + 1][..i] == paths[..i];
      match find(p, paths[i], conf, region) {
        case Found(boxes) => locs := locs + boxes;
        case MatchError =>
      }
      i := i + 1;
    }
    assert paths[..|paths|] == paths;
  }

  /** The template lists of the three device classes. */
  function DeviceTemplates(sections: Sections, fileExists: string -> bool): Templates {
    Templates(CandidatePaths(sections, "tricolor_led_item", fileExists),
              CandidatePaths(sections, "afvarionaut_pump_item", fileExists),
              CandidatePaths(sections, "dmx2vfd_item", fileExists))
  }

  /** `xac_dinh_vi_tri_thiet_bi(timeout)`: LED, pump and DMX2VFD boxes. */
  method LocateDevices(config: ConfigManager, fileExists: string -> bool, title: TitleScreen,
                       find: DeviceScreen, configured: real, passes: nat)
    returns (d: Devices)
    ensures d == LocateFrom(find, 0, passes, DeviceTemplates(config.sections, fileExists),
                            DeviceConfidence(configured),
                            SearchRegion(CandidatePaths(config.sections, "device_discovery_title", fileExists), title))
  {
    var titlePaths := ImagePathsList(config, "device_discovery_title", fileExists);
    var region := SearchRegion(titlePaths, title);
    var ledPaths := ImagePathsList(config, "tricolor_led_item", fileExists);
    var pumpPaths := ImagePathsList(config, "afvarionaut_pump_item", fileExists);
    var dmxPaths := ImagePathsList(config, "dmx2vfd_item", fileExists);
    ghost var t := Templates(ledPaths, pumpPaths, dmxPaths);
    var conf := DeviceConfidence(configured);
    var p := 0;
    while p < passes
      invariant p <= passes
      invariant LocateFrom(find, 0, passes, t, conf, region) == LocateFrom(find, p, passes, t, conf, region)
    {
      var led := CollectClass(find, p, ledPaths, conf, region);
      var pump := CollectClass(find, p, pumpPaths, conf, region);
      var dmx := CollectClass(find, p, dmxPaths, conf, region);
      if led != [] || pump != [] || dmx != [] {
        return Devices(led, pump, dmx);
      }
      p := p + 1;
    }
    d := Devices([], [], []);
  }

  // --------------------------------------------------- device type and power

  /** The device types the two "write UID" columns offer. */
  const DeviceTypeOptions: seq<string> :=
    ["AFVarionaut Pump", "Submersible Pump", "Tricolor Led", "SingleColor Led", "Dmx2Vfd Converter"]

  /** `device_type_map` of `_select_device_type`: type -> button template key. */
  function DeviceTypeKey(deviceType: string): (key: Option<string>)
    ensures key.Some? <==> deviceType in DeviceTypeOptions
  {
    if deviceType == "AFVarionaut Pump" then Some("afvarionaut_pump_type_btn")
    else if deviceType == "Submersible Pump" then Some("submersible_pump_type_btn")
    else if deviceType == "Tricolor Led" then Some("tricolor_led_type_btn")
    else if deviceType == "SingleColor Led" then Some("singlecolor_led_type_btn")
    else if deviceType == "Dmx2Vfd Converter" then Some("dmx2vfd_converter_type_btn")
    else None
  }

  /** `device_power_map` of `_select_device_power`: power -> button template key. */
  function DevicePowerKey(power: string): (key: Option<string>)
    ensures key.Some? <==> power in PowerChoices
  {
    if power == "60" then Some("60w_power_btn")
    else if power == "100" then Some("100w_power_btn")
    else if power == "140" then Some("140w_power_btn")
    else if power == "160" then Some("160w_power_btn")
    else if power == "120" then Some("120w_power_btn")
    else if power == "150" then Some("150w_power_btn")
    else if power == "200" then Some("200w_power_btn")
    else if power == "18" then Some("18w_power_btn")
    else if power == "36" then Some("36w_power_btn")
    else if power == "6" then Some("6w_power_btn")
    else if power == "12" then Some("12w_power_btn")
    else if power == "Unspecified" then Some("unspecified_power_btn")
    else None
  }

  /** The keys of `device_power_map`. */
  const PowerChoices: seq<string> :=
    ["60", "100", "140", "160", "120", "150", "200", "18", "36", "6", "12", "Unspecified"]

  /** The power choices `update_device_power_options_col` offers for a type:
      some exactly for the known types, none for anything else. */
  function PowerOptions(deviceType: string): (options: seq<string>)
    ensures options != [] <==> deviceType in DeviceTypeOptions
  {
    if deviceType == "AFVarionaut Pump" then ["60", "100", "140", "160"]
    else if deviceType == "Submersible Pump" then ["120", "150", "200"]
    else if deviceType == "Tricolor Led" then ["18", "36"]
    else if deviceType == "SingleColor Led" then ["6", "12"]
    else if deviceType == "Dmx2Vfd Converter" then ["Unspecified"]
    else []
  }

  /** The tables agree: a type has power choices exactly when it has a
      button, every offered type is known, and every power choice offered
      for any type can be selected. */
  lemma TablesAgree(deviceType: string)
    ensures DeviceTypeKey(deviceType).Some? <==> PowerOptions(deviceType) != []
    ensures deviceType in DeviceTypeOptions <==> DeviceTypeKey(deviceType).Some?
    ensures forall power :: power in PowerOptions(deviceType) ==> DevicePowerKey(power).Some?
  {}

  /** A power has a button exactly when some known device type offers it. */
  lemma PowerKeyIffOffered(power: string)
    ensures DevicePowerKey(power).Some? <==> exists t :: t in DeviceTypeOptions && power in PowerOptions(t)
  {
    if DevicePowerKey(power).Some? {
      var types := DeviceTypeOptions;
      assert power in PowerOptions(types[0]) || power in PowerOptions(types[1]) || power in PowerOptions(types[2])
          || power in PowerOptions(types[3]) || power in PowerOptions(types[4]);
    }
  }

  /** The selected power after the type changes: kept when still offered,
      otherwise the first offered one; kept as is when nothing is offered. */
  function ResetPower(current: string, options: seq<string>): (power: string)
    ensures options != [] ==> power in options
    ensures current in options ==> power == current
    ensures options == [] ==> power == current
    ensures current !in options && options != [] ==> power == options[0]
  {
    if current !in options && options != [] then options[0] else current
  }

  // ------------------------------------------- selecting a type or a power

  datatype SelectResult =
    | FieldNotFound          // "Thất bại: không thể tìm thấy 'Device type'."
    | InvalidChoice          // "Thất bại: Invalid device type: ..."
    | ButtonNotFound         // "Thất bại: không thể tìm thấy nút '...'."
    | SelectStopped          // the corrected flow only: a search saw the stop flag
    | Selected               // "Device type selected: ..."

  /** Python truthiness of a `find_and_click` result: True and the
      "stopped" string are both truthy, only False is not. */
  predicate Truthy(r: ClickResult) {
    !r.ClickNotFound?
  }

  /** `_select_device_type` / `_select_device_power` as written: `click(key)`
      is what `find_and_click(key, timeout=10)` returns; the value's button is
      searched only when the table knows it. */
  function SelectAsWritten(fieldKey: string, keyOf: string -> Option<string>, value: string,
                           click: string -> ClickResult): (r: SelectResult)
    ensures r == FieldNotFound <==> click(fieldKey).ClickNotFound?
    ensures r == Selected <==>
              Truthy(click(fieldKey)) && keyOf(value).Some? && Truthy(click(keyOf(value).value))
    ensures r == InvalidChoice <==> Truthy(click(fieldKey)) && keyOf(value).None?
    ensures r != SelectStopped
  {
    if !Truthy(click(fieldKey)) then FieldNotFound
    else match keyOf(value)
      case None => InvalidChoice
      case Some(key) => if !Truthy(click(key)) then ButtonNotFound else Selected
  }

  /** As written, a search cut short by the stop flag counts as a click: with
      the stop flag up, a valid type reports "selected" though nothing was
      clicked. */
  lemma StoppedSearchReportsSelected(deviceType: string, click: string -> ClickResult)
    requires deviceType == "Tricolor Led"
    requires forall key :: click(key) == ClickStopped(0)
    ensures SelectAsWritten("device_type_field", DeviceTypeKey, deviceType, click) == Selected
    ensures !click("device_type_field").Clicked?
  {}

  /** The intended flow: only a real click moves on; a stopped search is
      reported as such. */
  function Select(fieldKey: string, keyOf: string -> Option<string>, value: string,
                  click: string -> ClickResult): (r: SelectResult)
    ensures r == Selected <==>
              click(fieldKey).Clicked? && keyOf(value).Some? && click(keyOf(value).value).Clicked?
    ensures r == InvalidChoice <==> click(fieldKey).Clicked? && keyOf(value).None?
    ensures r == SelectStopped <==>
              click(fieldKey).ClickStopped? ||
              (click(fieldKey).Clicked? && keyOf(value).Some? && click(keyOf(value).value).ClickStopped?)
  {
    match click(fieldKey)
    case ClickNotFound => FieldNotFound
    case ClickStopped(_) => SelectStopped
    case Clicked(_, _, _) =>
      match keyOf(value)
      case None => InvalidChoice
      case Some(key) =>
        match click(key)
        case ClickNotFound => ButtonNotFound
        case ClickStopped(_) => SelectStopped
        case Clicked(_, _, _) => Selected
  }

  /** The two flows differ only when a search sees the stop flag. */
  lemma SelectAgreesWithoutStop(fieldKey: string, keyOf: string -> Option<string>, value: string,
                                click: string -> ClickResult)
    requires forall key :: !click(key).ClickStopped?
    ensures Select(fieldKey, keyOf, value, click) == SelectAsWritten(fieldKey, keyOf, value, click)
  {}

  /** `_select_device_type(device_type)` as written: a stopped search
      counts as found. */
  function SelectDeviceType(deviceType: string, click: string -> ClickResult): (r: SelectResult)
    ensures r == Selected <==>
              Truthy(click("device_type_field")) && deviceType in DeviceTypeOptions &&
              Truthy(click(DeviceTypeKey(deviceType).value))
    ensures r == InvalidChoice <==> Truthy(click("device_type_field")) && deviceType !in DeviceTypeOptions
  {
    SelectAsWritten("device_type_field", DeviceTypeKey, deviceType, click)
  }

  /** `_select_device_power(device_power)` as written. */
  function SelectDevicePower(power: string, click: string -> ClickResult): (r: SelectResult)
    ensures r == Selected <==>
              Truthy(click("device_power_field")) && power in PowerChoices &&
              Truthy(click(DevicePowerKey(power).value))
    ensures r == InvalidChoice <==> Truthy(click("device_power_field")) && power !in PowerChoices
    ensures r == Selected ==> exists t :: t in DeviceTypeOptions && power in PowerOptions(t)
  {
    PowerKeyIffOffered(power);
    SelectAsWritten("device_power_field", DevicePowerKey, power, click)
  }

  /** `_select_device_type` as intended: only a real click counts. */
  function SelectDeviceTypeIntended(deviceType: string, click: string -> ClickResult): (r: SelectResult)
    ensures r == Selected <==>
              click("device_type_field").Clicked? && deviceType in DeviceTypeOptions &&
              click(DeviceTypeKey(deviceType).value).Clicked?
    ensures r == SelectStopped <==>
              click("device_type_field").ClickStopped? ||
              (click("device_type_field").Clicked? && deviceType in DeviceTypeOptions &&
               click(DeviceTypeKey(deviceType).value).ClickStopped?)
  {
    Select("device_type_field", DeviceTypeKey, deviceType, click)
  }

  /** `_select_device_power` as intended: only a real click counts. */
  function SelectDevicePowerIntended(power: string, click: string -> ClickResult): (r: SelectResult)
    ensures r == Selected <==>
              click("device_power_field").Clicked? && power in PowerChoices &&
              click(DevicePowerKey(power).value).Clicked?
    ensures r == SelectStopped <==>
              click("device_power_field").ClickStopped? ||
              (click("device_power_field").Clicked? && power in PowerChoices &&
               click(DevicePowerKey(power).value).ClickStopped?)
  {
    Select("device_power_field", DevicePowerKey, power, click)
  }
}
