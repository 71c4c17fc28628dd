/** The camera device, abstracted as a pure oracle. Every property the
    parameter layer reads is one `Oracle`: a supported range, a supported value
    list, a current value and whether writes succeed. Each query may report a
    value, report `null`, or throw. */
module Device {
  import opened Common

  /** Outcome of one device query. */
  datatype Query<+T> = Fails | Absent | Reported(value: T)

  /** CameraCapturePropertyRange: inclusive bounds reported by the hardware. */
  datatype Bounds = Bounds(min: int, max: int)

  /** One device property: GetSupportedPropertyRange, GetSupportedPropertyValues
      (or GetAvailable...Resolutions), GetProperty (or the current resolution)
      and whether SetProperty (or Set...ResolutionAsync) succeeds. */
  datatype Oracle<+T> = Oracle(range: Query<Bounds>, values: Query<seq<T>>, current: Query<T>, accepts: bool)

  /** Windows.Foundation.Size as the device reports resolutions, in whole pixels;
      the platform type holds doubles. */
  datatype Size = Size(width: nat, height: nat)

  datatype SceneMode =
    | SceneAuto | SceneMacro | Portrait | Sport | Snow | Night | Beach
    | Sunset | Candlelight | Landscape | NightPortrait | Backlit

  datatype FlashMode = FlashAuto | FlashOff | FlashOn | RedEyeReduction

  datatype FocusIlluminationMode = IlluminationAuto | IlluminationOff | IlluminationOn

  datatype WhiteBalancePreset =
    | PresetCandlelight | Cloudy | Daylight | PresetFlash | Fluorescent | Tungsten

  datatype AutoFocusRange = Full | Hyperfocal | Infinity | FocusMacro | Normal

  /** The enum member name, i.e. the C# `ToString()` of the value. */
  function SceneModeName(m: SceneMode): string {
    match m
    case SceneAuto => "Auto"
    case SceneMacro => "Macro"
    case Portrait => "Portrait"
    case Sport => "Sport"
    case Snow => "Snow"
    case Night => "Night"
    case Beach => "Beach"
    case Sunset => "Sunset"
    case Candlelight => "Candlelight"
    case Landscape => "Landscape"
    case NightPortrait => "NightPortrait"
    case Backlit => "Backlit"
  }

  function FlashModeName(m: FlashMode): string {
    match m
    case FlashAuto => "Auto"
    case FlashOff => "Off"
    case FlashOn => "On"
    case RedEyeReduction => "RedEyeReduction"
  }

  function IlluminationName(m: FocusIlluminationMode): string {
    match m
    case IlluminationAuto => "Auto"
    case IlluminationOff => "Off"
    case IlluminationOn => "On"
  }

  function PresetName(p: WhiteBalancePreset): string {
    match p
    case PresetCandlelight => "Candlelight"
    case Cloudy => "Cloudy"
    case Daylight => "Daylight"
    case PresetFlash => "Flash"
    case Fluorescent => "Fluorescent"
    case Tungsten => "Tungsten"
  }

  function FocusRangeName(r: AutoFocusRange): string {
    match r
    case Full => "Full"
    case Hyperfocal => "Hyperfocal"
    case Infinity => "Infinity"
    case FocusMacro => "Macro"
    case Normal => "Normal"
  }

  /** `Width + " x " + Height`, the text of a resolution. */
  function SizeText(s: Size): string {
    NatToString(s.width) + " x " + NatToString(s.height)
  }

  /** The closed union of every raw value an enumerated option can carry. */
  datatype Value =
    | Number(n: int)
    | Scene(scene: SceneMode)
    | Flash(flash: FlashMode)
    | Illumination(illumination: FocusIlluminationMode)
    | Preset(preset: WhiteBalancePreset)
    | FocusRange(focusRange: AutoFocusRange)
    | Resolution(size: Size)

  /** The display name of a value: the enum member name, or "W x H". */
  function ValueName(v: Value): string {
    match v
    case Number(n) => if n >= 0 then NatToString(n) else "-" + NatToString(-n)
    case Scene(m) => SceneModeName(m)
    case Flash(m) => FlashModeName(m)
    case Illumination(m) => IlluminationName(m)
    case Preset(p) => PresetName(p)
    case FocusRange(r) => FocusRangeName(r)
    case Resolution(s) => SizeText(s)
  }

  /** The opened PhotoCaptureDevice, one oracle per property the catalog uses. */
  datatype Camera = Camera(
    sceneMode: Oracle<SceneMode>,
    whiteBalancePreset: Oracle<WhiteBalancePreset>,
    previewResolution: Oracle<Size>,
    captureResolution: Oracle<Size>,
    flashMode: Oracle<FlashMode>,
    flashPower: Oracle<int>,
    iso: Oracle<int>,
    exposureCompensation: Oracle<int>,
    manualWhiteBalance: Oracle<int>,
    exposureTime: Oracle<int>,
    autoFocusRange: Oracle<AutoFocusRange>,
    focusIllumination: Oracle<FocusIlluminationMode>)

  function MapQuery<T, U>(q: Query<T>, f: T -> U): (r: Query<U>)
    ensures r.Fails? <==> q.Fails?
    ensures r.Absent? <==> q.Absent?
    ensures q.Reported? ==> r == Reported(f(q.value))
  {
    match q
    case Fails => Fails
    case Absent => Absent
    case Reported(v) => Reported(f(v))
  }

  /** Views a typed oracle through the `Value` union. */
  function Lift<T>(o: Oracle<T>, tag: T -> Value): (r: Oracle<Value>)
    ensures r.range == o.range && r.accepts == o.accepts
    ensures o.values.Reported? ==> r.values.Reported? && |r.values.value| == |o.values.value|
    ensures o.values.Reported? ==> forall i :: 0 <= i < |o.values.value| ==> r.values.value[i] == tag(o.values.value[i])
    ensures r.values.Fails? <==> o.values.Fails?
    ensures r.values.Absent? <==> o.values.Absent?
    ensures r.current == MapQuery(o.current, tag)
  {
    Oracle(o.range, MapQuery(o.values, (vs: seq<T>) => seq(|vs|, i requires 0 <= i < |vs| => tag(vs[i]))),
           MapQuery(o.current, tag), o.accepts)
  }
}
