/** `CameraSettings` of the universal app: a bag of capture settings whose
    setters always notify, a notification-free copy from the capture device,
    and the flash-mode cycle of the viewfinder button.

    Platform enum values (ISO preset, scene mode, colour temperature preset,
    focus mode) are kept as opaque codes, the encoding as an optional handle,
    and C# doubles as reals. */
module CameraSettingsModel {
  import opened Common

  /** The app's own three-member FlashMode enum. */
  datatype FlashMode = Auto | Off | On

  /** The underlying enum value: declaration order from 0. */
  function Ordinal(m: FlashMode): (n: nat)
    ensures n < FlashModeCount
  {
    match m
    case Auto => 0
    case Off => 1
    case On => 2
  }

  /** `Enum.GetValues(typeof(FlashMode)).Length`. */
  const FlashModeCount: nat := 3

  /** The enum value with a given ordinal, `(FlashMode)n`. */
  function FromOrdinal(n: nat): (m: FlashMode)
    requires n < FlashModeCount
    ensures Ordinal(m) == n
  {
    if n == 0 then Auto else if n == 1 then Off else On
  }

  const ZoomEvent: string := "Zoom"
  const EncodingEvent: string := "CaptureEncoding"
  const AutoExposureEvent: string := "AutoExposure"
  const ExposureTimeEvent: string := "ExposureTime"
  const CompensationEvent: string := "ExposureCompensation"
  const IsoEvent: string := "IsoSpeed"
  const SceneModeEvent: string := "CaptureSceneMode"
  const FlashModeEvent: string := "FlashMode"
  const ColorTemperatureEvent: string := "ColorTemperature"
  const AutoFocusEvent: string := "AutoFocusEnabled"
  const FocusRangeEvent: string := "FocusRange"
  const FocusModeEvent: string := "FocusMode"
  const HueEvent: string := "Hue"

  /** The settings object; `log` holds the property names delivered to the
      `PropertyChanged` subscribers, `listening` whether there is one. */
  datatype CameraSettings = CameraSettings(
    zoom: real,
    focusRange: real,
    autoFocusEnabled: bool,
    isoSpeed: nat,
    autoExposure: bool,
    exposureTime: real,
    exposureCompensation: real,
    encoding: Option<nat>,
    sceneMode: nat,
    flashMode: FlashMode,
    colorTemperature: nat,
    focusMode: nat,
    hue: real,
    listening: bool,
    log: seq<string>)

  /** A freshly constructed settings object: zoom 1, every other field at its
      C# default, nobody subscribed. */
  function NewSettings(): (s: CameraSettings)
    ensures s.zoom == 1.0 && s.flashMode == Auto && s.encoding.None?
    ensures s.exposureTime == 0.0 && !s.autoExposure && !s.autoFocusEnabled
    ensures !s.listening && s.log == []
  {
    CameraSettings(1.0, 0.0, false, 0, false, 0.0, 0.0, None, 0, Auto, 0, 0, 0.0, false, [])
  }

  /** One assignment through a property setter. */
  datatype Assignment =
    | SetZoom(zoom: real)
    | SetFocusRange(focusRange: real)
    | SetAutoFocusEnabled(autoFocus: bool)
    | SetIsoSpeed(iso: nat)
    | SetAutoExposure(autoExposure: bool)
    | SetExposureTime(exposureTime: real)
    | SetExposureCompensation(compensation: real)
    | SetEncoding(encoding: Option<nat>)
    | SetSceneMode(sceneMode: nat)
    | SetFlashMode(flashMode: FlashMode)
    | SetColorTemperature(preset: nat)
    | SetFocusMode(focusMode: nat)
    | SetHue(hue: real)

  /** The named constant each setter raises. */
  function EventOf(a: Assignment): string {
    match a
    case SetZoom(_) => ZoomEvent
    case SetFocusRange(_) => FocusRangeEvent
    case SetAutoFocusEnabled(_) => AutoFocusEvent
    case SetIsoSpeed(_) => IsoEvent
    case SetAutoExposure(_) => AutoExposureEvent
    case SetExposureTime(_) => ExposureTimeEvent
    case SetExposureCompensation(_) => CompensationEvent
    case SetEncoding(_) => EncodingEvent
    case SetSceneMode(_) => SceneModeEvent
    case SetFlashMode(_) => FlashModeEvent
    case SetColorTemperature(_) => ColorTemperatureEvent
    case SetFocusMode(_) => FocusModeEvent
    case SetHue(_) => HueEvent
  }

  /** Whether the settings hold the value an assignment stores. */
  predicate Holds(s: CameraSettings, a: Assignment) {
    match a
    case SetZoom(v) => s.zoom == v
    case SetFocusRange(v) => s.focusRange == v
    case SetAutoFocusEnabled(v) => s.autoFocusEnabled == v
    case SetIsoSpeed(v) => s.isoSpeed == v
    case SetAutoExposure(v) => s.autoExposure == v
    case SetExposureTime(v) => s.exposureTime == v
    case SetExposureCompensation(v) => s.exposureCompensation == v
    case SetEncoding(v) => s.encoding == v
    case SetSceneMode(v) => s.sceneMode == v
    case SetFlashMode(v) => s.flashMode == v
    case SetColorTemperature(v) => s.colorTemperature == v
    case SetFocusMode(v) => s.focusMode == v
    case SetHue(v) => s.hue == v
  }

  /** The backing-field write of a setter, without its notification. */
  function Store(s: CameraSettings, a: Assignment): CameraSettings {
    match a
    case SetZoom(v) => s.(zoom := v)
    case SetFocusRange(v) => s.(focusRange := v)
    case SetAutoFocusEnabled(v) => s.(autoFocusEnabled := v)
    case SetIsoSpeed(v) => s.(isoSpeed := v)
    case SetAutoExposure(v) => s.(autoExposure := v)
    case SetExposureTime(v) => s.(exposureTime := v)
    case SetExposureCompensation(v) => s.(exposureCompensation := v)
    case SetEncoding(v) => s.(encoding := v)
    case SetSceneMode(v) => s.(sceneMode := v)
    case SetFlashMode(v) => s.(flashMode := v)
    case SetColorTemperature(v) => s.(colorTemperature := v)
    case SetFocusMode(v) => s.(focusMode := v)
    case SetHue(v) => s.(hue := v)
  }

  /** OnPropertyChanged: delivered only when somebody subscribed. */
  function Notify(s: CameraSettings, name: string): (r: CameraSettings)
    ensures r.listening == s.listening
    ensures r.log == if s.listening then s.log + [name] else s.log
    ensures r.(log := s.log) == s
  {
    if s.listening then s.(log := s.log + [name]) else s
  }

  /** A property setter: store the value, then notify its constant, even when
      the value was already held; every other property keeps its value. */
  function Set(s: CameraSettings, a: Assignment): (r: CameraSettings)
    ensures Holds(r, a)
    ensures r.log == if s.listening then s.log + [EventOf(a)] else s.log
    ensures r.listening == s.listening
    ensures forall b :: EventOf(b) != EventOf(a) ==> (Holds(r, b) <==> Holds(s, b))
  {
    Notify(Store(s, a), EventOf(a))
  }

  /** Two assignments in a row: the later one always holds, and the earlier
      one survives unless it was to the same property; each raised its own
      notification. */
  lemma SettersIndependent(s: CameraSettings, a: Assignment, b: Assignment)
    ensures Holds(Set(Set(s, a), b), b)
    ensures EventOf(a) != EventOf(b) ==> Holds(Set(Set(s, a), b), a)
    ensures s.listening ==> Set(Set(s, a), b).log == s.log + [EventOf(a), EventOf(b)]
  {
  }

  /** NextFlashMode: the mode after the last member wraps to the first, any
      other advances by one, and the change goes through the setter. */
  function NextFlashMode(s: CameraSettings): (r: CameraSettings)
    ensures Ordinal(r.flashMode) == (Ordinal(s.flashMode) + 1) % FlashModeCount
    ensures r.log == if s.listening then s.log + [FlashModeEvent] else s.log
    ensures r == Set(s, SetFlashMode(r.flashMode))
  {
    var n := Ordinal(s.flashMode);
    var next := if n >= FlashModeCount - 1 then FromOrdinal(0) else FromOrdinal(n + 1);
    Set(s, SetFlashMode(next))
  }

  /** The cycle is Auto, Off, On, and three presses return to the start with
      three notifications. */
  lemma FlashCycle(s: CameraSettings)
    ensures s.flashMode == Auto ==> NextFlashMode(s).flashMode == Off
    ensures s.flashMode == Off ==> NextFlashMode(s).flashMode == On
    ensures s.flashMode == On ==> NextFlashMode(s).flashMode == Auto
    ensures var t := NextFlashMode(NextFlashMode(NextFlashMode(s)));
            t.flashMode == s.flashMode &&
            t.log == if s.listening then s.log + [FlashModeEvent, FlashModeEvent, FlashModeEvent] else s.log
  {
  }

  // ---------------------------------------------------------------------
  // CopyFrom.

  /** What CopyFrom reads from the capture device. The exposure is a TimeSpan
      of `exposureTicks` 100-nanosecond ticks; `autoExposure` is what
      TryGetAuto puts into its out parameter. */
  datatype DeviceReadings = DeviceReadings(
    encoding: Option<nat>,
    sceneMode: nat,
    colorTemperature: nat,
    isoSpeed: nat,
    exposureSupported: bool,
    autoExposure: bool,
    exposureTicks: nat,
    compensationSupported: bool,
    compensation: real)

  const TicksPerMillisecond: nat := 10000

  /** TimeSpan.Milliseconds: the millisecond component, 0 to 999. */
  function MillisecondsComponent(ticks: nat): (ms: nat)
    ensures ms < 1000
  {
    (ticks / TicksPerMillisecond) % 1000
  }

  /** TimeSpan.TotalMilliseconds: the whole duration in milliseconds. */
  function TotalMilliseconds(ticks: nat): (ms: real)
    ensures ms * TicksPerMillisecond as real == ticks as real
  {
    ticks as real / TicksPerMillisecond as real
  }

  /** How the exposure setting is written back to the device:
      `new TimeSpan(0, 0, 0, 0, (int)ExposureTime)`, truncating to whole
      milliseconds. */
  function WriteBackTicks(exposureTime: real): (ticks: nat)
    requires exposureTime >= 0.0
  {
    exposureTime.Floor * TicksPerMillisecond
  }

  /** The copy with a given reading of the exposure duration: backing fields
      written directly, so nothing is notified. */
  function CopyWith(s: CameraSettings, d: DeviceReadings, exposure: real): (r: CameraSettings)
    ensures r.log == s.log && r.listening == s.listening
    ensures r.encoding == d.encoding && r.sceneMode == d.sceneMode
    ensures r.colorTemperature == d.colorTemperature && r.isoSpeed == d.isoSpeed
    ensures r.autoExposure == if d.exposureSupported then d.autoExposure else s.autoExposure
    ensures r.exposureTime == if d.exposureSupported then exposure else s.exposureTime
    ensures r.exposureCompensation == if d.compensationSupported then d.compensation else s.exposureCompensation
    ensures r.zoom == s.zoom && r.flashMode == s.flashMode && r.focusRange == s.focusRange
    ensures r.autoFocusEnabled == s.autoFocusEnabled && r.focusMode == s.focusMode && r.hue == s.hue
  {
    var fixed := s.(encoding := d.encoding, sceneMode := d.sceneMode,
                    colorTemperature := d.colorTemperature, isoSpeed := d.isoSpeed);
    var exposed := if d.exposureSupported then fixed.(autoExposure := d.autoExposure, exposureTime := exposure) else fixed;
    if d.compensationSupported then exposed.(exposureCompensation := d.compensation) else exposed
  }

  /** CopyFrom: the exposure setting receives the millisecond component of
      the device's exposure rather than its length. */
  function CopyFrom(s: CameraSettings, d: DeviceReadings): (r: CameraSettings)
    ensures r.log == s.log
    ensures d.exposureSupported ==> 0.0 <= r.exposureTime < 1000.0
  {
    CopyWith(s, d, MillisecondsComponent(d.exposureTicks) as real)
  }

  /** CopyFrom as evidently intended: the exposure read as its total length
      in milliseconds, the unit in which the setting is written back. */
  function CopyFromTotalMilliseconds(s: CameraSettings, d: DeviceReadings): (r: CameraSettings)
    ensures r.log == s.log
    ensures d.exposureSupported ==> r.exposureTime == TotalMilliseconds(d.exposureTicks)
  {
    CopyWith(s, d, TotalMilliseconds(d.exposureTicks))
  }

  /** With the corrected copy, reading the exposure and writing it back gives
      the device its own exposure, truncated to whole milliseconds. */
  lemma TotalMillisecondsRoundTrip(s: CameraSettings, d: DeviceReadings)
    requires d.exposureSupported && s.exposureTime >= 0.0
    ensures CopyFromTotalMilliseconds(s, d).exposureTime >= 0.0
    ensures WriteBackTicks(CopyFromTotalMilliseconds(s, d).exposureTime) == d.exposureTicks - d.exposureTicks % TicksPerMillisecond
    ensures d.exposureTicks % TicksPerMillisecond == 0 ==> WriteBackTicks(CopyFromTotalMilliseconds(s, d).exposureTime) == d.exposureTicks
  {
    var t := d.exposureTicks;
    var q := t / TicksPerMillisecond;
    assert t == q * TicksPerMillisecond + t % TicksPerMillisecond;
    var ms := TotalMilliseconds(t);
    assert q as real <= ms < q as real + 1.0;
    assert ms.Floor == q;
  }

  /** CopyFrom reads a one-and-a-half-second exposure (15,000,000 ticks) as
      500 ms, which is written back as half a second; the corrected copy writes
      back the full 1.5 s. */
  lemma CopyFromLosesSeconds(s: CameraSettings, d: DeviceReadings)
    requires d.exposureSupported && d.exposureTicks == 15_000_000
    ensures CopyFrom(s, d).exposureTime == 500.0
    ensures WriteBackTicks(CopyFrom(s, d).exposureTime) == 5_000_000
    ensures WriteBackTicks(CopyFromTotalMilliseconds(s, d).exposureTime) == 15_000_000
  {
    TotalMillisecondsRoundTrip(s.(exposureTime := 0.0), d);
    assert CopyFromTotalMilliseconds(s, d).exposureTime == CopyFromTotalMilliseconds(s.(exposureTime := 0.0), d).exposureTime;
  }
}
