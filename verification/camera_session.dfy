/** `CameraSession` of the universal app, reduced to its sequential logic: the
    session state machine and its StateChanged events, the stored device id
    and the cyclic switch to the next camera, and the mapping of the app's
    flash mode onto the device's flash control. */
module Session {
  import opened Common
  import CameraSettingsModel

  datatype SessionState = Init | Preview | Capture | Closed

  /** The session: its state, the states carried by the StateChanged events
      raised so far (the constructor subscribes a handler, so the event is
      never null), the stored device id, the camera ids found on the first
      open, the id the open capture device reports, and whether a capture
      device exists. */
  datatype Session = Session(
    state: SessionState,
    events: seq<SessionState>,
    deviceId: Option<string>,
    cameras: seq<string>,
    activeId: string,
    capturing: bool)

  function NewSession(): (s: Session)
    ensures s.events == [] && s.deviceId.None? && s.capturing
  {
    Session(Init, [], None, [], "", true)
  }

  /** SetState: record the state and raise StateChanged carrying it. */
  function SetState(s: Session, st: SessionState): (r: Session)
    ensures r.state == st && r.events == s.events + [st]
    ensures r.(state := s.state, events := s.events) == s
  {
    s.(state := st, events := s.events + [st])
  }

  /** Open: Init, initialise the capture device with the stored id if any
      (otherwise the platform picks `defaultId`), remember the id and the
      camera list on the first open, then Preview. */
  function Open(s: Session, defaultId: string, found: seq<string>): (r: Session)
    ensures r.events == s.events + [Init, Preview] && r.state == Preview
    ensures r.capturing
    ensures s.deviceId.Some? ==> r.deviceId == s.deviceId && r.activeId == s.deviceId.value && r.cameras == s.cameras
    ensures s.deviceId.None? ==> r.deviceId == Some(defaultId) && r.activeId == defaultId && r.cameras == found
  {
    var started := SetState(s, Init);
    var initialised := started.(capturing := true, activeId := if s.deviceId.Some? then s.deviceId.value else defaultId);
    var remembered := if s.deviceId.None? then initialised.(cameras := found, deviceId := Some(initialised.activeId)) else initialised;
    SetState(remembered, Preview)
  }

  /** Close: dispose of the capture device and end in Closed. */
  function Close(s: Session): (r: Session)
    ensures r.events == s.events + [Closed] && r.state == Closed && !r.capturing
    ensures r.deviceId == s.deviceId && r.cameras == s.cameras
  {
    SetState(s.(capturing := false), Closed)
  }

  /** Capture: Capture while the photo is taken, then back to Preview. After
      Close there is no capture device: the capture call throws
      NullReferenceException with the state left at Capture. */
  function TakePhoto(s: Session): (r: Outcome<Session>)
    ensures r.Returned? <==> s.capturing
    ensures r.Returned? ==> r.state.events == s.events + [Capture, Preview] && r.state.state == Preview
    ensures r.Threw? ==> r.error == NullReference && r.state.events == s.events + [Capture] && r.state.state == Capture
    ensures r.state.deviceId == s.deviceId && r.state.cameras == s.cameras && r.state.activeId == s.activeId
    ensures r.state.capturing == s.capturing
  {
    var capturing := SetState(s, Capture);
    if s.capturing then Returned(SetState(capturing, Preview)) else Threw(capturing, NullReference)
  }

  /** The first open stores the default id; a later open, after any close,
      reuses it whatever the platform default has become. */
  lemma ReopenKeepsDevice(s: Session, d1: string, f1: seq<string>, d2: string, f2: seq<string>)
    requires s.deviceId.None?
    ensures var r := Open(Close(Open(s, d1, f1)), d2, f2);
            r.deviceId == Some(d1) && r.activeId == d1 && r.cameras == f1
            && r.events == s.events + [Init, Preview, Closed, Init, Preview]
  {
  }

  // ---------------------------------------------------------------------
  // Switching cameras.

  /** Whether two device ids agree under ToLower. */
  predicate SameId(a: string, b: string) {
    ToLower(a) == ToLower(b)
  }

  /** The last camera whose id matches `active`. */
  function LastMatching(cameras: seq<string>, active: string): (r: Option<nat>)
    ensures r.Some? ==> r.value < |cameras| && SameId(cameras[r.value], active)
    ensures r.Some? ==> forall j :: r.value < j < |cameras| ==> !SameId(cameras[j], active)
    ensures r.None? ==> forall j :: 0 <= j < |cameras| ==> !SameId(cameras[j], active)
    decreases |cameras|
  {
    if |cameras| == 0 then None
    else if SameId(cameras[|cameras| - 1], active) then Some(|cameras| - 1)
    else LastMatching(cameras[..|cameras| - 1], active)
  }

  /** The id chosen after the camera at position `i`: the next one, or the
      first after the last (`i - Count + 1` is 0 there). */
  function Successor(cameras: seq<string>, i: nat): (id: string)
    requires i < |cameras|
    ensures id == cameras[(i + 1) % |cameras|]
  {
    if i + 1 >= |cameras| then cameras[i - |cameras| + 1] else cameras[i + 1]
  }

  /** The loop of NextDevice: every matching position overwrites the stored
      id with its successor, so the last match decides; with no match the
      stored id stays. */
  method NextDeviceId(cameras: seq<string>, active: string, stored: Option<string>) returns (id: Option<string>)
    ensures LastMatching(cameras, active).Some? ==>
              id == Some(cameras[(LastMatching(cameras, active).value + 1) % |cameras|])
    ensures LastMatching(cameras, active).None? ==> id == stored
  {
    id := stored;
    var i := 0;
    while i < |cameras|
      invariant 0 <= i <= |cameras|
      invariant LastMatching(cameras[..i], active).Some? ==>
                  id == Some(Successor(cameras, LastMatching(cameras[..i], active).value))
      invariant LastMatching(cameras[..i], active).None? ==> id == stored
    {
      assert cameras[..i + 1][..i] == cameras[..i];
      if ToLower(cameras[i]) == ToLower(active) {
        id := Some(Successor(cameras, i));
      }
      i := i + 1;
    }
    assert cameras[..i] == cameras;
  }

  /** With case-distinct ids, the camera after position i < Count - 1 is
      Cameras[i + 1], and after the last one it is Cameras[0]. */
  lemma NextDeviceCycles(cameras: seq<string>, i: nat)
    requires i < |cameras|
    requires forall j :: 0 <= j < |cameras| && j != i ==> !SameId(cameras[j], cameras[i])
    ensures LastMatching(cameras, cameras[i]) == Some(i)
    ensures i + 1 < |cameras| ==> Successor(cameras, i) == cameras[i + 1]
    ensures i + 1 == |cameras| ==> Successor(cameras, i) == cameras[0]
  {
  }

  /** NextDevice: pick the next id, close, and open again with it. Before the
      first Open the camera list is `null`, and after Close the loop reads the
      id of a capture device that no longer exists; both throw
      NullReferenceException before anything changes. */
  method NextDevice(s: Session, defaultId: string, found: seq<string>) returns (r: Outcome<Session>)
    ensures s.deviceId.None? ==> r == Threw(s, NullReference)
    ensures s.deviceId.Some? && !s.capturing && |s.cameras| > 0 ==> r == Threw(s, NullReference)
    ensures r.Returned? <==> s.deviceId.Some? && (s.capturing || |s.cameras| == 0)
    ensures r.Returned? ==> r.state.events == s.events + [Closed, Init, Preview] && r.state.state == Preview
    ensures r.Returned? ==> r.state.cameras == s.cameras && r.state.capturing
    ensures r.Returned? && LastMatching(s.cameras, s.activeId).Some? ==>
              r.state.activeId == s.cameras[(LastMatching(s.cameras, s.activeId).value + 1) % |s.cameras|]
    ensures r.Returned? && LastMatching(s.cameras, s.activeId).None? ==>
              r.state.deviceId == s.deviceId && r.state.activeId == s.deviceId.value
  {
    if s.deviceId.None? || (!s.capturing && |s.cameras| > 0) {
      return Threw(s, NullReference);
    }
    var next := NextDeviceId(s.cameras, s.activeId, s.deviceId);
    r := Returned(Open(Close(s.(deviceId := next)), defaultId, found));
  }

  // ---------------------------------------------------------------------
  // Flash.

  /** The device's FlashControl: automatic flash, and flash enabled. */
  datatype FlashControl = FlashControl(auto: bool, enabled: bool)

  /** Settings_OnFlashModeChange. Auto only switches automatic flash on and
      leaves Enabled as it was. */
  function ApplyFlashMode(c: FlashControl, m: CameraSettingsModel.FlashMode): (r: FlashControl)
    ensures r.auto <==> m == CameraSettingsModel.Auto
    ensures m == CameraSettingsModel.Auto ==> r.enabled == c.enabled
    ensures m == CameraSettingsModel.Off ==> !r.enabled
    ensures m == CameraSettingsModel.On ==> r.enabled
  {
    match m
    case Auto => c.(auto := true)
    case Off => FlashControl(false, false)
    case On => FlashControl(false, true)
  }

  /** The flash mode a control state stands for. */
  function ModeOf(c: FlashControl): CameraSettingsModel.FlashMode {
    if c.auto then CameraSettingsModel.Auto
    else if c.enabled then CameraSettingsModel.On
    else CameraSettingsModel.Off
  }

  /** Whatever state the control was in, it ends up standing for the mode applied. */
  lemma ApplyFlashModeRoundTrip(c: FlashControl, m: CameraSettingsModel.FlashMode)
    ensures ModeOf(ApplyFlashMode(c, m)) == m
  {
  }

  /** The flash button: NextFlashMode raises "FlashMode", whose handler
      applies the new mode, so the device control follows the settings cycle. */
  lemma FlashButtonDrivesDevice(s: CameraSettingsModel.CameraSettings, c: FlashControl)
    requires s.listening
    ensures var t := CameraSettingsModel.NextFlashMode(s);
            t.log[|t.log| - 1] == CameraSettingsModel.FlashModeEvent
            && ModeOf(ApplyFlashMode(c, t.flashMode)) == t.flashMode
            && (s.flashMode == CameraSettingsModel.Auto ==> ApplyFlashMode(c, t.flashMode) == FlashControl(false, false))
            && (s.flashMode == CameraSettingsModel.Off ==> ApplyFlashMode(c, t.flashMode) == FlashControl(false, true))
            && (s.flashMode == CameraSettingsModel.On ==> ApplyFlashMode(c, t.flashMode).auto)
  {
    CameraSettingsModel.FlashCycle(s);
  }
}
