/** `Settings`: the registry of camera parameters that the settings page
    lists. Refresh throws the old collection away and builds the twelve
    parameters of the catalog in a fixed order. */
module Registry {
  import opened Common
  import opened Device
  import opened ParameterBase
  import opened RangeParameters
  import opened ArrayParameters

  const ParametersEvent: string := "Parameters"

  /** A parameter of either family, as the collection holds them. */
  datatype Param = ArrayP(asArray: ArrayParam) | RangeP(asRange: RangeParam)

  function BaseOf(p: Param): Base {
    match p
    case ArrayP(a) => a.base
    case RangeP(r) => r.base
  }

  /** The invariant of each family. */
  predicate ParamValid(p: Param) {
    match p
    case ArrayP(a) => Valid(a)
    case RangeP(r) => Typed(r)
  }

  /** The registry: the parameter collection, whether `PropertyChanged` has a
      subscriber, and the notifications delivered so far. */
  datatype Settings = Settings(parameters: seq<Param>, listening: bool, log: seq<string>)

  /** Raising `PropertyChanged` without a null check: with no subscriber the
      event is `null` and the call throws NullReferenceException. */
  function Raise(s: Settings, name: string): (r: Outcome<Settings>)
    ensures s.listening ==> r == Returned(s.(log := s.log + [name]))
    ensures !s.listening ==> r == Threw(s, NullReference)
  {
    if s.listening then Returned(s.(log := s.log + [name])) else Threw(s, NullReference)
  }

  /** The `Parameters` setter: replace the collection, then notify once. */
  function SetParameters(s: Settings, ps: seq<Param>): (r: Outcome<Settings>)
    ensures r.state.parameters == ps && r.state.listening == s.listening
    ensures r.Returned? <==> s.listening
    ensures r.Returned? ==> r.state.log == s.log + [ParametersEvent]
    ensures r.Threw? ==> r.state.log == s.log && r.error == NullReference
  {
    Raise(s.(parameters := ps), ParametersEvent)
  }

  /** The catalog, in the order Refresh adds it. The array parameters are
      constructed without a refresh; the two range parameters refresh in their
      constructors against the camera. */
  function Catalog(c: Camera): (ps: seq<Param>)
    ensures |ps| == 12
    ensures forall i :: 0 <= i < |ps| ==> ParamValid(ps[i])
  {
    [ ArrayP(NewArray(SceneModeArray)),
      ArrayP(NewArray(WhiteBalancePresetArray)),
      ArrayP(NewArray(PreviewResolutionArray)),
      ArrayP(NewArray(CaptureResolutionArray)),
      ArrayP(NewArray(FlashModeArray)),
      RangeP(NewRange(FlashPowerRange, c.flashPower)),
      ArrayP(NewArray(IsoArray)),
      RangeP(NewRange(ExposureCompensationRange, c.exposureCompensation)),
      ArrayP(NewArray(ManualWhiteBalanceArray)),
      ArrayP(NewArray(ExposureTimeArray)),
      ArrayP(NewArray(AutoFocusRangeArray)),
      ArrayP(NewArray(FocusIlluminationArray)) ]
  }

  /** The display names of the catalog, in order. */
  const CatalogNames: seq<string> := [
    ArrayName(SceneModeArray), ArrayName(WhiteBalancePresetArray),
    ArrayName(PreviewResolutionArray), ArrayName(CaptureResolutionArray),
    ArrayName(FlashModeArray), RangeName(FlashPowerRange),
    ArrayName(IsoArray), RangeName(ExposureCompensationRange),
    ArrayName(ManualWhiteBalanceArray), ArrayName(ExposureTimeArray),
    ArrayName(AutoFocusRangeArray), ArrayName(FocusIlluminationArray)]

  /** Settings.Refresh: clear the collection, add the catalog when a device is
      open (every parameter is kept, supported or not), then notify
      "Parameters" once; with no subscriber that notification throws after the
      collection has been rebuilt. */
  function Refresh(s: Settings, device: Option<Camera>): (r: Outcome<Settings>)
    ensures device.None? ==> r.state.parameters == []
    ensures device.Some? ==> r.state.parameters == Catalog(device.value)
    ensures r.state.listening == s.listening
    ensures r.Returned? <==> s.listening
    ensures r.Returned? ==> r.state.log == s.log + [ParametersEvent]
    ensures r.Threw? ==> r.state.log == s.log && r.error == NullReference
  {
    var cleared := s.(parameters := []);
    var filled := if device.Some? then cleared.(parameters := cleared.parameters + Catalog(device.value)) else cleared;
    Raise(filled, ParametersEvent)
  }

  /** The catalog carries the display names in the catalog order. */
  lemma CatalogOrder(c: Camera)
    ensures var ps := Catalog(c);
            |ps| == |CatalogNames| && forall i :: 0 <= i < |ps| ==> BaseOf(ps[i]).name == CatalogNames[i]
  {
    var ps := Catalog(c);
    assert BaseOf(ps[5]).name == CatalogNames[5];
    assert BaseOf(ps[7]).name == CatalogNames[7];
  }

  /** The array parameters of the catalog are not yet populated: no options,
      and both flags still at their constructor value true. */
  lemma CatalogArraysUnpopulated(c: Camera)
    ensures var ps := Catalog(c);
            forall i :: 0 <= i < |ps| && ps[i].ArrayP? ==>
              ps[i].asArray.options == [] && BaseOf(ps[i]).supported && BaseOf(ps[i]).modifiable
  {
  }

  /** The two range parameters sit at positions 5 and 7 and are supported
      exactly when their device property can be read. */
  lemma CatalogRangesRefreshed(c: Camera)
    ensures var ps := Catalog(c);
            && ps[5].RangeP? && ps[7].RangeP?
            && (BaseOf(ps[5]).supported <==> Readable(FlashPowerRange, c.flashPower))
            && (BaseOf(ps[7]).supported <==> Readable(ExposureCompensationRange, c.exposureCompensation))
  {
  }

  /** With a device the collection holds exactly the twelve catalog entries,
      named in the catalog order, all valid; the array parameters are not yet
      populated and count as supported and modifiable, and a range parameter is
      supported exactly when its device property can be read. */
  lemma RefreshBuildsCatalog(s: Settings, c: Camera)
    ensures var ps := Refresh(s, Some(c)).state.parameters;
            && |ps| == |CatalogNames|
            && (forall i :: 0 <= i < |ps| ==> BaseOf(ps[i]).name == CatalogNames[i] && ParamValid(ps[i]))
            && (forall i :: 0 <= i < |ps| && ps[i].ArrayP? ==>
                  ps[i].asArray.options == [] && BaseOf(ps[i]).supported && BaseOf(ps[i]).modifiable)
            && ps[5].RangeP? && ps[7].RangeP?
            && (BaseOf(ps[5]).supported <==> Readable(FlashPowerRange, c.flashPower))
            && (BaseOf(ps[7]).supported <==> Readable(ExposureCompensationRange, c.exposureCompensation))
  {
    CatalogOrder(c);
    CatalogArraysUnpopulated(c);
    CatalogRangesRefreshed(c);
  }

  /** Refresh forgets the previous collection: two registries that differ only
      in their parameters end up identical. */
  lemma RefreshForgetsPrevious(s: Settings, t: Settings, device: Option<Camera>)
    requires s.listening == t.listening && s.log == t.log
    ensures Refresh(s, device) == Refresh(t, device)
  {
  }
}
