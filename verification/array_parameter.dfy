/** `ArrayParameter`: a parameter whose domain is an ordered list of options,
    one of which may be selected; the selection setter with its
    refresh-suppression rule; the device write of an option; and the
    enumerator over the options. */
module ArrayParameters {
  import opened Common
  import opened Device
  import opened ParameterBase

  const CountEvent: string := "Count"
  const SelectedOptionEvent: string := "SelectedOption"

  /** ArrayParameterOption: the raw value (null for "Auto"), the display name and the
      optional overlay image. */
  datatype Choice = Choice(value: Option<Value>, name: string, overlay: Option<string>)

  /** The ten enumerated parameters of the catalog. */
  datatype ArrayKind =
    | SceneModeArray
    | WhiteBalancePresetArray
    | PreviewResolutionArray
    | CaptureResolutionArray
    | FlashModeArray
    | IsoArray
    | ManualWhiteBalanceArray
    | ExposureTimeArray
    | AutoFocusRangeArray
    | FocusIlluminationArray

  function ArrayName(k: ArrayKind): string {
    match k
    case SceneModeArray => "Scene mode"
    case WhiteBalancePresetArray => "White balance preset"
    case PreviewResolutionArray => "Preview resolution"
    case CaptureResolutionArray => "Capture resolution"
    case FlashModeArray => "Flash mode"
    case IsoArray => "ISO"
    case ManualWhiteBalanceArray => "Manual white balance"
    case ExposureTimeArray => "Exposure time"
    case AutoFocusRangeArray => "Auto focus range"
    case FocusIlluminationArray => "Focus illumination mode"
  }

  /** The kinds whose options carry overlay images, hence overlay-capable parameters. */
  predicate OverlayKind(k: ArrayKind) {
    k.SceneModeArray? || k.WhiteBalancePresetArray? || k.FlashModeArray? || k.IsoArray? || k.ExposureTimeArray?
  }

  /** The kinds whose device write is an asynchronous resolution change. */
  predicate ResolutionKind(k: ArrayKind) {
    k.PreviewResolutionArray? || k.CaptureResolutionArray?
  }

  /** An ArrayParameter object. The selection is the index of the selected
      option object (C# compares options by reference, and each option object
      occurs once in the list); `writes` records every device write of an
      option value, in order. */
  datatype ArrayParam = ArrayParam(
    kind: ArrayKind,
    base: Base,
    options: seq<Choice>,
    selected: Option<nat>,
    refreshing: bool,
    writes: seq<Option<Value>>)

  /** Options fit a kind when none of them carries an image unless the kind is overlay-capable. */
  predicate ChoicesFit(k: ArrayKind, cs: seq<Choice>) {
    forall i :: 0 <= i < |cs| ==> (OverlayKind(k) || cs[i].overlay.None?)
  }

  /** The invariant of every ArrayParameter: the selection indexes an option,
      the overlay flag is the kind's, the overlay rule holds and the options fit. */
  predicate Valid(p: ArrayParam) {
    && (p.selected.Some? ==> p.selected.value < |p.options|)
    && p.base.overlay == OverlayKind(p.kind)
    && OverlayRule(p.base)
    && ChoicesFit(p.kind, p.options)
  }

  /** A constructed ArrayParameter: no options, no selection, both flags true
      (this revision's constructors do not refresh). */
  function NewArray(k: ArrayKind): (p: ArrayParam)
    ensures Valid(p) && p.kind == k && p.base.name == ArrayName(k)
    ensures p.options == [] && p.selected.None? && !p.refreshing && p.writes == []
    ensures p.base.supported && p.base.modifiable && !p.base.listening
  {
    ArrayParam(k, NewBase(ArrayName(k), OverlayKind(k)), [], None, false, [])
  }

  /** The notification raised by the overlay setter itself. */
  function OverlaySetterEvents(b: Base): seq<string> {
    if b.overlay then [ImageSourceEvent] else []
  }

  /** SetOption: the device write of one option. A property write either
      succeeds or throws. A resolution write clears Modifiable, awaits the
      asynchronous change and sets Modifiable again; as the method is
      `async void`, a failed change never reaches the caller and leaves
      Modifiable false. */
  function SetOption(p: ArrayParam, c: Choice, accepts: bool): (r: Outcome<ArrayParam>)
    ensures !ResolutionKind(p.kind) && accepts ==> r == Returned(p.(writes := p.writes + [c.value]))
    ensures !ResolutionKind(p.kind) && !accepts ==> r == Threw(p, DeviceFailure)
    ensures ResolutionKind(p.kind) ==> r.Returned?
    ensures ResolutionKind(p.kind) ==> r.state.base.modifiable == accepts
    ensures ResolutionKind(p.kind) && accepts ==>
              r.state.writes == p.writes + [c.value] && r.state.base.log == Emit(p.base, [ModifiableEvent, ModifiableEvent])
    ensures ResolutionKind(p.kind) && !accepts ==>
              r.state.writes == p.writes && r.state.base.log == Emit(p.base, [ModifiableEvent])
    ensures r.state.(base := p.base, writes := p.writes) == p
    ensures r.state.base.(modifiable := p.base.modifiable, log := p.base.log) == p.base
  {
    if ResolutionKind(p.kind) then
      var cleared := SetModifiable(p.base, false);
      if accepts then Returned(p.(base := SetModifiable(cleared, true), writes := p.writes + [c.value]))
      else Returned(p.(base := cleared))
    else if accepts then Returned(p.(writes := p.writes + [c.value]))
    else Threw(p, DeviceFailure)
  }

  /** Whether a selection change is the first selection of a refresh, whose device write is skipped. */
  predicate FirstRefreshSelection(p: ArrayParam) {
    p.refreshing && p.selected.None?
  }

  /** The part of the setter after the device write: store the option and copy
      its overlay through the overlay setter, which throws on a parameter that
      is not overlay-capable when the option carries an image. */
  function Store(p: ArrayParam, i: nat): (r: Outcome<ArrayParam>)
    requires i < |p.options|
    ensures r.state.selected == Some(i)
    ensures r.state.(selected := p.selected, base := p.base) == p
    ensures r.Returned? <==> p.base.overlay || p.options[i].overlay.None?
    ensures r.Returned? ==> r.state.base == SetImageSource(p.base, p.options[i].overlay).state
    ensures r.Threw? ==> r.error == ArgumentError && r.state.base == p.base
    ensures Valid(p) ==> r.Returned? && Valid(r.state)
  {
    var stored := p.(selected := Some(i));
    var imaged := SetImageSource(stored.base, p.options[i].overlay);
    if imaged.Threw? then Threw(stored.(base := imaged.state), imaged.error)
    else Returned(stored.(base := imaged.state))
  }

  /** The two notifications of a completed selection change. */
  function Announce(p: ArrayParam): (r: ArrayParam)
    ensures r.base.log == Emit(p.base, [SelectedOptionEvent, OverlayEvent])
    ensures r.(base := r.base.(log := p.base.log)) == p
  {
    p.(base := p.base.(log := Emit(p.base, [SelectedOptionEvent, OverlayEvent])))
  }

  /** The `SelectedOption` setter. `None` is the C# `null`, which is ignored, and
      so is re-selecting the selected option. Otherwise the option is written to
      the device (except for the first selection made during a refresh), stored,
      its overlay copied through the overlay setter, and "SelectedOption" then
      "OverlaySource" notified. The notifications are repeated under the same
      guard as the write, but that guard is evaluated after the option has
      been stored, so it never holds and the notifications are always raised. */
  function Select(p: ArrayParam, choice: Option<nat>, accepts: bool): (r: Outcome<ArrayParam>)
    requires choice.Some? ==> choice.value < |p.options|
    ensures choice.None? || p.selected == choice ==> r == Returned(p)
    ensures r.state.kind == p.kind && r.state.options == p.options && r.state.refreshing == p.refreshing
    ensures r.state.base.name == p.base.name && r.state.base.supported == p.base.supported
    ensures r.state.base.listening == p.base.listening && r.state.base.overlay == p.base.overlay
    ensures Valid(p) ==> Valid(r.state)
    ensures r.Returned? ==> r.state.selected == (if choice.Some? then choice else p.selected)
    ensures Valid(p) && !ResolutionKind(p.kind) && r.Threw? ==> r == Threw(p, DeviceFailure)
  {
    if choice.None? || p.selected == choice then Returned(p)
    else
      var written := if FirstRefreshSelection(p) then Returned(p) else SetOption(p, p.options[choice.value], accepts);
      if written.Threw? then written
      else
        var stored := Store(written.state, choice.value);
        if stored.Threw? then stored else Returned(Announce(stored.state))
  }

  /** The first selection made while refreshing: no device write, but the
      selection is stored and notified as any other. */
  lemma SelectDuringRefresh(p: ArrayParam, i: nat, accepts: bool)
    requires Valid(p) && i < |p.options| && FirstRefreshSelection(p)
    ensures var r := Select(p, Some(i), accepts);
            && r.Returned?
            && r.state.selected == Some(i)
            && r.state.writes == p.writes
            && r.state.base.image == SetImageSource(p.base, p.options[i].overlay).state.image
            && r.state.base.modifiable == p.base.modifiable
            && r.state.base.log == Emit(p.base, OverlaySetterEvents(p.base) + [SelectedOptionEvent, OverlayEvent])
  {
  }

  /** Selecting a different option outside that first refresh selection writes
      the option's value to the device exactly once, stores it, copies its
      overlay, and notifies "SelectedOption" then "OverlaySource"; if the device
      rejects the write the parameter is left exactly as it was. */
  lemma SelectWritesThrough(p: ArrayParam, i: nat, accepts: bool)
    requires Valid(p) && i < |p.options| && !FirstRefreshSelection(p) && p.selected != Some(i)
    requires !ResolutionKind(p.kind)
    ensures var r := Select(p, Some(i), accepts);
            && (accepts ==>
                  && r.Returned?
                  && r.state.selected == Some(i)
                  && r.state.writes == p.writes + [p.options[i].value]
                  && r.state.base.image == SetImageSource(p.base, p.options[i].overlay).state.image
                  && r.state.base.modifiable == p.base.modifiable
                  && r.state.base.log == Emit(p.base, OverlaySetterEvents(p.base) + [SelectedOptionEvent, OverlayEvent]))
            && (!accepts ==> r == Threw(p, DeviceFailure))
  {
  }

  /** A resolution selection is bracketed by Modifiable := false and
      Modifiable := true around the device write; a rejected write leaves
      Modifiable false and the selection stored. */
  lemma SelectResolution(p: ArrayParam, i: nat, accepts: bool)
    requires Valid(p) && i < |p.options| && !FirstRefreshSelection(p) && p.selected != Some(i)
    requires ResolutionKind(p.kind)
    ensures var r := Select(p, Some(i), accepts);
            && r.Returned?
            && r.state.selected == Some(i)
            && r.state.base.modifiable == accepts
            && r.state.writes == p.writes + (if accepts then [p.options[i].value] else [])
            && r.state.base.log ==
                 Emit(p.base, (if accepts then [ModifiableEvent, ModifiableEvent] else [ModifiableEvent])
                              + [SelectedOptionEvent, OverlayEvent])
  {
  }

  /** Selecting an option and reading the selection back yields that option,
      and selecting it a second time changes nothing. */
  lemma SelectRoundTrip(p: ArrayParam, i: nat, accepts: bool)
    requires Valid(p) && i < |p.options|
    requires Select(p, Some(i), accepts).Returned?
    ensures Select(p, Some(i), accepts).state.selected == Some(i)
    ensures var q := Select(p, Some(i), accepts).state; Select(q, Some(i), accepts) == Returned(q)
  {
  }

  // ---------------------------------------------------------------------
  // ArrayParameterEnumerator

  /** The enumerator: the option count captured at creation and a cursor that
      starts before the first option. */
  datatype Enumerator = Enumerator(count: nat, index: int)

  function GetEnumerator(p: ArrayParam): (e: Enumerator)
    ensures e.count == |p.options| && e.index == -1
  {
    Enumerator(|p.options|, -1)
  }

  /** MoveNext advances while a further option exists and reports whether it did. */
  function MoveNext(e: Enumerator): (r: (Enumerator, bool))
    ensures r.1 <==> e.index < e.count - 1
    ensures r.1 ==> r.0 == e.(index := e.index + 1)
    ensures !r.1 ==> r.0 == e
  {
    if e.index < e.count - 1 then (e.(index := e.index + 1), true) else (e, false)
  }

  /** Reset rewinds the cursor to before the first option. */
  function Reset(e: Enumerator): (r: Enumerator)
    ensures r.count == e.count && r.index == -1
  {
    e.(index := -1)
  }

  function Current(p: ArrayParam, e: Enumerator): Choice
    requires 0 <= e.index < |p.options|
  {
    p.options[e.index]
  }

  /** A foreach over the parameter: the enumerator yields exactly the options
      in index order, `Count` of them, and then MoveNext answers false. */
  method Enumerate(p: ArrayParam) returns (items: seq<Choice>, last: Enumerator)
    ensures items == p.options
    ensures !MoveNext(last).1
    ensures last.index == |p.options| - 1 || (|p.options| == 0 && last.index == -1)
  {
    var e := GetEnumerator(p);
    items := [];
    var step := MoveNext(e);
    while step.1
      invariant step.0.count == |p.options|
      invariant -1 <= e.index < |p.options|
      invariant |items| == e.index + 1
      invariant items == p.options[..e.index + 1]
      invariant step == MoveNext(e)
      decreases |p.options| - e.index
    {
      e := step.0;
      items := items + [Current(p, e)];
      step := MoveNext(e);
    }
    last := e;
    assert items == p.options;
  }

  /** After Reset, enumeration starts again from the first option. */
  lemma ResetRewinds(e: Enumerator)
    requires e.count > 0
    ensures MoveNext(Reset(e)).1 && MoveNext(Reset(e)).0.index == 0
  {
  }
}
