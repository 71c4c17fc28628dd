/** The ten concrete ArrayParameter subclasses: how each populates its options
    from the device (enumerated device values, or a curated ladder filtered to
    the hardware range), the shared Refresh that drives the population, and
    each subclass's default rule. */
module ArrayCatalog {
  import opened Common
  import opened Device
  import opened ParameterBase
  import opened ArrayParameters

  // ---------------------------------------------------------------------
  // Options

  /** The device oracle behind each kind, viewed through the `Value` union. */
  function OracleOf(c: Camera, k: ArrayKind): Oracle<Value> {
    match k
    case SceneModeArray => Lift(c.sceneMode, (m: SceneMode) => Scene(m))
    case WhiteBalancePresetArray => Lift(c.whiteBalancePreset, (m: WhiteBalancePreset) => Preset(m))
    case PreviewResolutionArray => Lift(c.previewResolution, (s: Size) => Resolution(s))
    case CaptureResolutionArray => Lift(c.captureResolution, (s: Size) => Resolution(s))
    case FlashModeArray => Lift(c.flashMode, (m: FlashMode) => Flash(m))
    case IsoArray => Lift(c.iso, (n: int) => Number(n))
    case ManualWhiteBalanceArray => Lift(c.manualWhiteBalance, (n: int) => Number(n))
    case ExposureTimeArray => Lift(c.exposureTime, (n: int) => Number(n))
    case AutoFocusRangeArray => Lift(c.autoFocusRange, (m: AutoFocusRange) => FocusRange(m))
    case FocusIlluminationArray => Lift(c.focusIllumination, (m: FocusIlluminationMode) => Illumination(m))
  }

  /** The device value an option is compared against; a `null` current value matches nothing. */
  function Target(q: Query<Value>): Option<Value> {
    if q.Reported? then Some(q.value) else None
  }

  /** `option.Value.Equals(current)`: only a non-null current value can match. */
  predicate Matches(c: Choice, target: Option<Value>) {
    target.Some? && c.value == target
  }

  /** The image file of an enumerated value, for the kinds whose values have one. */
  function ImageOf(k: ArrayKind, v: Value): (r: Option<string>)
    ensures r.Some? ==> OverlayKind(k)
  {
    match k
    case SceneModeArray => Some("Assets/Icons/overlay.scenemode." + ToLower(ValueName(v)) + ".png")
    case FlashModeArray => Some("Assets/Icons/overlay.flashmode." + ToLower(ValueName(v)) + ".png")
    case WhiteBalancePresetArray => Some("Assets/Icons/overlay.whitebalancepreset." + ToLower(ValueName(v)) + ".png")
    case _ => None
  }

  /** The option built for one enumerated device value: the value, its name, its image. */
  function Describe(k: ArrayKind, v: Value): (c: Choice)
    ensures c.value == Some(v) && c.name == ValueName(v)
    ensures OverlayKind(k) || c.overlay.None?
  {
    Choice(Some(v), ValueName(v), ImageOf(k, v))
  }

  function DescribeAll(k: ArrayKind, vs: seq<Value>): (cs: seq<Choice>)
    ensures |cs| == |vs|
    ensures forall i :: 0 <= i < |vs| ==> cs[i] == Describe(k, vs[i])
    ensures ChoicesFit(k, cs)
  {
    seq(|vs|, i requires 0 <= i < |vs| => Describe(k, vs[i]))
  }

  /** The "Auto" option (value `null`) that leads the ladder kinds and the preset list. */
  function AutoChoice(k: ArrayKind): (c: Choice)
    ensures c.value.None? && c.name == "Auto"
    ensures OverlayKind(k) || c.overlay.None?
  {
    match k
    case IsoArray => Choice(None, "Auto", Some("Assets/Icons/overlay.iso.auto.png"))
    case ExposureTimeArray => Choice(None, "Auto", Some("Assets/Icons/overlay.exposuretime.auto.png"))
    case _ => Choice(None, "Auto", None)
  }

  /** The index of the last option matching the target, if any. */
  function LastMatch(cs: seq<Choice>, target: Option<Value>): (r: Option<nat>)
    ensures r.Some? ==> r.value < |cs| && Matches(cs[r.value], target)
    decreases |cs|
  {
    if |cs| == 0 then None
    else if Matches(cs[|cs| - 1], target) then Some(|cs| - 1)
    else LastMatch(cs[..|cs| - 1], target)
  }

  /** No option after the last match matches, and there is no last match only
      when no option matches at all. */
  lemma {:induction false} LastMatchIsLast(cs: seq<Choice>, target: Option<Value>)
    ensures var r := LastMatch(cs, target);
            && (r.Some? ==> forall j :: r.value < j < |cs| ==> !Matches(cs[j], target))
            && (r.None? <==> forall j :: 0 <= j < |cs| ==> !Matches(cs[j], target))
    decreases |cs|
  {
    if |cs| > 0 && !Matches(cs[|cs| - 1], target) {
      var front := cs[..|cs| - 1];
      LastMatchIsLast(front, target);
      assert forall j :: 0 <= j < |front| ==> front[j] == cs[j];
    }
  }

  /** The selection after a scan that may move it: a match at offset `m` in the
      scanned part wins, otherwise the earlier selection stays. */
  function Shift(before: Option<nat>, offset: nat, m: Option<nat>): Option<nat> {
    if m.Some? then Some(offset + m.value) else before
  }

  // ---------------------------------------------------------------------
  // Enumerated kinds: scene, flash, focus illumination, focus range, resolutions

  /** One iteration of the `foreach` of the enumerated kinds: the option of a
      device value is appended and, when the value equals the current value,
      assigned to `SelectedOption` at once through the setter. */
  function AddOne(p: ArrayParam, c: Choice, target: Option<Value>, accepts: bool): (r: Outcome<ArrayParam>)
    requires Valid(p) && (OverlayKind(p.kind) || c.overlay.None?)
    ensures r.state.kind == p.kind && r.state.refreshing == p.refreshing
    ensures r.state.base.name == p.base.name && r.state.base.supported == p.base.supported
    ensures Valid(r.state)
    ensures r.Returned? ==> r.state.options == p.options + [c]
    ensures r.Returned? ==> r.state.selected == (if Matches(c, target) then Some(|p.options|) else p.selected)
  {
    var q := p.(options := p.options + [c]);
    assert ChoicesFit(q.kind, q.options) by {
      assert forall i :: 0 <= i < |p.options| ==> q.options[i] == p.options[i];
    }
    if Matches(c, target) then Select(q, Some(|p.options|), accepts) else Returned(q)
  }

  /** The whole `foreach`: the first selection made during a refresh
      skips the device write; a later one (a repeated value) is a real selection change with a
      device write, which may throw. When it completes, the options are the
      given ones in device order and the selection is the last match. */
  function AddAll(p: ArrayParam, cs: seq<Choice>, target: Option<Value>, accepts: bool): (r: Outcome<ArrayParam>)
    requires Valid(p) && ChoicesFit(p.kind, cs)
    ensures r.state.kind == p.kind && r.state.refreshing == p.refreshing
    ensures r.state.base.name == p.base.name && r.state.base.supported == p.base.supported
    ensures Valid(r.state)
    ensures r.Returned? ==> r.state.options == p.options + cs
    ensures r.Returned? ==> r.state.selected == Shift(p.selected, |p.options|, LastMatch(cs, target))
    decreases |cs|
  {
    if |cs| == 0 then Returned(p)
    else
      var s := AddOne(p, cs[0], target, accepts);
      if s.Threw? then s
      else
        AddOneThenRest(p.options, p.selected, cs, target);
        AddAll(s.state, cs[1..], target, accepts)
  }

  /** Adding the head and then the tail yields the options and the selection
      of adding the whole list. */
  lemma AddOneThenRest(options: seq<Choice>, selected: Option<nat>, cs: seq<Choice>, target: Option<Value>)
    requires |cs| > 0
    ensures (options + [cs[0]]) + cs[1..] == options + cs
    ensures Shift(if Matches(cs[0], target) then Some(|options|) else selected, |options| + 1, LastMatch(cs[1..], target))
            == Shift(selected, |options|, LastMatch(cs, target))
  {
    var head, tail := cs[0], cs[1..];
    assert cs == [head] + tail;
    var first := if Matches(head, target) then Some(0) else None;
    var later := LastMatch(tail, target);
    LastMatchCons(head, tail, target);
    assert LastMatch(cs, target) == Shift(first, 1, later);
    assert Shift(selected, |options|, first) == if Matches(head, target) then Some(|options|) else selected;
    ShiftAssociates(selected, |options|, first, later);
  }

  /** Scanning a head and then a tail moves the selection as scanning both at once does. */
  lemma ShiftAssociates(before: Option<nat>, offset: nat, first: Option<nat>, later: Option<nat>)
    requires first.Some? ==> first.value == 0
    ensures Shift(Shift(before, offset, first), offset + 1, later) == Shift(before, offset, Shift(first, 1, later))
  {
  }

  /** How the last match of a list splits over its head and its tail. */
  lemma LastMatchCons(c: Choice, cs: seq<Choice>, target: Option<Value>)
    ensures LastMatch([c] + cs, target) ==
            Shift(if Matches(c, target) then Some(0) else None, 1, LastMatch(cs, target))
  {
    var all := [c] + cs;
    var m := LastMatch(cs, target);
    var r := LastMatch(all, target);
    LastMatchIsLast(cs, target);
    LastMatchIsLast(all, target);
    if m.Some? {
      assert all[1 + m.value] == cs[m.value];
    } else {
      assert forall j :: 1 <= j < |all| ==> all[j] == cs[j - 1];
      if Matches(c, target) {
        assert all[0] == c;
      }
    }
  }

  /** At most one option matches the current value. */
  predicate AtMostOneMatch(cs: seq<Choice>, target: Option<Value>) {
    forall i, j :: 0 <= i < j < |cs| && Matches(cs[i], target) ==> !Matches(cs[j], target)
  }

  /** When the current value occurs at most once, the enumerated population
      cannot fail and never writes to the device: the only selection it makes is
      the first one of the refresh, whose write is skipped. */
  lemma {:induction false} AddAllWritesNothing(p: ArrayParam, cs: seq<Choice>, target: Option<Value>, accepts: bool)
    requires Valid(p) && ChoicesFit(p.kind, cs) && p.refreshing && AtMostOneMatch(cs, target)
    requires p.selected.Some? ==> forall j :: 0 <= j < |cs| ==> !Matches(cs[j], target)
    ensures AddAll(p, cs, target, accepts).Returned?
    ensures AddAll(p, cs, target, accepts).state.writes == p.writes
    decreases |cs|
  {
    if |cs| > 0 {
      var q := p.(options := p.options + [cs[0]]);
      var s := AddOne(p, cs[0], target, accepts);
      if Matches(cs[0], target) {
        SelectDuringRefresh(q, |p.options|, accepts);
        assert forall j :: 0 <= j < |cs[1..]| ==> !Matches(cs[1..][j], target) by {
          forall j | 0 <= j < |cs[1..]| ensures !Matches(cs[1..][j], target) {
            assert cs[1..][j] == cs[j + 1];
          }
        }
      }
      AddAllWritesNothing(s.state, cs[1..], target, accepts);
    }
  }

  /** PopulateOptions of the enumerated kinds: read the supported values, then
      the current value, then add every value. A failing query throws; a `null`
      list throws NullReferenceException in the `foreach`. */
  function PopulateEnumerated(p: ArrayParam, o: Oracle<Value>): (r: Outcome<ArrayParam>)
    requires Valid(p)
    ensures r.state.kind == p.kind && r.state.refreshing == p.refreshing
    ensures Valid(r.state)
    ensures r.Returned? ==> o.values.Reported? && !o.current.Fails?
    ensures r.Returned? ==> r.state.options == p.options + DescribeAll(p.kind, o.values.value)
  {
    match o.values
    case Fails => Threw(p, DeviceFailure)
    case Absent => if o.current.Fails? then Threw(p, DeviceFailure) else Threw(p, NullReference)
    case Reported(vs) =>
      if o.current.Fails? then Threw(p, DeviceFailure)
      else AddAll(p, DescribeAll(p.kind, vs), Target(o.current), o.accepts)
  }

  // ---------------------------------------------------------------------
  // Ladder kinds: ISO, manual white balance, exposure time

  const IsoSteps: seq<nat> := [100, 200, 400, 800, 1600, 3200]
  const KelvinSteps: seq<nat> := [2700, 3000, 5200, 5400, 6000, 6500, 7200, 8000]
  /** Shutter denominators: the option for `d` is an exposure of 1/d s. */
  const ShutterDenominators: seq<nat> := [2000, 1000, 500, 250, 125, 60, 30, 15, 8, 4, 2, 1]

  predicate LadderKind(k: ArrayKind) {
    k == IsoArray || k == ManualWhiteBalanceArray || k == ExposureTimeArray
  }

  function Steps(k: ArrayKind): (steps: seq<nat>)
    requires LadderKind(k)
    ensures PositiveSteps(steps)
  {
    match k
    case IsoArray => IsoSteps
    case ManualWhiteBalanceArray => KelvinSteps
    case ExposureTimeArray => ShutterDenominators
  }

  /** The device value of a ladder step: the step itself, or for exposure time
      the duration `1000000 / d` in microseconds (UInt32 division). */
  function Raw(k: ArrayKind, step: nat): nat
    requires step > 0
  {
    if k == ExposureTimeArray then 1000000 / step else step
  }

  /** The option of one ladder step. */
  function Rung(k: ArrayKind, step: nat): (c: Choice)
    requires step > 0
    ensures c.value == Some(Number(Raw(k, step)))
    ensures OverlayKind(k) || c.overlay.None?
  {
    var text := NatToString(step);
    match k
    case IsoArray => Choice(Some(Number(step)), "ISO " + text, Some("Assets/Icons/overlay.iso." + text + ".png"))
    case ExposureTimeArray =>
      Choice(Some(Number(1000000 / step)), "1 / " + text + " s", Some("Assets/Icons/overlay.exposuretime." + text + ".png"))
    case _ => Choice(Some(Number(step)), text + " K", None)
  }

  predicate PositiveSteps(steps: seq<nat>) {
    forall i :: 0 <= i < |steps| ==> steps[i] > 0
  }

  /** The steps whose device value lies in [lo, hi], in ladder order (the
      `if (i >= min && i <= max)` of the loop). */
  function Kept(k: ArrayKind, steps: seq<nat>, lo: int, hi: int): (kept: seq<nat>)
    requires PositiveSteps(steps)
    ensures |kept| <= |steps| && PositiveSteps(kept)
    decreases |steps|
  {
    if |steps| == 0 then []
    else if lo <= Raw(k, steps[0]) <= hi then [steps[0]] + Kept(k, steps[1..], lo, hi)
    else Kept(k, steps[1..], lo, hi)
  }

  /** A step is kept exactly when it is on the ladder and its device value lies
      in the hardware range. */
  lemma {:induction false} KeptMembers(k: ArrayKind, steps: seq<nat>, lo: int, hi: int, x: nat)
    requires PositiveSteps(steps) && x > 0
    ensures x in Kept(k, steps, lo, hi) <==> x in steps && lo <= Raw(k, x) <= hi
    decreases |steps|
  {
    if |steps| > 0 {
      KeptMembers(k, steps[1..], lo, hi, x);
      assert steps == [steps[0]] + steps[1..];
    }
  }

  predicate RawAscending(k: ArrayKind, steps: seq<nat>)
    requires PositiveSteps(steps)
  {
    forall i, j :: 0 <= i < j < |steps| ==> Raw(k, steps[i]) < Raw(k, steps[j])
  }

  /** Filtering keeps the ladder's order, and every kept step is in range. */
  lemma {:induction false} KeptAscending(k: ArrayKind, steps: seq<nat>, lo: int, hi: int)
    requires PositiveSteps(steps) && RawAscending(k, steps)
    ensures RawAscending(k, Kept(k, steps, lo, hi))
    ensures forall x :: x in Kept(k, steps, lo, hi) ==> lo <= Raw(k, x) <= hi
    decreases |steps|
  {
    if |steps| > 0 {
      var tail := steps[1..];
      assert forall i :: 0 <= i < |tail| ==> tail[i] == steps[i + 1];
      KeptAscending(k, tail, lo, hi);
      forall x | x in Kept(k, tail, lo, hi) ensures Raw(k, steps[0]) < Raw(k, x) && lo <= Raw(k, x) <= hi {
        KeptMembers(k, tail, lo, hi, x);
        var i :| 0 <= i < |tail| && tail[i] == x;
      }
    }
  }

  /** A ladder whose consecutive steps rise in device value rises throughout. */
  lemma {:induction false} AdjacentAscending(k: ArrayKind, steps: seq<nat>)
    requires PositiveSteps(steps)
    requires forall i :: 0 <= i < |steps| - 1 ==> Raw(k, steps[i]) < Raw(k, steps[i + 1])
    ensures RawAscending(k, steps)
    decreases |steps|
  {
    if |steps| > 1 {
      var tail := steps[1..];
      assert forall i :: 0 <= i < |tail| ==> tail[i] == steps[i + 1];
      AdjacentAscending(k, tail);
      forall i, j | 0 <= i < j < |steps| ensures Raw(k, steps[i]) < Raw(k, steps[j]) {
        if i > 0 {
          assert steps[i] == tail[i - 1] && steps[j] == tail[j - 1];
        } else if j > 1 {
          assert steps[j] == tail[j - 1] && steps[1] == tail[0];
        }
      }
    }
  }

  /** Each of the three ladders rises in device value: ISO and Kelvin steps
      directly, exposure time because the denominators fall. */
  lemma LaddersAscend(k: ArrayKind)
    requires LadderKind(k)
    ensures RawAscending(k, Steps(k))
  {
    var steps := Steps(k);
    if k == ExposureTimeArray {
      assert forall i :: 0 <= i < |steps| - 1 ==> Raw(k, steps[i]) < Raw(k, steps[i + 1]) by {
        assert Raw(k, 2000) == 500 && Raw(k, 1000) == 1000 && Raw(k, 500) == 2000 && Raw(k, 250) == 4000;
        assert Raw(k, 125) == 8000 && Raw(k, 60) == 16666 && Raw(k, 30) == 33333 && Raw(k, 15) == 66666;
        assert Raw(k, 8) == 125000 && Raw(k, 4) == 250000 && Raw(k, 2) == 500000 && Raw(k, 1) == 1000000;
      }
    }
    AdjacentAscending(k, steps);
  }

  /** The rung options of the kept steps. */
  function RungsOf(k: ArrayKind, kept: seq<nat>): (cs: seq<Choice>)
    requires PositiveSteps(kept)
    ensures |cs| == |kept|
    ensures forall i :: 0 <= i < |kept| ==> cs[i] == Rung(k, kept[i])
    ensures ChoicesFit(k, cs)
  {
    seq(|kept|, i requires 0 <= i < |kept| => Rung(k, kept[i]))
  }

  /** The options a ladder kind offers for a hardware range: Auto, then the rungs in range. */
  function LadderOptions(k: ArrayKind, lo: int, hi: int): (cs: seq<Choice>)
    requires LadderKind(k)
    ensures |cs| >= 1 && cs[0] == AutoChoice(k)
    ensures cs[1..] == RungsOf(k, Kept(k, Steps(k), lo, hi))
    ensures ChoicesFit(k, cs)
  {
    var rungs := RungsOf(k, Kept(k, Steps(k), lo, hi));
    var cs := [AutoChoice(k)] + rungs;
    assert cs[1..] == rungs;
    assert forall i :: 1 <= i < |cs| ==> cs[i] == rungs[i - 1];
    cs
  }

  /** The rungs a ladder offers carry strictly increasing device values inside
      the hardware range, and the step `x` is offered exactly when it is on the
      ladder and its device value is in range. */
  lemma LadderOffers(k: ArrayKind, lo: int, hi: int, x: nat)
    requires LadderKind(k) && x > 0
    ensures var kept := Kept(k, Steps(k), lo, hi);
            && RawAscending(k, kept)
            && (forall y :: y in kept ==> lo <= Raw(k, y) <= hi)
            && (x in kept <==> x in Steps(k) && lo <= Raw(k, x) <= hi)
  {
    LaddersAscend(k);
    KeptAscending(k, Steps(k), lo, hi);
    KeptMembers(k, Steps(k), lo, hi, x);
  }

  /** Whether the range could be unboxed with the `(UInt32)` casts. */
  predicate UInt32Bounds(b: Bounds) {
    0 <= b.min < 0x1_0000_0000 && 0 <= b.max < 0x1_0000_0000
  }

  /** The end of the ladder and preset populations: install the options and
      assign the tracked one to `SelectedOption`, which during a refresh is the
      first selection and so skips the device write. */
  function FillAndSelect(p: ArrayParam, all: seq<Choice>, tracked: nat, accepts: bool): (r: Outcome<ArrayParam>)
    requires Valid(p) && p.selected.None? && p.refreshing
    requires ChoicesFit(p.kind, all) && tracked < |all|
    ensures r.Returned? && Valid(r.state)
    ensures r.state.kind == p.kind && r.state.refreshing && r.state.writes == p.writes
    ensures r.state.options == all && r.state.selected == Some(tracked)
    ensures r.state.base.supported == p.base.supported
  {
    var filled := p.(options := all);
    SelectDuringRefresh(filled, tracked, accepts);
    Select(filled, Some(tracked), accepts)
  }

  /** The position of the tracked option in a list that starts with Auto and
      continues with `rest`: the last match in `rest` when tracking, else Auto. */
  function Tracked(rest: seq<Choice>, target: Option<Value>, tracking: bool): (t: nat)
    ensures t <= |rest|
    ensures tracking ==> Some(t) == Shift(Some(0), 1, LastMatch(rest, target))
    ensures !tracking ==> t == 0
  {
    var m := LastMatch(rest, target);
    if tracking && m.Some? then 1 + m.value else 0
  }

  /** The ladder options once the range is known: Auto, then the rungs in
      range, and the tracked option selected. With `tracking` the tracked option
      is the rung equal to the current value, else Auto; without it Auto is
      always selected (the exposure-time code as written). */
  function LadderFrom(p: ArrayParam, b: Bounds, target: Option<Value>, tracking: bool, accepts: bool): (r: ArrayParam)
    requires Valid(p) && LadderKind(p.kind) && p.selected.None? && p.refreshing
    ensures Valid(r) && r.kind == p.kind && r.refreshing && r.writes == p.writes
    ensures r.options == LadderOptions(p.kind, b.min, b.max)
    ensures tracking ==> r.selected == Shift(Some(0), 1, LastMatch(r.options[1..], target))
    ensures !tracking ==> r.selected == Some(0)
  {
    var all := LadderOptions(p.kind, b.min, b.max);
    FillAndSelect(p, all, Tracked(all[1..], target, tracking), accepts).state
  }

  /** PopulateOptions of the ladder kinds: Auto is added first, then the range
      and the current value are read; a failing query, a `null` range or a
      range that is not UInt32 throws after Auto was added. */
  function PopulateLadder(p: ArrayParam, o: Oracle<Value>, tracking: bool): (r: Outcome<ArrayParam>)
    requires Valid(p) && LadderKind(p.kind) && p.options == [] && p.selected.None? && p.refreshing
    ensures r.state.kind == p.kind && r.state.refreshing && r.state.writes == p.writes
    ensures Valid(r.state)
    ensures r.Returned? <==> o.range.Reported? && !o.current.Fails? && UInt32Bounds(o.range.value)
    ensures r.Threw? ==> r.state.options == [AutoChoice(p.kind)]
    ensures r.Returned? ==> r == Returned(LadderFrom(p, o.range.value, Target(o.current), tracking, o.accepts))
  {
    var withAuto := p.(options := [AutoChoice(p.kind)]);
    match o.range
    case Fails => Threw(withAuto, DeviceFailure)
    case Absent => if o.current.Fails? then Threw(withAuto, DeviceFailure) else Threw(withAuto, NullReference)
    case Reported(b) =>
      if o.current.Fails? then Threw(withAuto, DeviceFailure)
      else if !UInt32Bounds(b) then Threw(withAuto, InvalidCast)
      else Returned(LadderFrom(p, b, Target(o.current), tracking, o.accepts))
  }

  /** The preset options once the supported presets are known: Auto, then one
      option per preset; the preset equal to the current value is tracked (the
      last one, should it repeat) and selected once at the end, else Auto. */
  function PresetsFrom(p: ArrayParam, vs: seq<Value>, target: Option<Value>, accepts: bool): (r: ArrayParam)
    requires Valid(p) && p.kind == WhiteBalancePresetArray && p.selected.None? && p.refreshing
    ensures Valid(r) && r.kind == p.kind && r.refreshing && r.writes == p.writes
    ensures r.options == [AutoChoice(p.kind)] + DescribeAll(p.kind, vs)
    ensures r.selected == Shift(Some(0), 1, LastMatch(DescribeAll(p.kind, vs), target))
  {
    var described := DescribeAll(p.kind, vs);
    var all := [AutoChoice(p.kind)] + described;
    assert ChoicesFit(p.kind, all) by {
      assert forall i :: 1 <= i < |all| ==> all[i] == described[i - 1];
    }
    FillAndSelect(p, all, Tracked(described, target, true), accepts).state
  }

  /** PopulateOptions of the white-balance preset: Auto is added first, then the
      supported presets and the current value are read; a failing query throws
      and a `null` list throws in the `foreach`, after Auto was added. */
  function PopulatePresets(p: ArrayParam, o: Oracle<Value>): (r: Outcome<ArrayParam>)
    requires Valid(p) && p.kind == WhiteBalancePresetArray && p.options == [] && p.selected.None? && p.refreshing
    ensures r.state.kind == p.kind && r.state.refreshing && r.state.writes == p.writes
    ensures Valid(r.state)
    ensures r.Returned? <==> o.values.Reported? && !o.current.Fails?
    ensures r.Threw? ==> r.state.options == [AutoChoice(p.kind)]
    ensures r.Returned? ==> r == Returned(PresetsFrom(p, o.values.value, Target(o.current), o.accepts))
  {
    var withAuto := p.(options := [AutoChoice(p.kind)]);
    match o.values
    case Fails => Threw(withAuto, DeviceFailure)
    case Absent => if o.current.Fails? then Threw(withAuto, DeviceFailure) else Threw(withAuto, NullReference)
    case Reported(vs) =>
      if o.current.Fails? then Threw(withAuto, DeviceFailure)
      else Returned(PresetsFrom(p, vs, Target(o.current), o.accepts))
  }

  /** PopulateOptions dispatched on the kind. ISO and manual white balance
      select the rung equal to the current value; exposure time, as written,
      always selects Auto. */
  function Populate(p: ArrayParam, o: Oracle<Value>): (r: Outcome<ArrayParam>)
    requires Valid(p) && p.options == [] && p.selected.None? && p.refreshing
    ensures r.state.kind == p.kind && r.state.refreshing
    ensures Valid(r.state)
  {
    match p.kind
    case IsoArray => PopulateLadder(p, o, true)
    case ManualWhiteBalanceArray => PopulateLadder(p, o, true)
    case ExposureTimeArray => PopulateExposureTimeAsWritten(p, o)
    case WhiteBalancePresetArray => PopulatePresets(p, o)
    case _ => PopulateEnumerated(p, o)
  }

  /** The exposure-time population as written: the tracked option starts as
      Auto and the rung is adopted only while it is still `null`, which it never
      is, so Auto is always selected. */
  function PopulateExposureTimeAsWritten(p: ArrayParam, o: Oracle<Value>): (r: Outcome<ArrayParam>)
    requires Valid(p) && p.kind == ExposureTimeArray && p.options == [] && p.selected.None? && p.refreshing
    ensures r.Returned? <==> o.range.Reported? && !o.current.Fails? && UInt32Bounds(o.range.value)
    ensures r.Returned? ==> r.state.options == LadderOptions(p.kind, o.range.value.min, o.range.value.max)
    ensures r.Returned? ==> r.state.selected == Some(0) && r.state.options[0] == AutoChoice(p.kind)
  {
    PopulateLadder(p, o, false)
  }

  /** The exposure-time population as evidently intended: like ISO and manual
      white balance, it selects the last rung equal to the current value, and
      Auto only when no rung is. */
  function PopulateExposureTimeCorrected(p: ArrayParam, o: Oracle<Value>): (r: Outcome<ArrayParam>)
    requires Valid(p) && p.kind == ExposureTimeArray && p.options == [] && p.selected.None? && p.refreshing
    ensures r.Returned? <==> o.range.Reported? && !o.current.Fails? && UInt32Bounds(o.range.value)
    ensures r.Returned? ==> r.state.options == LadderOptions(p.kind, o.range.value.min, o.range.value.max)
    ensures r.Returned? ==> r.state.selected == Shift(Some(0), 1, LastMatch(r.state.options[1..], Target(o.current)))
  {
    PopulateLadder(p, o, true)
  }

  // ---------------------------------------------------------------------
  // Refresh

  /** The parameter as Refresh leaves it before populating: refreshing, with
      no options and no selection. */
  function Cleared(p: ArrayParam): (q: ArrayParam)
    requires Valid(p)
    ensures Valid(q) && q.options == [] && q.selected.None? && q.refreshing
    ensures q.(options := p.options, selected := p.selected, refreshing := p.refreshing) == p
  {
    p.(refreshing := true, options := [], selected := None)
  }

  /** The rest of Refresh once population has returned or thrown: Supported,
      Modifiable, the three notifications when supported, end of refresh. */
  function Conclude(filled: Outcome<ArrayParam>): (r: ArrayParam)
    requires Valid(filled.state)
    ensures Valid(r) && r.kind == filled.state.kind && !r.refreshing
    ensures r.options == filled.state.options && r.selected == filled.state.selected
    ensures r.writes == filled.state.writes
    ensures r.base.supported <==> filled.Returned? && |r.options| > 0
    ensures r.base.modifiable <==> r.base.supported && |r.options| > 1
    ensures r.base.log == Emit(filled.state.base,
                               [SupportedEvent, ModifiableEvent]
                               + (if r.base.supported then [CountEvent, SelectedOptionEvent, OverlayEvent] else []))
    ensures r.base.name == filled.state.base.name && r.base.image == filled.state.base.image
    ensures r.base.listening == filled.state.base.listening
  {
    var q := filled.state;
    var supported := filled.Returned? && |q.options| > 0;
    var b1 := SetSupported(q.base, supported);
    var b2 := SetModifiable(b1, supported && |q.options| > 1);
    var b3 := if supported then b2.(log := Emit(b2, [CountEvent, SelectedOptionEvent, OverlayEvent])) else b2;
    q.(base := b3, refreshing := false)
  }

  /** ArrayParameter.Refresh: discard options and selection, populate, and
      conclude. An exception from the population is swallowed and leaves the
      parameter unsupported; Modifiable implies Supported. */
  function Refresh(p: ArrayParam, o: Oracle<Value>): (r: ArrayParam)
    requires Valid(p)
    ensures Valid(r) && r.kind == p.kind && !r.refreshing
    ensures r.base.modifiable ==> r.base.supported
  {
    Conclude(Populate(Cleared(p), o))
  }

  // ---------------------------------------------------------------------
  // Refresh, kind by kind

  /** A ladder refresh (ISO, manual white balance, exposure time) is supported
      exactly when the range and the current value can be read and the range is
      UInt32; it then offers Auto and the rungs in range, is modifiable exactly
      when some rung is in range, and never writes to the device. ISO and
      manual white balance select the rung equal to the device value (Auto if
      none); exposure time always selects Auto. */
  lemma RefreshLadder(p: ArrayParam, o: Oracle<Value>)
    requires Valid(p) && LadderKind(p.kind)
    ensures var r := Refresh(p, o);
            && r.writes == p.writes
            && (r.base.supported <==> o.range.Reported? && !o.current.Fails? && UInt32Bounds(o.range.value))
            && (r.base.supported ==>
                  && r.options == LadderOptions(p.kind, o.range.value.min, o.range.value.max)
                  && (r.base.modifiable <==> |Kept(p.kind, Steps(p.kind), o.range.value.min, o.range.value.max)| > 0)
                  && (p.kind != ExposureTimeArray ==>
                        r.selected == Shift(Some(0), 1, LastMatch(r.options[1..], Target(o.current))))
                  && (p.kind == ExposureTimeArray ==> r.selected == Some(0)))
            && (!r.base.supported ==> r.options == [AutoChoice(p.kind)] && !r.base.modifiable)
  {
    var q := Cleared(p);
    var tracking := p.kind != ExposureTimeArray;
    var f := PopulateLadder(q, o, tracking);
    assert Populate(q, o) == f;
    assert Refresh(p, o) == Conclude(f);
    if f.Returned? {
      var b := o.range.value;
      assert f.state == LadderFrom(q, b, Target(o.current), tracking, o.accepts);
      var all := LadderOptions(p.kind, b.min, b.max);
      assert |all| == 1 + |all[1..]|;
    }
  }

  /** A white-balance-preset refresh is supported exactly when the preset list
      and the current value can be read; it offers Auto and then every preset,
      selects the preset equal to the device value (Auto if none) and never
      writes to the device. */
  lemma RefreshPresets(p: ArrayParam, o: Oracle<Value>)
    requires Valid(p) && p.kind == WhiteBalancePresetArray
    ensures var r := Refresh(p, o);
            && r.writes == p.writes
            && (r.base.supported <==> o.values.Reported? && !o.current.Fails?)
            && (r.base.supported ==>
                  && r.options == [AutoChoice(p.kind)] + DescribeAll(p.kind, o.values.value)
                  && (r.base.modifiable <==> |o.values.value| > 0)
                  && r.selected == Shift(Some(0), 1, LastMatch(DescribeAll(p.kind, o.values.value), Target(o.current))))
  {
    var q := Cleared(p);
    var f := PopulatePresets(q, o);
    assert Populate(q, o) == f;
    assert Refresh(p, o) == Conclude(f);
  }

  predicate EnumeratedKind(k: ArrayKind) {
    !LadderKind(k) && k != WhiteBalancePresetArray
  }

  /** An enumerated refresh (scene, flash, focus illumination, focus range,
      resolutions) against a device that reports its current value at most once
      is supported exactly when the value list and the current value can be read
      and the list is not empty; it offers one option per value in device order,
      selects the one equal to the device value, and never writes to the device. */
  lemma RefreshEnumerated(p: ArrayParam, o: Oracle<Value>)
    requires Valid(p) && EnumeratedKind(p.kind)
    requires o.values.Reported? ==> AtMostOneMatch(DescribeAll(p.kind, o.values.value), Target(o.current))
    ensures var r := Refresh(p, o);
            && r.writes == p.writes
            && (r.base.supported <==> o.values.Reported? && !o.current.Fails? && |o.values.value| > 0)
            && (r.base.modifiable <==> r.base.supported && |o.values.value| > 1)
            && (r.base.supported ==>
                  && r.options == DescribeAll(p.kind, o.values.value)
                  && r.selected == LastMatch(r.options, Target(o.current)))
  {
    var q := Cleared(p);
    var f := PopulateEnumerated(q, o);
    assert Populate(q, o) == f;
    assert Refresh(p, o) == Conclude(f);
    if o.values.Reported? && !o.current.Fails? {
      AddAllWritesNothing(q, DescribeAll(p.kind, o.values.value), Target(o.current), o.accepts);
      assert f == AddAll(q, DescribeAll(p.kind, o.values.value), Target(o.current), o.accepts);
    }
  }

  /** Of the ISO ladder only 100 lies in [50, 150]. */
  lemma IsoKeptExample()
    ensures Kept(IsoArray, IsoSteps, 50, 150) == [100]
  {
    var steps := IsoSteps;
    assert Kept(IsoArray, steps[5..], 50, 150) == [];
    assert Kept(IsoArray, steps[4..], 50, 150) == [];
    assert Kept(IsoArray, steps[3..], 50, 150) == [];
    assert Kept(IsoArray, steps[2..], 50, 150) == [];
    assert Kept(IsoArray, steps[1..], 50, 150) == [];
  }

  /** With ISO supported on [50, 150] the options are Auto and ISO 100. */
  lemma IsoRangeExample(p: ArrayParam, o: Oracle<Value>)
    requires Valid(p) && p.kind == IsoArray
    requires o.range == Reported(Bounds(50, 150)) && !o.current.Fails?
    ensures Refresh(p, o).base.supported && Refresh(p, o).base.modifiable
    ensures Refresh(p, o).options == [AutoChoice(IsoArray), Rung(IsoArray, 100)]
  {
    RefreshLadder(p, o);
    IsoKeptExample();
    var all := LadderOptions(IsoArray, 50, 150);
    assert all == [all[0]] + all[1..];
  }

  // ---------------------------------------------------------------------
  // Finding: the exposure-time selection

  /** When the device's exposure time is one of the rungs in range, the
      corrected exposure-time population selects that rung. */
  lemma ExposureTimeTracksCurrent(p: ArrayParam, o: Oracle<Value>, d: nat)
    requires Valid(p) && p.kind == ExposureTimeArray && p.options == [] && p.selected.None? && p.refreshing
    requires d in ShutterDenominators
    requires o.range.Reported? && UInt32Bounds(o.range.value)
    requires o.range.value.min <= 1000000 / d <= o.range.value.max
    requires o.current == Reported(Number(1000000 / d))
    ensures var r := PopulateExposureTimeCorrected(p, o);
            && r.Returned? && r.state.selected.Some? && r.state.selected.value < |r.state.options|
            && r.state.options[r.state.selected.value].value == Some(Number(1000000 / d))
  {
    assert Raw(ExposureTimeArray, d) == 1000000 / d;
    LadderTrackingSelects(p, o, d);
  }

  /** The ISO and manual white-balance populations select the rung equal to
      the device's current value when that rung is in range. */
  lemma LadderTracksCurrent(p: ArrayParam, o: Oracle<Value>, d: nat)
    requires Valid(p) && LadderKind(p.kind) && p.kind != ExposureTimeArray
    requires p.options == [] && p.selected.None? && p.refreshing
    requires d > 0 && d in Steps(p.kind)
    requires o.range.Reported? && UInt32Bounds(o.range.value)
    requires o.range.value.min <= Raw(p.kind, d) <= o.range.value.max
    requires o.current == Reported(Number(Raw(p.kind, d)))
    ensures var r := Populate(p, o);
            && r.Returned? && r.state.selected.Some? && r.state.selected.value < |r.state.options|
            && r.state.options[r.state.selected.value].value == Target(o.current)
  {
    LadderTrackingSelects(p, o, d);
    assert Populate(p, o) == PopulateLadder(p, o, true);
  }

  /** A tracking ladder population of any ladder kind selects the rung equal
      to the device's current value when that rung is in range. */
  lemma LadderTrackingSelects(p: ArrayParam, o: Oracle<Value>, d: nat)
    requires Valid(p) && LadderKind(p.kind) && p.options == [] && p.selected.None? && p.refreshing
    requires d > 0 && d in Steps(p.kind)
    requires o.range.Reported? && UInt32Bounds(o.range.value)
    requires o.range.value.min <= Raw(p.kind, d) <= o.range.value.max
    requires o.current == Reported(Number(Raw(p.kind, d)))
    ensures var r := PopulateLadder(p, o, true);
            && r.Returned? && r.state.selected.Some? && r.state.selected.value < |r.state.options|
            && r.state.options[r.state.selected.value].value == Target(o.current)
  {
    var b := o.range.value;
    var target := Target(o.current);
    LadderOffers(p.kind, b.min, b.max, d);
    LadderSelectsMatch(p, b, target, o.accepts, d);
  }

  /** A tracking ladder whose kept steps include one matching the current
      value selects an option carrying that value. */
  lemma LadderSelectsMatch(p: ArrayParam, b: Bounds, target: Option<Value>, accepts: bool, d: nat)
    requires Valid(p) && LadderKind(p.kind) && p.selected.None? && p.refreshing
    requires d > 0 && d in Kept(p.kind, Steps(p.kind), b.min, b.max)
    requires target == Some(Number(Raw(p.kind, d)))
    ensures var r := LadderFrom(p, b, target, true, accepts);
            && r.selected.Some? && r.selected.value < |r.options|
            && r.options[r.selected.value].value == target
  {
    var r := LadderFrom(p, b, target, true, accepts);
    var kept := Kept(p.kind, Steps(p.kind), b.min, b.max);
    var rest := r.options[1..];
    assert rest == RungsOf(p.kind, kept);
    var i :| 0 <= i < |kept| && kept[i] == d;
    assert Matches(rest[i], target) by {
      assert rest[i] == Rung(p.kind, d);
    }
    LastMatchFound(rest, target, i);
    var m := LastMatch(rest, target).value;
    assert r.options[1 + m] == rest[m];
  }

  /** A list with a matching option has a last match, at or after it. */
  lemma {:induction false} LastMatchFound(cs: seq<Choice>, target: Option<Value>, i: nat)
    requires i < |cs| && Matches(cs[i], target)
    ensures LastMatch(cs, target).Some? && i <= LastMatch(cs, target).value
    decreases |cs|
  {
    if !Matches(cs[|cs| - 1], target) {
      LastMatchFound(cs[..|cs| - 1], target, i);
    }
  }

  /** The code as written selects Auto even then: with the range [1000, 1000000]
      microseconds and the device at 1/125 s (8000 microseconds), the selected
      option carries no value although the "1 / 125 s" rung is offered, where
      the corrected population selects that rung. */
  lemma ExposureTimeAsWrittenSelectsAuto(p: ArrayParam, o: Oracle<Value>)
    requires Valid(p) && p.kind == ExposureTimeArray && p.options == [] && p.selected.None? && p.refreshing
    requires o.range == Reported(Bounds(1000, 1000000))
    requires o.current == Reported(Number(8000))
    ensures var r := PopulateExposureTimeAsWritten(p, o);
            r.Returned? && r.state.options[r.state.selected.value].value.None?
    ensures Rung(ExposureTimeArray, 125) in PopulateExposureTimeAsWritten(p, o).state.options
    ensures Populate(p, o) == PopulateExposureTimeAsWritten(p, o)
    ensures var r := PopulateExposureTimeCorrected(p, o);
            r.Returned? && r.state.options[r.state.selected.value].value == Some(Number(8000))
  {
    var k := ExposureTimeArray;
    assert 125 in Steps(k) && 1000000 / 125 == 8000;
    ExposureTimeTracksCurrent(p, o, 125);
    LadderOffers(k, 1000, 1000000, 125);
    var written := PopulateExposureTimeAsWritten(p, o);
    assert written == Returned(LadderFrom(p, Bounds(1000, 1000000), Target(o.current), false, o.accepts));
    var kept := Kept(k, Steps(k), 1000, 1000000);
    var i :| 0 <= i < |kept| && kept[i] == 125;
    assert written.state.options[1..][i] == Rung(k, 125);
  }

  // ---------------------------------------------------------------------
  // SetDefault

  /** The index of the first option carrying value `v`, if any. */
  function FirstWith(cs: seq<Choice>, v: Value): (r: Option<nat>)
    ensures r.Some? ==> r.value < |cs| && cs[r.value].value == Some(v)
    ensures r.Some? ==> forall j :: 0 <= j < r.value ==> cs[j].value != Some(v)
    ensures r.None? ==> forall j :: 0 <= j < |cs| ==> cs[j].value != Some(v)
    decreases |cs|
  {
    if |cs| == 0 then None
    else if cs[0].value == Some(v) then Some(0)
    else
      var rest := FirstWith(cs[1..], v);
      assert forall j :: 1 <= j < |cs| ==> cs[j] == cs[1..][j - 1];
      Shift(None, 1, rest)
  }

  /** The scene-mode default: the first option that is Auto or is the last option. */
  function SceneDefault(cs: seq<Choice>): (r: Option<nat>)
    ensures r.Some? <==> |cs| > 0
    ensures r.Some? ==> r.value < |cs| && (cs[r.value].value == Some(Scene(SceneAuto)) || r.value == |cs| - 1)
    ensures r.Some? ==> forall j :: 0 <= j < r.value ==> cs[j].value != Some(Scene(SceneAuto))
  {
    if |cs| == 0 then None
    else
      var auto := FirstWith(cs, Scene(SceneAuto));
      if auto.Some? then auto else Some(|cs| - 1)
  }

  /** The option each kind's SetDefault assigns to `SelectedOption` (`None` for
      the C# `null`, which the setter ignores). */
  function DefaultChoice(p: ArrayParam): (r: Option<nat>)
    ensures r.Some? ==> r.value < |p.options|
    ensures LadderKind(p.kind) || p.kind == WhiteBalancePresetArray ==>
              r == (if |p.options| > 0 then Some(0) else None)
    ensures p.kind == FlashModeArray ==> r == FirstWith(p.options, Flash(FlashAuto))
    ensures p.kind == FocusIlluminationArray ==> r == FirstWith(p.options, Illumination(IlluminationAuto))
    ensures p.kind == AutoFocusRangeArray ==> r == FirstWith(p.options, FocusRange(Normal))
    ensures p.kind == SceneModeArray ==> r == SceneDefault(p.options)
  {
    match p.kind
    case FlashModeArray => FirstWith(p.options, Flash(FlashAuto))
    case FocusIlluminationArray => FirstWith(p.options, Illumination(IlluminationAuto))
    case AutoFocusRangeArray => FirstWith(p.options, FocusRange(Normal))
    case SceneModeArray => SceneDefault(p.options)
    case _ => if |p.options| > 0 then Some(0) else None
  }

  /** SetDefault of the ten kinds. The resolutions write their first option to
      the device directly, bypassing the selection; every other kind assigns its
      default option through the `SelectedOption` setter. */
  function SetDefault(p: ArrayParam, accepts: bool): (r: Outcome<ArrayParam>)
    requires Valid(p)
    ensures Valid(r.state)
    ensures ResolutionKind(p.kind) ==> r.Returned? && r.state.selected == p.selected
    ensures ResolutionKind(p.kind) && |p.options| > 0 ==>
              r.state.writes == p.writes + (if accepts then [p.options[0].value] else [])
    ensures ResolutionKind(p.kind) && |p.options| == 0 ==> r == Returned(p)
    ensures !ResolutionKind(p.kind) && r.Returned? ==>
              r.state.selected == (if DefaultChoice(p).Some? then DefaultChoice(p) else p.selected)
    ensures !ResolutionKind(p.kind) && DefaultChoice(p).None? ==> r == Returned(p)
  {
    if ResolutionKind(p.kind) then
      if |p.options| > 0 then SetOption(p, p.options[0], accepts) else Returned(p)
    else
      Select(p, DefaultChoice(p), accepts)
  }

  /** After a supported refresh the ladder and preset kinds default to Auto. */
  lemma DefaultIsAuto(p: ArrayParam, o: Oracle<Value>, accepts: bool)
    requires Valid(p) && (LadderKind(p.kind) || p.kind == WhiteBalancePresetArray)
    requires Refresh(p, o).base.supported
    ensures var q := Refresh(p, o);
            var r := SetDefault(q, accepts);
            r.Returned? ==> r.state.selected == Some(0) && r.state.options[0] == AutoChoice(p.kind)
  {
    if LadderKind(p.kind) {
      RefreshLadder(p, o);
    } else {
      RefreshPresets(p, o);
    }
  }

  /** Flash options Off, Auto, On default to Auto; scene options Portrait,
      Sport (no Auto) default to the last one, Sport. */
  lemma DefaultExamples()
    ensures var cs := DescribeAll(FlashModeArray, [Flash(FlashOff), Flash(FlashAuto), Flash(FlashOn)]);
            FirstWith(cs, Flash(FlashAuto)) == Some(1) && cs[1].name == "Auto"
    ensures var cs := DescribeAll(SceneModeArray, [Scene(Portrait), Scene(Sport)]);
            SceneDefault(cs) == Some(1) && cs[1].name == "Sport"
  {
    var flash := DescribeAll(FlashModeArray, [Flash(FlashOff), Flash(FlashAuto), Flash(FlashOn)]);
    assert flash[0].value == Some(Flash(FlashOff));
    assert flash[1].value == Some(Flash(FlashAuto));
    var scene := DescribeAll(SceneModeArray, [Scene(Portrait), Scene(Sport)]);
    assert scene[0].value == Some(Scene(Portrait));
    assert scene[1].value == Some(Scene(Sport));
  }
}
