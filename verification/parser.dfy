/** `PhotoCaptureDeviceParser`, the older revision of the parameter layer: it
    reads each camera property once into a plain description (a list of
    labelled values or a [min, max] range) and collects the descriptions that
    could be read. Values are the property's UInt32 codes (ranges, ISO) or enum
    members; a code that names no member of its enum stays a bare code.
    Exposure compensation is boxed as Int32, which the UInt32 unbox rejects. */
module Parser {
  import opened Common
  import opened Device

  /** An enum value as the device reports it: a member, or a code the enum
      does not name (the C# cast `(E)(UInt32)o` succeeds either way). */
  datatype Coded<E> = Member(member: E) | OutOfEnum(code: nat)

  /** AutoFocusParameters, the lock flags of the locked-autofocus property. */
  datatype LockedAutoFocus = LockNone | LockFocus | LockExposure | LockWhiteBalance

  /** The older revision's parameter descriptions: an array with one label per
      possible value and the index of the current one, or a range with its
      unit and current value. */
  datatype Description =
    | ArrayOf(name: string, labels: seq<string>, current: Option<nat>)
    | RangeOf(name: string, unit: string, min: int, max: int, value: int)

  // ---------------------------------------------------------------------
  // Value labels.

  function FlashLabel(v: Coded<FlashMode>): string {
    match v
    case Member(FlashAuto) => "Auto"
    case Member(FlashOff) => "Off"
    case Member(FlashOn) => "On"
    case _ => "Unknown"
  }

  function IlluminationLabel(v: Coded<FocusIlluminationMode>): string {
    match v
    case Member(IlluminationAuto) => "Auto"
    case Member(IlluminationOff) => "Off"
    case Member(IlluminationOn) => "On"
    case _ => "Unknown"
  }

  function LockedLabel(v: Coded<LockedAutoFocus>): string {
    match v
    case Member(LockNone) => "None"
    case Member(LockFocus) => "Focus"
    case Member(LockExposure) => "Exposure"
    case Member(LockWhiteBalance) => "White balance"
    case _ => "Unknown"
  }

  function SceneLabel(v: Coded<SceneMode>): string {
    match v
    case Member(SceneAuto) => "None"
    case Member(SceneMacro) => "Macro"
    case Member(Portrait) => "Portrait"
    case Member(Sport) => "Sport"
    case Member(Snow) => "Snow"
    case Member(Night) => "Night"
    case Member(Beach) => "Beach"
    case Member(Sunset) => "Sunset"
    case Member(Candlelight) => "Candle light"
    case Member(Landscape) => "Landscape"
    case Member(NightPortrait) => "Night portrait"
    case Member(Backlit) => "Backlit"
    case OutOfEnum(_) => "Unknown"
  }

  function PresetLabel(v: Coded<WhiteBalancePreset>): string {
    match v
    case Member(Cloudy) => "Cloudy"
    case Member(Daylight) => "Daylight"
    case Member(PresetFlash) => "Flash"
    case Member(Fluorescent) => "Fluorescent"
    case Member(Tungsten) => "Tungsten"
    case Member(PresetCandlelight) => "Candle light"
    case OutOfEnum(_) => "Unknown"
  }

  function FocusRangeLabel(v: Coded<AutoFocusRange>): string {
    match v
    case Member(FocusMacro) => "Macro"
    case Member(Normal) => "Normal"
    case Member(Full) => "Full"
    case Member(Hyperfocal) => "Hyperfocal"
    case Member(Infinity) => "Infinity"
    case OutOfEnum(_) => "Unknown"
  }

  /** The labels are total: a code outside the enum reads "Unknown", and so
      does the one flash member the label does not list. */
  lemma UnknownLabels(code: nat)
    ensures FlashLabel(OutOfEnum(code)) == "Unknown" && FlashLabel(Member(RedEyeReduction)) == "Unknown"
    ensures IlluminationLabel(OutOfEnum(code)) == "Unknown" && LockedLabel(OutOfEnum(code)) == "Unknown"
    ensures SceneLabel(OutOfEnum(code)) == "Unknown" && PresetLabel(OutOfEnum(code)) == "Unknown"
    ensures FocusRangeLabel(OutOfEnum(code)) == "Unknown"
  {
  }

  /** Against the enum member names: every listed member is labelled with its
      own name, except that scene Auto reads "None" and the two-word members
      gain a space. */
  lemma LabelsFollowMemberNames(f: FlashMode, i: FocusIlluminationMode, s: SceneMode, p: WhiteBalancePreset, a: AutoFocusRange)
    ensures f != RedEyeReduction ==> FlashLabel(Member(f)) == FlashModeName(f)
    ensures IlluminationLabel(Member(i)) == IlluminationName(i)
    ensures s !in {SceneAuto, Candlelight, NightPortrait} ==> SceneLabel(Member(s)) == SceneModeName(s)
    ensures SceneLabel(Member(SceneAuto)) == "None"
    ensures p != PresetCandlelight ==> PresetLabel(Member(p)) == PresetName(p)
    ensures FocusRangeLabel(Member(a)) == FocusRangeName(a)
    ensures FlashLabel(Member(f)) != "Unknown" <==> f != RedEyeReduction
    ensures SceneLabel(Member(s)) != "Unknown" && PresetLabel(Member(p)) != "Unknown"
  {
  }

  // ---------------------------------------------------------------------
  // Current-value matching.

  /** The last position holding `x`, the one a forward scan that overwrites
      on every match ends with. */
  function LastIndex<T(==)>(xs: seq<T>, x: T): (r: Option<nat>)
    ensures r.Some? ==> r.value < |xs| && xs[r.value] == x
    ensures r.Some? ==> forall j :: r.value < j < |xs| ==> xs[j] != x
    ensures r.None? <==> x !in xs
    decreases |xs|
  {
    if |xs| == 0 then None
    else if xs[|xs| - 1] == x then Some(|xs| - 1)
    else LastIndex(xs[..|xs| - 1], x)
  }

  /** The current value's position: none when the device reports `null`. */
  function CurrentIndex<T(==)>(xs: seq<T>, q: Query<T>): Option<nat> {
    if q.Reported? then LastIndex(xs, q.value) else None
  }

  /** The labelling loop of ParseArrayProperty and ParseRangePropertyAsArray:
      one label per value in order, and the current entry is the last value
      equal to the device's current value. */
  method LabelValues<T(==)>(vs: seq<T>, current: Query<T>, labelOf: T -> string)
    returns (labels: seq<string>, selected: Option<nat>)
    ensures |labels| == |vs|
    ensures forall i :: 0 <= i < |vs| ==> labels[i] == labelOf(vs[i])
    ensures labels == Labels(vs, labelOf) && selected == CurrentIndex(vs, current)
    ensures selected.Some? ==> selected.value < |vs| && current == Reported(vs[selected.value])
    ensures selected.None? <==> !current.Reported? || current.value !in vs
  {
    labels := [];
    selected := None;
    var i := 0;
    while i < |vs|
      invariant 0 <= i <= |vs|
      invariant |labels| == i
      invariant forall k :: 0 <= k < i ==> labels[k] == labelOf(vs[k])
      invariant selected == CurrentIndex(vs[..i], current)
    {
      assert vs[..i + 1][..i] == vs[..i];
      if current.Reported? && vs[i] == current.value {
        selected := Some(i);
      }
      labels := labels + [labelOf(vs[i])];
      i := i + 1;
    }
    assert vs[..i] == vs;
  }

  /** The labels and current index LabelValues computes, as a value. */
  function Labels<T>(vs: seq<T>, labelOf: T -> string): (ls: seq<string>)
    ensures |ls| == |vs| && forall i :: 0 <= i < |vs| ==> ls[i] == labelOf(vs[i])
  {
    seq(|vs|, i requires 0 <= i < |vs| => labelOf(vs[i]))
  }

  // ---------------------------------------------------------------------
  // The three generic readers.

  /** ParseArrayProperty: the supported values are queried, then the current
      value; a throwing query propagates, and a `null` value list throws
      NullReferenceException when its Count is read. */
  function ParseArrayProperty<T(==)>(o: Oracle<T>, name: string, labelOf: T -> string): (r: Result<Description>)
    ensures r.Success? <==> o.values.Reported? && !o.current.Fails?
    ensures o.values.Fails? || o.current.Fails? ==> r == Failure(DeviceFailure)
    ensures o.values.Absent? && !o.current.Fails? ==> r == Failure(NullReference)
    ensures r.Success? ==> r.value == ArrayOf(name, Labels(o.values.value, labelOf), CurrentIndex(o.values.value, o.current))
    ensures r.Success? ==> r.value.name == name
  {
    if o.values.Fails? || o.current.Fails? then Failure(DeviceFailure)
    else if o.values.Absent? then Failure(NullReference)
    else Success(ArrayOf(name, Labels(o.values.value, labelOf), CurrentIndex(o.values.value, o.current)))
  }

  predicate InUInt32(x: int) {
    0 <= x < 0x1_0000_0000
  }

  predicate InInt32(x: int) {
    Int32Min <= x <= Int32Max
  }

  /** The type the platform boxes a numeric property's values in: UInt32 for
      most properties, Int32 for exposure compensation. Unboxing as UInt32
      succeeds only on a boxed UInt32, whatever the value. */
  datatype Boxing = BoxedUInt32 | BoxedInt32

  /** ParseRangeProperty: range, then current value; a single-valued range is
      rejected; the bounds and the value are unboxed as UInt32 codes and
      reinterpreted as Int32 without overflow checks, and a `null` value falls
      back to Min. A property boxed as Int32 fails that unbox. */
  function ParseRangeProperty(o: Oracle<int>, name: string, unit: string, box: Boxing): (r: Result<Description>)
    ensures r.Success? <==> box.BoxedUInt32?
                            && o.range.Reported? && !o.current.Fails? && o.range.value.min != o.range.value.max
                            && InUInt32(o.range.value.min) && InUInt32(o.range.value.max)
                            && (o.current.Reported? ==> InUInt32(o.current.value))
    ensures o.range.Fails? || o.current.Fails? ==> r == Failure(DeviceFailure)
    ensures o.range.Absent? && !o.current.Fails? ==> r == Failure(NullReference)
    ensures o.range.Reported? && !o.current.Fails? && o.range.value.min == o.range.value.max ==> r == Failure(RangeCollapsed)
    ensures box.BoxedInt32? && o.range.Reported? && !o.current.Fails? && o.range.value.min != o.range.value.max ==>
              r == Failure(InvalidCast)
    ensures r.Success? ==> r.value.RangeOf? && r.value.name == name && r.value.unit == unit
    ensures r.Success? ==> r.value.min == WrapInt32(o.range.value.min) && r.value.max == WrapInt32(o.range.value.max)
    ensures r.Success? ==> r.value.value == if o.current.Reported? then WrapInt32(o.current.value) else r.value.min
    ensures r.Success? ==> r.value.min != r.value.max
  {
    if o.range.Fails? || o.current.Fails? then Failure(DeviceFailure)
    else if o.range.Absent? then Failure(NullReference)
    else
      var b := o.range.value;
      if b.min == b.max then Failure(RangeCollapsed)
      else if box.BoxedInt32? then Failure(InvalidCast)
      else if !InUInt32(b.min) || !InUInt32(b.max) then Failure(InvalidCast)
      else if o.current.Reported? && !InUInt32(o.current.value) then Failure(InvalidCast)
      else
        var lo := WrapInt32(b.min);
        Success(RangeOf(name, unit, lo, WrapInt32(b.max), if o.current.Reported? then WrapInt32(o.current.value) else lo))
  }

  /** ParseRangeProperty corrected for a property boxed as Int32: the bounds
      and the value are unboxed as `int`, so the description carries the
      device's own range and value. */
  function ParseInt32RangeProperty(o: Oracle<int>, name: string, unit: string): (r: Result<Description>)
    ensures r.Success? <==> o.range.Reported? && !o.current.Fails? && o.range.value.min != o.range.value.max
                            && InInt32(o.range.value.min) && InInt32(o.range.value.max)
                            && (o.current.Reported? ==> InInt32(o.current.value))
    ensures o.range.Fails? || o.current.Fails? ==> r == Failure(DeviceFailure)
    ensures o.range.Absent? && !o.current.Fails? ==> r == Failure(NullReference)
    ensures o.range.Reported? && !o.current.Fails? && o.range.value.min == o.range.value.max ==> r == Failure(RangeCollapsed)
    ensures r.Success? ==> r.value.RangeOf? && r.value.name == name && r.value.unit == unit
    ensures r.Success? ==> r.value.min == o.range.value.min && r.value.max == o.range.value.max
    ensures r.Success? ==> r.value.value == if o.current.Reported? then o.current.value else o.range.value.min
  {
    if o.range.Fails? || o.current.Fails? then Failure(DeviceFailure)
    else if o.range.Absent? then Failure(NullReference)
    else
      var b := o.range.value;
      if b.min == b.max then Failure(RangeCollapsed)
      else if !InInt32(b.min) || !InInt32(b.max) then Failure(InvalidCast)
      else if o.current.Reported? && !InInt32(o.current.value) then Failure(InvalidCast)
      else Success(RangeOf(name, unit, b.min, b.max, if o.current.Reported? then o.current.value else b.min))
  }

  /** The correction changes only the unbox: wherever the two parses differ,
      the code as written threw InvalidCastException. */
  lemma Int32UnboxOnlyFixesCast(o: Oracle<int>, name: string, unit: string)
    ensures ParseRangeProperty(o, name, unit, BoxedInt32).Failure?
    ensures ParseInt32RangeProperty(o, name, unit) != ParseRangeProperty(o, name, unit, BoxedInt32) ==>
              ParseRangeProperty(o, name, unit, BoxedInt32) == Failure(InvalidCast)
  {
  }

  /** An exposure-compensation range of [0, 4] EV at 2: the code as written
      throws, the corrected parse describes it. */
  lemma ExposureCompensationExample()
    ensures var o := Oracle(Reported(Bounds(0, 4)), Absent, Reported(2), true);
            ParseRangeProperty(o, "Exposure compensation", "EV", BoxedInt32) == Failure(InvalidCast) &&
            ParseInt32RangeProperty(o, "Exposure compensation", "EV") == Success(RangeOf("Exposure compensation", "EV", 0, 4, 2))
  {
  }

  // ---------------------------------------------------------------------
  // The ISO ladder.

  /** The first ISO value: the device minimum, but never below 100. */
  function IsoStart(min: nat): (s: nat)
    ensures s >= 100 && s >= min && (s == min || s == 100)
  {
    if min > 100 then min else 100
  }

  /** `v, 2v, 4v, ...` while at most `max`. */
  function Doublings(v: nat, max: nat): (r: seq<nat>)
    requires v > 0
    ensures forall k :: 0 <= k < |r| ==> v <= r[k] <= max
    ensures |r| == 0 <==> v > max
    ensures |r| > 0 ==> r[0] == v
    decreases if v <= max then max - v + 1 else 0
  {
    if v <= max then [v] + Doublings(2 * v, max) else []
  }

  /** Each ladder value is twice its predecessor, so the ladder strictly increases. */
  lemma {:induction false} DoublingsDouble(v: nat, max: nat)
    requires v > 0
    ensures forall k :: 0 <= k < |Doublings(v, max)| - 1 ==> Doublings(v, max)[k + 1] == 2 * Doublings(v, max)[k]
    decreases if v <= max then max - v + 1 else 0
  {
    if v <= max {
      var r := Doublings(v, max);
      var rest := Doublings(2 * v, max);
      DoublingsDouble(2 * v, max);
      assert r == [v] + rest;
      forall k | 0 <= k < |r| - 1
        ensures r[k + 1] == 2 * r[k]
      {
        if k > 0 {
          assert r[k] == rest[k - 1] && r[k + 1] == rest[k];
        } else {
          assert r[1] == rest[0];
        }
      }
    }
  }

  /** The ISO lambda of ParseIso: doubling in unchecked UInt32 arithmetic from
      max(min, 100) while the value is at most max. Doubling cannot wrap while
      max < 2^31; for a larger max the doubling may wrap, and whether the loop
      ends then depends on the bounds, so that band is not modelled. */
  method IsoLadder(min: nat, max: nat) returns (ladder: seq<nat>)
    requires InUInt32(min) && max < 0x8000_0000
    ensures ladder == Doublings(IsoStart(min), max)
    ensures forall k :: 0 <= k < |ladder| ==> IsoStart(min) <= ladder[k] <= max
    ensures forall k :: 0 <= k < |ladder| - 1 ==> ladder[k + 1] == 2 * ladder[k]
    ensures |ladder| == 0 <==> IsoStart(min) > max
  {
    var cur: nat := IsoStart(min);
    ladder := [];
    while cur <= max
      invariant 0 < cur < 0x1_0000_0000
      invariant ladder + Doublings(cur, max) == Doublings(IsoStart(min), max)
      decreases if cur <= max then max - cur + 1 else 0
    {
      assert Doublings(cur, max) == [cur] + Doublings(2 * cur, max);
      ladder := ladder + [cur];
      cur := WrapUInt32(cur * 2) as nat;
    }
    DoublingsDouble(IsoStart(min), max);
  }

  /** A device range of [50, 150] gives the single ISO value 100, and
      [100, 800] gives 100, 200, 400, 800. */
  lemma IsoLadderExamples()
    ensures Doublings(IsoStart(50), 150) == [100]
    ensures Doublings(IsoStart(100), 800) == [100, 200, 400, 800]
    ensures Doublings(IsoStart(50), 99) == []
  {
  }

  /** ParseRangePropertyAsArray with the ISO lambda of ParseIso, its only
      caller: the range and current value are queried, the ladder becomes the value list, each labelled with
      its decimal text. */
  function ParseRangePropertyAsArray(o: Oracle<int>, name: string): (r: Result<Description>)
    requires o.range.Reported? && InUInt32(o.range.value.min) ==> o.range.value.max < 0x8000_0000
    ensures r.Success? <==> o.range.Reported? && !o.current.Fails? && InUInt32(o.range.value.min) && InUInt32(o.range.value.max)
    ensures r.Success? ==> r.value.ArrayOf? && r.value.name == name
    ensures r.Success? ==>
              var ladder := Doublings(IsoStart(o.range.value.min), o.range.value.max);
              r.value.labels == Labels(ladder, NatToString) && r.value.current == CurrentIndex(ladder, NatQuery(o.current))
  {
    if o.range.Fails? || o.current.Fails? then Failure(DeviceFailure)
    else if o.range.Absent? then Failure(NullReference)
    else
      var b := o.range.value;
      if !InUInt32(b.min) || !InUInt32(b.max) then Failure(InvalidCast)
      else
        var ladder := Doublings(IsoStart(b.min), b.max);
        Success(ArrayOf(name, Labels(ladder, NatToString), CurrentIndex(ladder, NatQuery(o.current))))
  }

  /** The device's current value viewed as a ladder value; a negative value
      equals no ladder entry. */
  function NatQuery(q: Query<int>): (r: Query<nat>)
    ensures q.Reported? && q.value >= 0 ==> r == Reported(q.value)
    ensures q.Reported? && q.value < 0 ==> r.Absent?
    ensures !q.Reported? ==> r == q
  {
    match q
    case Reported(v) => if v >= 0 then Reported(v) else Absent
    case Fails => Fails
    case Absent => Absent
  }

  // ---------------------------------------------------------------------
  // Parse: eleven independent attempts.

  /** The device as the older parser reads it. */
  datatype ParserDevice = ParserDevice(
    exposureCompensation: Oracle<int>,
    exposureTime: Oracle<int>,
    flashMode: Oracle<Coded<FlashMode>>,
    flashPower: Oracle<int>,
    focusIllumination: Oracle<Coded<FocusIlluminationMode>>,
    iso: Oracle<int>,
    lockedAutoFocus: Oracle<Coded<LockedAutoFocus>>,
    manualWhiteBalance: Oracle<int>,
    sceneMode: Oracle<Coded<SceneMode>>,
    whiteBalancePreset: Oracle<Coded<WhiteBalancePreset>>,
    autoFocusRange: Oracle<Coded<AutoFocusRange>>)

  /** The ISO ladder loop terminates on this device. */
  predicate IsoBounded(d: ParserDevice) {
    d.iso.range.Reported? && InUInt32(d.iso.range.value.min) ==> d.iso.range.value.max < 0x8000_0000
  }

  /** The eleven attempts, in the order Parse makes them. */
  function Attempts(d: ParserDevice): (a: seq<Result<Description>>)
    requires IsoBounded(d)
    ensures |a| == 11
  {
    var n := AttemptNames;
    [ ParseRangeProperty(d.exposureCompensation, n[0], "EV", BoxedInt32),
      ParseRangeProperty(d.exposureTime, n[1], "us", BoxedUInt32),
      ParseArrayProperty(d.flashMode, n[2], FlashLabel),
      ParseRangeProperty(d.flashPower, n[3], "", BoxedUInt32),
      ParseArrayProperty(d.focusIllumination, n[4], IlluminationLabel),
      ParseRangePropertyAsArray(d.iso, n[5]),
      ParseArrayProperty(d.lockedAutoFocus, n[6], LockedLabel),
      ParseRangeProperty(d.manualWhiteBalance, n[7], "K", BoxedUInt32),
      ParseArrayProperty(d.sceneMode, n[8], SceneLabel),
      ParseArrayProperty(d.whiteBalancePreset, n[9], PresetLabel),
      ParseArrayProperty(d.autoFocusRange, n[10], FocusRangeLabel) ]
  }

  /** The display names of the eleven attempts, in order. */
  const AttemptNames: seq<string> := [
    "Exposure compensation", "Exposure time", "Flash mode", "Flash power",
    "Focus illumination mode", "ISO", "Locked autofocus parameters",
    "Manual white balance", "Scene mode", "White balance preset", "Autofocus range"]

  /** What a sequence of try/catch blocks adds: the value of every attempt
      that returned, in order; a failed attempt adds nothing. */
  function Collect(a: seq<Result<Description>>): (r: seq<Description>)
    ensures |r| <= |a|
  {
    if |a| == 0 then []
    else (if a[0].Success? then [a[0].value] else []) + Collect(a[1..])
  }

  /** Collecting is compositional: the blocks before and after a point are
      independent. */
  lemma {:induction false} CollectAppend(a: seq<Result<Description>>, b: seq<Result<Description>>)
    ensures Collect(a + b) == Collect(a) + Collect(b)
    decreases |a|
  {
    if |a| > 0 {
      assert (a + b)[0] == a[0];
      assert (a + b)[1..] == a[1..] + b;
      CollectAppend(a[1..], b);
    } else {
      assert a + b == b;
    }
  }

  /** When every attempt returns, each one's value is added at its own position. */
  lemma {:induction false} CollectAllSucceed(a: seq<Result<Description>>)
    requires forall i :: 0 <= i < |a| ==> a[i].Success?
    ensures |Collect(a)| == |a|
    ensures forall i :: 0 <= i < |a| ==> Collect(a)[i] == a[i].value
    decreases |a|
  {
    if |a| > 0 {
      CollectAllSucceed(a[1..]);
    }
  }

  /** Parse: the collection keeps what it held and gains the readable
      properties in declaration order. */
  function Parse(d: ParserDevice, collection: seq<Description>): (r: seq<Description>)
    requires IsoBounded(d)
    ensures |collection| <= |r| <= |collection| + 11
    ensures r[..|collection|] == collection
  {
    collection + Collect(Attempts(d))
  }

  /** A failed block contributes nothing and separates the blocks around it. */
  lemma CollectSkipsFailure(a: seq<Result<Description>>, k: nat)
    requires k < |a| && a[k].Failure?
    ensures Collect(a) == Collect(a[..k]) + Collect(a[k + 1..])
  {
    var before, failed, after := a[..k], [a[k]], a[k + 1..];
    assert a == before + (failed + after);
    CollectAppend(before, failed + after);
    CollectAppend(failed, after);
    assert Collect(failed) == [] by {
      assert failed[1..] == [];
    }
  }

  /** Failure isolation: a property whose attempt fails is skipped and every
      other property is added exactly as if it had not been attempted. */
  lemma FailureSkipsOnlyItself(d: ParserDevice, collection: seq<Description>, k: nat)
    requires IsoBounded(d) && k < 11 && Attempts(d)[k].Failure?
    ensures Parse(d, collection) == collection + Collect(Attempts(d)[..k]) + Collect(Attempts(d)[k + 1..])
  {
    CollectSkipsFailure(Attempts(d), k);
  }

  /** Each attempt that returns describes the property it was made for. */
  lemma AttemptsNamed(d: ParserDevice)
    requires IsoBounded(d)
    ensures var a := Attempts(d);
            forall i :: 0 <= i < 11 && a[i].Success? ==> a[i].value.name == AttemptNames[i]
  {
  }

  /** As written, exposure compensation is never listed: its attempt always
      throws, so Parse adds exactly what the other ten attempts add. */
  lemma ExposureCompensationNeverListed(d: ParserDevice, collection: seq<Description>)
    requires IsoBounded(d)
    ensures Attempts(d)[0].Failure?
    ensures Parse(d, collection) == collection + Collect(Attempts(d)[1..])
  {
  }

  /** A device whose other ten properties read adds ten descriptions, named in
      declaration order after exposure compensation. */
  lemma AllReadableInOrder(d: ParserDevice, collection: seq<Description>)
    requires IsoBounded(d)
    requires forall i :: 1 <= i < 11 ==> Attempts(d)[i].Success?
    ensures var r := Parse(d, collection);
            |r| == |collection| + 10 &&
            forall i :: 1 <= i < 11 ==> r[|collection| + i - 1].name == AttemptNames[i]
  {
    var a := Attempts(d);
    ExposureCompensationNeverListed(d, collection);
    CollectAllSucceed(a[1..]);
    AttemptsNamed(d);
    var r := Parse(d, collection);
    var c := Collect(a[1..]);
    assert forall k :: 0 <= k < 10 ==> r[|collection| + k] == c[k];
  }
}
