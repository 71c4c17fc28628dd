/** `RangeParameter<T>`: a parameter whose domain is the device-reported
    interval [Minimum, Maximum], with a current Value that is written through to
    the device, and its two concrete kinds, exposure compensation (Int32) and
    flash power (UInt32). */
module RangeParameters {
  import opened Common
  import opened Device
  import opened ParameterBase

  const ValueEvent: string := "Value"
  const MinimumEvent: string := "Minimum"
  const MaximumEvent: string := "Maximum"

  /** The two range parameters of the catalog, with their value type T. */
  datatype RangeKind = ExposureCompensationRange | FlashPowerRange

  function RangeName(k: RangeKind): string {
    match k
    case ExposureCompensationRange => "Exposure compensation"
    case FlashPowerRange => "Flash power"
  }

  /** Whether `x` is a value of the kind's type T (Int32 or UInt32); the C#
      unboxing casts `(T)` throw otherwise. */
  predicate InType(k: RangeKind, x: int) {
    match k
    case ExposureCompensationRange => Int32Min <= x <= Int32Max
    case FlashPowerRange => 0 <= x < 0x1_0000_0000
  }

  /** A range parameter object; `writes` records every successful
      Device.SetProperty of the value, in order. */
  datatype RangeParam = RangeParam(
    kind: RangeKind,
    base: Base,
    minimum: int,
    maximum: int,
    value: int,
    writes: seq<int>)

  /** The fields always hold values of type T. */
  predicate Typed(p: RangeParam) {
    InType(p.kind, p.minimum) && InType(p.kind, p.maximum) && InType(p.kind, p.value)
    && !p.base.overlay && p.base.image.None?
  }

  /** The notification a change-guarded setter raises: one when the value changes, none otherwise. */
  function ChangeEvent<T(==)>(before: T, after: T, event: string): seq<string> {
    if before != after then [event] else []
  }

  /** The private `Minimum` setter: stores and notifies only when the value changes. */
  function SetMinimum(p: RangeParam, v: int): (r: RangeParam)
    ensures r.minimum == v
    ensures r.base.log == Emit(p.base, ChangeEvent(p.minimum, v, MinimumEvent))
    ensures p.minimum == v ==> r == p
    ensures r.(minimum := p.minimum, base := r.base.(log := p.base.log)) == p
  {
    if p.minimum != v then p.(minimum := v, base := p.base.(log := Emit(p.base, [MinimumEvent]))) else p
  }

  /** The private `Maximum` setter: stores and notifies only when the value changes. */
  function SetMaximum(p: RangeParam, v: int): (r: RangeParam)
    ensures r.maximum == v
    ensures r.base.log == Emit(p.base, ChangeEvent(p.maximum, v, MaximumEvent))
    ensures p.maximum == v ==> r == p
    ensures r.(maximum := p.maximum, base := r.base.(log := p.base.log)) == p
  {
    if p.maximum != v then p.(maximum := v, base := p.base.(log := Emit(p.base, [MaximumEvent]))) else p
  }

  /** The first part of Refresh, inside its try block: the range query, the
      three casts and the read of the current value, ending with the Supported
      assignment of whichever branch completes. */
  function Query(p: RangeParam, o: Oracle<int>): (r: RangeParam)
    requires Typed(p)
    ensures Typed(r) && r.kind == p.kind && r.writes == p.writes
    ensures r.base.supported <==> Readable(p.kind, o)
    ensures r.base.supported ==>
              r.minimum == o.range.value.min && r.maximum == o.range.value.max && r.value == o.current.value
    ensures !o.range.Reported? ==> r.minimum == p.minimum && r.maximum == p.maximum && r.value == p.value
    ensures r.base.(supported := p.base.supported, log := p.base.log) == p.base
    ensures r.base.supported ==>
              r.base.log == Emit(p.base, ChangeEvent(p.minimum, r.minimum, MinimumEvent)
                                         + ChangeEvent(p.maximum, r.maximum, MaximumEvent)
                                         + [SupportedEvent])
  {
    match o.range
    case Reported(b) =>
      if !InType(p.kind, b.min) then p.(base := SetSupported(p.base, false))
      else
        var p1 := SetMinimum(p, b.min);
        if !InType(p.kind, b.max) then p1.(base := SetSupported(p1.base, false))
        else
          var p2 := SetMaximum(p1, b.max);
          if o.current.Reported? && InType(p.kind, o.current.value) then
            p2.(value := o.current.value, base := SetSupported(p2.base, true))
          else
            p2.(base := SetSupported(p2.base, false))
    case _ => p.(base := SetSupported(p.base, false))
  }

  /** Whether a refresh against this oracle succeeds: the range and the current
      value are reported and all three fit the type. */
  predicate Readable(k: RangeKind, o: Oracle<int>) {
    && o.range.Reported? && InType(k, o.range.value.min) && InType(k, o.range.value.max)
    && o.current.Reported? && InType(k, o.current.value)
  }

  /** Refresh: reads range and value from the device; every failure is caught
      and leaves the parameter unsupported. */
  function Refresh(p: RangeParam, o: Oracle<int>): (r: RangeParam)
    requires Typed(p)
    ensures Typed(r) && r.kind == p.kind
    ensures r.base.supported <==> Readable(p.kind, o)
    ensures r.base.modifiable <==> r.base.supported && r.minimum != r.maximum
    ensures r.base.supported ==>
              r.minimum == o.range.value.min && r.maximum == o.range.value.max && r.value == o.current.value
    ensures !o.range.Reported? ==> r.minimum == p.minimum && r.maximum == p.maximum && r.value == p.value
    ensures r.writes == p.writes
    ensures r.base.name == p.base.name && r.base.listening == p.base.listening && r.base.image == p.base.image
    ensures r.base.log == Emit(p.base, ChangeEvent(p.minimum, r.minimum, MinimumEvent)
                                       + ChangeEvent(p.maximum, r.maximum, MaximumEvent)
                                       + [SupportedEvent, ModifiableEvent]
                                       + (if r.base.supported then [ValueEvent, OverlayEvent] else []))
  {
    var q := Query(p, o);
    var flagged := q.(base := SetModifiable(q.base, q.base.supported && q.minimum != q.maximum));
    if flagged.base.supported then
      flagged.(base := flagged.base.(log := Emit(flagged.base, [ValueEvent, OverlayEvent])))
    else
      flagged
  }

  /** Refreshing twice against an unchanged device leaves the same observable
      state as refreshing once, and the second refresh raises no Minimum or
      Maximum notification. */
  lemma RefreshIdempotent(p: RangeParam, o: Oracle<int>)
    requires Typed(p)
    ensures var once := Refresh(p, o);
            var twice := Refresh(once, o);
            && twice.base.supported == once.base.supported
            && twice.base.modifiable == once.base.modifiable
            && twice.minimum == once.minimum && twice.maximum == once.maximum
            && twice.value == once.value && twice.base.image == once.base.image
            && (twice.base.supported && once.base.listening ==>
                  twice.base.log == once.base.log + [SupportedEvent, ModifiableEvent, ValueEvent, OverlayEvent])
  {
  }

  /** A range parameter as its constructor leaves it: fields at default(T) = 0,
      not overlay-capable, then refreshed before anybody can subscribe. */
  function NewRange(k: RangeKind, o: Oracle<int>): (r: RangeParam)
    ensures Typed(r) && r.kind == k && r.base.name == RangeName(k)
    ensures r.base.supported <==> Readable(k, o)
    ensures r.base.modifiable <==> r.base.supported && r.minimum != r.maximum
    ensures !r.base.listening && r.base.log == [] && r.writes == []
  {
    Refresh(RangeParam(k, NewBase(RangeName(k), false), 0, 0, 0, []), o)
  }

  /** The `Value` setter. Writing the current value does nothing. A new value
      is stored, then written to the device; "Value" is notified only if the
      write succeeds, and a failed write leaves the new value stored. */
  function SetValue(p: RangeParam, v: int, accepts: bool): (r: RangeParam)
    requires Typed(p) && InType(p.kind, v)
    ensures Typed(r)
    ensures v == p.value ==> r == p
    ensures r.value == v
    ensures v != p.value && accepts ==> r.writes == p.writes + [v] && r.base.log == Emit(p.base, [ValueEvent])
    ensures v != p.value && !accepts ==> r.writes == p.writes && r.base == p.base
    ensures r.(value := p.value, writes := p.writes, base := p.base) == p
    ensures r.base.(log := p.base.log) == p.base
  {
    if p.value == v then p
    else if accepts then p.(value := v, writes := p.writes + [v], base := p.base.(log := Emit(p.base, [ValueEvent])))
    else p.(value := v)
  }

  /** Setting the same value twice is the same as setting it once. */
  lemma SetValueIdempotent(p: RangeParam, v: int, accepts: bool)
    requires Typed(p) && InType(p.kind, v)
    ensures SetValue(SetValue(p, v, accepts), v, accepts) == SetValue(p, v, accepts)
  {
  }

  /** The exposure-compensation default, `(Int32)(Minimum + (Maximum - Minimum) / 2)`
      in unchecked Int32 arithmetic with C#'s truncating division. */
  function Int32Midpoint(lo: int, hi: int): (r: int)
    requires Int32Min <= lo <= Int32Max && Int32Min <= hi <= Int32Max
    ensures Int32Min <= r <= Int32Max
    ensures lo <= hi && hi - lo <= Int32Max ==> lo <= r <= hi && r == lo + (hi - lo) / 2
  {
    WrapInt32(lo + DivTrunc(WrapInt32(hi - lo), 2))
  }

  /** The flash-power default, `(UInt32)(Minimum + (Maximum - Minimum) / 2)`
      in unchecked UInt32 arithmetic. */
  function UInt32Midpoint(lo: int, hi: int): (r: int)
    requires 0 <= lo < 0x1_0000_0000 && 0 <= hi < 0x1_0000_0000
    ensures 0 <= r < 0x1_0000_0000
    ensures lo <= hi ==> lo <= r <= hi && r == lo + (hi - lo) / 2
  {
    WrapUInt32(lo + (WrapUInt32(hi - lo) as int) / 2) as int
  }

  /** The midpoint default of a kind, computed in its own type. */
  function DefaultValue(p: RangeParam): (v: int)
    requires Typed(p)
    ensures InType(p.kind, v)
    ensures p.minimum <= p.maximum && p.maximum - p.minimum <= Int32Max ==> p.minimum <= v <= p.maximum
  {
    match p.kind
    case ExposureCompensationRange => Int32Midpoint(p.minimum, p.maximum)
    case FlashPowerRange => UInt32Midpoint(p.minimum, p.maximum)
  }

  /** SetDefault of both range kinds: assign the midpoint through the `Value` setter. */
  function SetDefault(p: RangeParam, accepts: bool): (r: RangeParam)
    requires Typed(p)
    ensures Typed(r)
    ensures r.value == DefaultValue(p)
    ensures p.minimum <= p.maximum && p.maximum - p.minimum <= Int32Max ==> p.minimum <= r.value <= p.maximum
    ensures r.minimum == p.minimum && r.maximum == p.maximum
  {
    SetValue(p, DefaultValue(p), accepts)
  }

  /** An exposure-compensation range of [-2, 2] defaults to 0, and so does a
      flash-power range of [0, 1] to 0 and [0, 100] to 50. */
  lemma MidpointExamples()
    ensures Int32Midpoint(-2, 2) == 0
    ensures Int32Midpoint(-3, 3) == 0
    ensures UInt32Midpoint(0, 1) == 0
    ensures UInt32Midpoint(0, 100) == 50
  {
  }
}
