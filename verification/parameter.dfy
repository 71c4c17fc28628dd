/** The `Parameter` base class: a display name, the supported and modifiable
    flags, the overlay image (allowed only on overlay-capable parameters) and
    property-change notifications.

    The overlay image is called `ImageSource` in the base class and
    `OverlaySource` in the parameter classes built on it; it is one field here.
    The setter notifies "ImageSource", and the parameter classes raise
    "OverlaySource" themselves after anything that may change the image. */
module ParameterBase {
  import opened Common

  const NameEvent: string := "Name"
  const SupportedEvent: string := "Supported"
  const ModifiableEvent: string := "Modifiable"
  /** The image setter's own notification. */
  const ImageSourceEvent: string := "ImageSource"
  /** The notification ArrayParameter and RangeParameter raise by hand after
      the image may have changed. */
  const OverlayEvent: string := "OverlaySource"

  /** The observable state of one parameter object. `listening` says whether
      `PropertyChanged` has a subscriber; `log` is the sequence of property
      names that subscribers have been notified of. */
  datatype Base = Base(
    name: string,
    supported: bool,
    modifiable: bool,
    overlay: bool,
    image: Option<string>,
    listening: bool,
    log: seq<string>)

  /** NotifyPropertyChanged for a sequence of names: delivered only when
      somebody subscribed, otherwise nothing happens. */
  function Emit(b: Base, names: seq<string>): (log: seq<string>)
    ensures b.listening ==> log == b.log + names
    ensures !b.listening ==> log == b.log
  {
    if b.listening then b.log + names else b.log
  }

  /** The overlay rule: a parameter that is not overlay-capable never holds an image. */
  predicate OverlayRule(b: Base) {
    !b.overlay ==> b.image.None?
  }

  /** A freshly constructed parameter: both flags start true, no image and
      nobody listening yet. */
  function NewBase(name: string, overlay: bool): (b: Base)
    ensures b.name == name && b.overlay == overlay
    ensures b.supported && b.modifiable
    ensures b.image.None? && OverlayRule(b)
    ensures !b.listening && b.log == []
  {
    Base(name, true, true, overlay, None, false, [])
  }

  /** A subscriber attaches to `PropertyChanged`. */
  function Subscribe(b: Base): (r: Base)
    ensures r.listening
    ensures r.(listening := b.listening) == b
  {
    b.(listening := true)
  }

  /** The `Name` setter: stores the name and notifies "Name". */
  function SetName(b: Base, name: string): (r: Base)
    ensures r.name == name
    ensures r.log == Emit(b, [NameEvent])
    ensures r.(name := b.name, log := b.log) == b
  {
    b.(name := name, log := Emit(b, [NameEvent]))
  }

  /** The `Supported` setter: stores and notifies, even when the value is unchanged. */
  function SetSupported(b: Base, v: bool): (r: Base)
    ensures r.supported == v
    ensures r.log == Emit(b, [SupportedEvent])
    ensures r.(supported := b.supported, log := b.log) == b
  {
    b.(supported := v, log := Emit(b, [SupportedEvent]))
  }

  /** The `Modifiable` setter: stores and notifies, even when the value is unchanged. */
  function SetModifiable(b: Base, v: bool): (r: Base)
    ensures r.modifiable == v
    ensures r.log == Emit(b, [ModifiableEvent])
    ensures r.(modifiable := b.modifiable, log := b.log) == b
  {
    b.(modifiable := v, log := Emit(b, [ModifiableEvent]))
  }

  /** The image getter: an overlay parameter without an image reads as "". */
  function ImageSource(b: Base): (r: Option<string>)
    ensures b.overlay ==> r.Some?
    ensures OverlayRule(b) && !b.overlay ==> r.None?
    ensures b.image.Some? ==> r == b.image
  {
    if b.image.None? && b.overlay then Some("") else b.image
  }

  /** The image setter. On an overlay parameter `null` is stored as "" and the
      change is notified; on any other parameter a non-null image throws
      ArgumentException and `null` is silently ignored. */
  function SetImageSource(b: Base, v: Option<string>): (r: Outcome<Base>)
    ensures b.overlay ==> r.Returned? && r.state.image == Some(v.GetOr(""))
    ensures b.overlay ==> r.state.log == Emit(b, [ImageSourceEvent])
    ensures !b.overlay && v.Some? ==> r == Threw(b, ArgumentError)
    ensures !b.overlay && v.None? ==> r == Returned(b)
    ensures r.state.(image := b.image, log := b.log) == b
  {
    if b.overlay then
      Returned(b.(image := Some(if v.None? then "" else v.value), log := Emit(b, [ImageSourceEvent])))
    else if v.Some? then
      Threw(b, ArgumentError)
    else
      Returned(b)
  }

  /** Whatever the image setter is given, the overlay rule keeps holding, and an
      overlay parameter reads back exactly the image it was given ("" for null). */
  lemma SetImageSourceKeepsRule(b: Base, v: Option<string>)
    requires OverlayRule(b)
    ensures OverlayRule(SetImageSource(b, v).state)
    ensures b.overlay ==> ImageSource(SetImageSource(b, v).state) == Some(v.GetOr(""))
    ensures !b.overlay ==> ImageSource(SetImageSource(b, v).state).None?
  {
  }

  /** The base `SetDefault` is not implemented: it always throws and changes nothing. */
  function BaseSetDefault(b: Base): (r: Outcome<Base>)
    ensures r.Threw? && r.error == NotImplemented
    ensures r.state == b
  {
    Threw(b, NotImplemented)
  }
}
