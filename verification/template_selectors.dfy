/** The two template selectors of the settings and viewfinder pages: which
    control a parameter is shown with, and whether it is drawn with its
    overlay image. */
module Templates {
  import opened Common
  import opened Device
  import opened ParameterBase
  import opened RangeParameters
  import opened ArrayParameters
  import ArrayCatalog
  import opened Registry

  /** What a content control can be given: nothing, some object that is not a
      parameter, or a parameter. */
  datatype Item = NullItem | OtherItem | ParamItem(param: Param)

  /** The three templates of the settings list. */
  datatype SettingsTemplate = ArrayTemplate | RangeTemplate | UnsupportedTemplate

  /** The two templates of the overlay area. */
  datatype OverlayTemplate = WithOverlay | WithoutOverlay

  /** A parameter is listed with an editing control only when it is both
      supported and modifiable. */
  predicate Editable(p: Param) {
    BaseOf(p).supported && BaseOf(p).modifiable
  }

  /** SettingsTemplateSelector.SelectTemplate. The item is cast with `as` and
      dereferenced without a null check, so a null item or one that is not a
      parameter throws NullReferenceException. */
  function SelectSettingsTemplate(item: Item): (r: Result<SettingsTemplate>)
    ensures r.Failure? <==> !item.ParamItem?
    ensures r.Failure? ==> r.error == NullReference
    ensures r.Success? ==> (r.value == UnsupportedTemplate <==> !Editable(item.param))
    ensures r.Success? ==> (r.value == ArrayTemplate <==> Editable(item.param) && item.param.ArrayP?)
    ensures r.Success? ==> (r.value == RangeTemplate <==> Editable(item.param) && item.param.RangeP?)
  {
    match item
    case ParamItem(p) =>
      if Editable(p) then
        if p.ArrayP? then Success(ArrayTemplate) else Success(RangeTemplate)
      else Success(UnsupportedTemplate)
    case _ => Failure(NullReference)
  }

  /** OverlayTemplateSelector.SelectTemplate: the overlay template exactly for
      a parameter whose overlay image reads as non-null, "" included. */
  function SelectOverlayTemplate(item: Item): (r: OverlayTemplate)
    ensures r == WithOverlay <==> item.ParamItem? && ImageSource(BaseOf(item.param)).Some?
  {
    match item
    case ParamItem(p) => if ImageSource(BaseOf(p)).Some? then WithOverlay else WithoutOverlay
    case _ => WithoutOverlay
  }

  /** A content control: its current content and the template last chosen for it. */
  datatype Presenter<T> = Presenter(content: Item, template: Option<T>)

  /** SettingsTemplateSelector.OnContentChanged: the control already holds the
      new content; the template is chosen from it, and when the selector throws
      the template keeps its previous value and the exception escapes. */
  function OnSettingsContentChanged(c: Presenter<SettingsTemplate>, item: Item): (r: Outcome<Presenter<SettingsTemplate>>)
    ensures r.state.content == item
    ensures r.Returned? <==> item.ParamItem?
    ensures r.Returned? ==> r.state.template == Some(SelectSettingsTemplate(item).value)
    ensures r.Threw? ==> r.state.template == c.template && r.error == NullReference
  {
    var selected := SelectSettingsTemplate(item);
    if selected.Success? then Returned(Presenter(item, Some(selected.value)))
    else Threw(Presenter(item, c.template), selected.error)
  }

  /** OverlayTemplateSelector.OnContentChanged: the template always follows the new content. */
  function OnOverlayContentChanged(c: Presenter<OverlayTemplate>, item: Item): (r: Presenter<OverlayTemplate>)
    ensures r.content == item && r.template.Some?
    ensures r.template.value == WithOverlay <==> item.ParamItem? && ImageSource(BaseOf(item.param)).Some?
  {
    Presenter(item, Some(SelectOverlayTemplate(item)))
  }

  /** For a parameter that keeps its family's invariant the overlay template is
      chosen exactly for the overlay-capable parameters: those always read an
      image, and the others never hold one. */
  lemma {:induction false} OverlayIffCapable(p: Param)
    requires ParamValid(p)
    ensures SelectOverlayTemplate(ParamItem(p)) == WithOverlay <==> BaseOf(p).overlay
    ensures BaseOf(p).overlay ==> p.ArrayP? && OverlayKind(p.asArray.kind)
  {
    match p
    case ArrayP(a) =>
      assert OverlayRule(a.base);
    case RangeP(q) =>
      assert !q.base.overlay;
  }

  /** After an array refresh the editing control is shown exactly when the
      device offered more than one option, and the parameter is never shown
      with the range control. */
  lemma ArrayShownIffChoice(p: ArrayParam, o: Oracle<Value>)
    requires Valid(p)
    ensures var r := ArrayCatalog.Refresh(p, o);
            && (SelectSettingsTemplate(ParamItem(ArrayP(r))) == Success(ArrayTemplate) <==> |r.options| > 1 && r.base.supported)
            && SelectSettingsTemplate(ParamItem(ArrayP(r))) != Success(RangeTemplate)
  {
  }

  /** After a range refresh the editing control is shown exactly when the
      device property is readable and its range holds more than one value. */
  lemma RangeShownIffSpan(p: RangeParam, o: Oracle<int>)
    requires Typed(p)
    ensures var shown := SelectSettingsTemplate(ParamItem(RangeP(RangeParameters.Refresh(p, o))));
            shown == Success(RangeTemplate) <==> Readable(p.kind, o) && o.range.value.min != o.range.value.max
  {
  }

  /** Which catalog positions hold an overlay-capable parameter. */
  const CatalogOverlays: seq<bool> :=
    [true, true, false, false, true, false, true, false, false, true, false, false]

  /** The catalog entries are overlay-capable exactly at those positions. */
  lemma CatalogOverlayFlags(c: Camera)
    ensures var ps := Catalog(c);
            forall i :: 0 <= i < |ps| ==> BaseOf(ps[i]).overlay == CatalogOverlays[i]
  {
  }

  /** In the freshly built registry the overlay template goes to scene mode,
      white-balance preset, flash mode, ISO and exposure time, and to no other
      entry. */
  lemma RegistryOverlays(s: Settings, c: Camera)
    ensures var ps := Registry.Refresh(s, Some(c)).state.parameters;
            forall i :: 0 <= i < |ps| ==>
              (SelectOverlayTemplate(ParamItem(ps[i])) == WithOverlay <==> CatalogOverlays[i])
  {
    var ps := Registry.Refresh(s, Some(c)).state.parameters;
    CatalogOverlayFlags(c);
    forall i | 0 <= i < |ps|
      ensures SelectOverlayTemplate(ParamItem(ps[i])) == WithOverlay <==> CatalogOverlays[i]
    {
      OverlayIffCapable(ps[i]);
    }
  }
}
