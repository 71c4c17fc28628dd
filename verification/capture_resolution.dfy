/** `CaptureResolution`: a width and height in pixels (two UInt32 fields),
    with value equality against any object and the text "W x H". */
module Resolutions {
  import opened Common

  datatype CaptureResolution = CaptureResolution(width: uint32, height: uint32)

  /** The constructor stores both dimensions unchanged. */
  function NewResolution(width: uint32, height: uint32): (r: CaptureResolution)
    ensures r.width == width && r.height == height
  {
    CaptureResolution(width, height)
  }

  /** What `Equals` can be handed: null, another resolution, or an object of a
      different type (identified by its reference). */
  datatype Object = Null | Resolution(res: CaptureResolution) | OtherObject(reference: nat)

  /** Equals: field equality for a resolution, otherwise the reference
      equality of object.Equals, which neither null nor an object of another
      type can satisfy. */
  function EqualsObject(r: CaptureResolution, obj: Object): (b: bool)
    ensures b <==> obj.Resolution? && obj.res.width == r.width && obj.res.height == r.height
  {
    match obj
    case Resolution(other) => other.width == r.width && other.height == r.height
    case _ => false
  }

  /** Equals between resolutions is an equivalence: reflexive, symmetric, transitive. */
  lemma EqualsEquivalence(a: CaptureResolution, b: CaptureResolution, c: CaptureResolution)
    ensures EqualsObject(a, Resolution(a))
    ensures EqualsObject(a, Resolution(b)) == EqualsObject(b, Resolution(a))
    ensures EqualsObject(a, Resolution(b)) && EqualsObject(b, Resolution(c)) ==> EqualsObject(a, Resolution(c))
    ensures EqualsObject(a, Resolution(b)) <==> a == b
  {
  }

  /** ToString: `width + " x " + height`. */
  function Text(r: CaptureResolution): (s: string)
    ensures |s| >= 5
  {
    NatToString(r.width as nat) + " x " + NatToString(r.height as nat)
  }

  /** The position of the first space, if any. */
  function FirstSpace(s: string): (r: Option<nat>)
    ensures r.Some? ==> r.value < |s| && s[r.value] == ' ' && forall j :: 0 <= j < r.value ==> s[j] != ' '
    ensures r.None? ==> forall j :: 0 <= j < |s| ==> s[j] != ' '
  {
    if |s| == 0 then None
    else if s[0] == ' ' then Some(0)
    else
      var rest := FirstSpace(s[1..]);
      if rest.Some? then Some(rest.value + 1) else None
  }

  /** Reads "W x H" back: two runs of digits around the first " x ", each
      fitting a UInt32. */
  function ParseText(s: string): (r: Option<CaptureResolution>)
  {
    var k := FirstSpace(s);
    if k.None? || k.value + 3 > |s| || s[k.value..k.value + 3] != " x " then None
    else
      var w, h := s[..k.value], s[k.value + 3..];
      if !AllDigits(w) || !AllDigits(h) then None
      else
        var wn, hn := ParseDigits(w), ParseDigits(h);
        if wn < 0x1_0000_0000 && hn < 0x1_0000_0000 then Some(CaptureResolution(wn as uint32, hn as uint32)) else None
  }

  /** The first space of a digit run followed by " x " is right after the digits. */
  lemma FirstSpaceAfterDigits(d: string, t: string)
    requires AllDigits(d) && |t| > 0 && t[0] == ' '
    ensures FirstSpace(d + t) == Some(|d|)
  {
    var s := d + t;
    var k := FirstSpace(s);
    assert s[|d|] == ' ';
    assert forall j :: 0 <= j < |d| ==> s[j] == d[j] && s[j] != ' ';
  }

  /** The text of a resolution reads back as that resolution. */
  lemma TextRoundTrip(r: CaptureResolution)
    ensures ParseText(Text(r)) == Some(r)
  {
    var w, h := NatToString(r.width as nat), NatToString(r.height as nat);
    NatToStringRoundTrip(r.width as nat);
    NatToStringRoundTrip(r.height as nat);
    var s := Text(r);
    assert s == w + (" x " + h);
    FirstSpaceAfterDigits(w, " x " + h);
    assert s[..|w|] == w;
    assert s[|w|..|w| + 3] == " x ";
    assert s[|w| + 3..] == h;
  }

  /** Two resolutions have the same text exactly when they are Equal. */
  lemma TextIdentifies(a: CaptureResolution, b: CaptureResolution)
    ensures Text(a) == Text(b) <==> EqualsObject(a, Resolution(b))
  {
    if Text(a) == Text(b) {
      TextRoundTrip(a);
      TextRoundTrip(b);
    }
  }

  /** 640 by 480 reads "640 x 480". */
  lemma TextExample()
    ensures Text(CaptureResolution(640, 480)) == "640 x 480"
  {
  }
}
