/** `Extensions.EnumerationToParameterName`: a scan over an enumeration name
    that was meant to split it into words. Strings are immutable and the
    results of `Remove` and `Insert` are thrown away, so the name comes back
    exactly as it went in; what the scan does observably is which positions it
    reads and the bounds it respects. */
module Extensions {

  /** String.Remove(i, n): throws ArgumentOutOfRangeException unless the
      removed span lies inside the string. */
  function Remove(s: string, i: nat, n: nat): (r: string)
    requires i + n <= |s|
    ensures |r| == |s| - n
    ensures r[..i] == s[..i] && r[i..] == s[i + n..]
  {
    s[..i] + s[i + n..]
  }

  /** String.Insert(i, t): throws unless 0 <= i <= Length. */
  function Insert(s: string, i: nat, t: string): (r: string)
    requires i <= |s|
    ensures |r| == |s| + |t|
    ensures r[..i] == s[..i] && r[i..i + |t|] == t && r[i + |t|..] == s[i..]
  {
    s[..i] + t + s[i..]
  }

  /** Whether the scan treats a character as the start of a word. */
  predicate IsUpper(c: char) {
    'A' <= c <= 'Z'
  }

  /** How far the index moves past a position: one more on an upper-case letter,
      because of the `i++` inside the Insert call. */
  function Step(c: char): (n: nat)
    ensures 1 <= n <= 2
    ensures n == 2 <==> IsUpper(c)
  {
    if IsUpper(c) then 2 else 1
  }

  /** The positions the scan reads, starting from position `i`. */
  function Visits(name: string, i: nat): (v: seq<nat>)
    ensures forall k :: 0 <= k < |v| ==> i <= v[k] < |name|
    ensures |v| == 0 <==> i >= |name|
    ensures |v| > 0 ==> v[0] == i
    decreases |name| - i
  {
    if i < |name| then [i] + Visits(name, i + Step(name[i])) else []
  }

  /** Each position read is followed by the one the step leads to, so the
      positions strictly increase and at most one position is skipped at a time. */
  lemma {:induction false} VisitsStep(name: string, i: nat)
    ensures forall k :: 0 <= k < |Visits(name, i)| - 1 ==>
              Visits(name, i)[k + 1] == Visits(name, i)[k] + Step(name[Visits(name, i)[k]])
    decreases |name| - i
  {
    if i < |name| {
      var v := Visits(name, i);
      var rest := Visits(name, i + Step(name[i]));
      VisitsStep(name, i + Step(name[i]));
      assert v == [i] + rest;
      forall k | 0 <= k < |v| - 1
        ensures v[k + 1] == v[k] + Step(name[v[k]])
      {
        if k > 0 {
          assert v[k] == rest[k - 1] && v[k + 1] == rest[k];
        } else {
          assert v[1] == rest[0];
        }
      }
    }
  }

  /** EnumerationToParameterName over the name's string form. It returns the
      name itself, and reports the positions the loop read: exactly the visits
      from position 1, all inside [1, |name|), each one or two past the last. */
  method EnumerationToParameterName(name: string) returns (r: string, scanned: seq<nat>)
    ensures r == name && |r| == |name|
    ensures scanned == Visits(name, 1)
    ensures forall k :: 0 <= k < |scanned| ==> 1 <= scanned[k] < |name|
    ensures forall k :: 0 <= k < |scanned| - 1 ==> scanned[k + 1] == scanned[k] + Step(name[scanned[k]])
  {
    var i: nat := 1;
    scanned := [];
    while i < |name|
      invariant 1 <= i
      invariant scanned + Visits(name, i) == Visits(name, 1)
      decreases |name| - i
    {
      var c := name[i];
      scanned := scanned + [i];
      if IsUpper(c) {
        var _ := Remove(name, i, 1);
        var _ := Insert(name, i, [(c as int + 0x30) as char]);
        i := i + 1;
        var _ := Insert(name, i, " ");
      }
      i := i + 1;
    }
    VisitsStep(name, 1);
    r := name;
  }

  /** A name with no upper-case letter after its first character is read at
      every position from 1 on. */
  lemma {:induction false} LowerTailReadsAll(name: string, i: nat)
    requires forall j :: 1 <= j < |name| ==> !IsUpper(name[j])
    requires 1 <= i
    ensures |Visits(name, i)| == if i < |name| then |name| - i else 0
    decreases |name| - i
  {
    if i < |name| {
      LowerTailReadsAll(name, i + 1);
    }
  }

  /** "SceneMode" reads positions 1 to 5, skips 6 after the capital M, and reads 7 and 8. */
  lemma SceneModeExample()
    ensures Visits("SceneMode", 1) == [1, 2, 3, 4, 5, 7, 8]
  {
  }
}
