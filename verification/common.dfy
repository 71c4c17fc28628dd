/** Shared vocabulary of the camera parameter model: optional values, the
    exceptions the C# code can raise, call outcomes that keep the object state
    reached before an exception, fixed-width integers and decimal text. */
module Common {

  /** A value that may be C# `null`. */
  datatype Option<+T> = None | Some(value: T) {
    function GetOr(default: T): T {
      match this
      case Some(v) => v
      case None => default
    }
  }

  /** The exception kinds the modelled code raises or catches. */
  datatype Error =
    | ArgumentError        // ArgumentException
    | NotImplemented       // NotImplementedException
    | NullReference        // NullReferenceException
    | DeviceFailure        // any exception thrown by the camera device
    | RangeCollapsed       // the parser's "range min is equal to range max"
    | InvalidCast          // InvalidCastException of an unboxing cast

  /** A function that either returns a value or throws. */
  datatype Result<+T> = Success(value: T) | Failure(error: Error)

  /** The state an object is left in by a call that either returns or throws:
      C# mutates fields in place, so a throw does not roll back earlier writes. */
  datatype Outcome<+S> = Returned(state: S) | Threw(state: S, error: Error)

  newtype uint32 = x: int | 0 <= x < 0x1_0000_0000

  const Int32Min: int := -0x8000_0000
  const Int32Max: int := 0x7fff_ffff

  /** Two's-complement wrap-around of an unchecked Int32 operation. */
  function WrapInt32(x: int): (r: int)
    ensures Int32Min <= r <= Int32Max
    ensures (r - x) % 0x1_0000_0000 == 0
    ensures Int32Min <= x <= Int32Max ==> r == x
  {
    var m := (x - Int32Min) % 0x1_0000_0000;
    m + Int32Min
  }

  /** Modular wrap-around of an unchecked UInt32 operation. */
  function WrapUInt32(x: int): (r: uint32)
    ensures (r as int - x) % 0x1_0000_0000 == 0
    ensures 0 <= x < 0x1_0000_0000 ==> r as int == x
  {
    (x % 0x1_0000_0000) as uint32
  }

  /** C# integer division, which truncates toward zero (Dafny's `/` is Euclidean). */
  function DivTrunc(a: int, b: int): (q: int)
    requires b != 0
    ensures 0 <= a && 0 < b ==> q == a / b
    ensures a < 0 && 0 < b ==> q == -((-a) / b)
  {
    if (a < 0) == (b < 0) then
      (if a < 0 then -a else a) / (if b < 0 then -b else b)
    else
      -((if a < 0 then -a else a) / (if b < 0 then -b else b))
  }

  // ---------------------------------------------------------------------
  // Decimal text, as produced by .NET's ToString() of an unsigned integer.

  predicate IsDigit(c: char) {
    '0' <= c <= '9'
  }

  predicate AllDigits(s: string) {
    forall i :: 0 <= i < |s| ==> IsDigit(s[i])
  }

  function DigitChar(d: nat): (c: char)
    requires d < 10
    ensures IsDigit(c)
  {
    ('0' as int + d) as char
  }

  /** Decimal representation without sign or leading zeros. */
  function NatToString(n: nat): (s: string)
    ensures |s| >= 1
    decreases n
  {
    if n < 10 then [DigitChar(n)] else NatToString(n / 10) + [DigitChar(n % 10)]
  }

  /** Reads back a string of decimal digits. */
  function ParseDigits(s: string): nat
    requires AllDigits(s)
  {
    if |s| == 0 then 0
    else ParseDigits(s[..|s| - 1]) * 10 + (s[|s| - 1] as int - '0' as int)
  }

  /** The decimal text of `n` consists of digits only and reads back as `n`. */
  lemma {:induction false} NatToStringRoundTrip(n: nat)
    ensures AllDigits(NatToString(n))
    ensures ParseDigits(NatToString(n)) == n
    decreases n
  {
    if n >= 10 {
      NatToStringRoundTrip(n / 10);
      var s := NatToString(n);
      var prefix := NatToString(n / 10);
      assert s == prefix + [DigitChar(n % 10)];
      assert s[..|s| - 1] == prefix;
    }
  }

  /** Distinct numbers never share a decimal label. */
  lemma NatToStringInjective(a: nat, b: nat)
    requires NatToString(a) == NatToString(b)
    ensures a == b
  {
    NatToStringRoundTrip(a);
    NatToStringRoundTrip(b);
  }

  /** ASCII lower-casing (.NET's ToLower restricted to the characters that
      occur in enum names and camera ids). */
  function LowerChar(c: char): char {
    if 'A' <= c <= 'Z' then (c as int + 32) as char else c
  }

  function ToLower(s: string): (r: string)
    ensures |r| == |s|
    ensures forall i :: 0 <= i < |s| ==> r[i] == LowerChar(s[i])
  {
    seq(|s|, i requires 0 <= i < |s| => LowerChar(s[i]))
  }
}
