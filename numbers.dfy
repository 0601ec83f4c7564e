/** 64-bit integers (C#'s `long`): range, `long.ToString()` and `long.Parse`. */
module Numbers {
  import opened Wrappers

  const MinLong: int := -0x8000_0000_0000_0000
  const MaxLong: int := 0x7FFF_FFFF_FFFF_FFFF

  predicate InLong(x: int) { MinLong <= x <= MaxLong }

  /** An exact result brought back into 64 bits, as unchecked `long` arithmetic does (two's complement). */
  function WrapLong(v: int): (r: int)
    ensures InLong(r)
    ensures InLong(v) ==> r == v
  {
    (v - MinLong) % 0x1_0000_0000_0000_0000 + MinLong
  }

  /** Unary minus on `long` in an unchecked context: long.MinValue negates to itself. */
  function NegateLong(x: int): (r: int)
    ensures InLong(r)
    ensures InLong(x) && x != MinLong ==> r == -x
    ensures x == MinLong ==> r == MinLong
  {
    WrapLong(0 - x)
  }

  /** Negating a `long` twice gives it back, long.MinValue included. */
  lemma NegateLongTwice(x: int)
    requires InLong(x)
    ensures NegateLong(NegateLong(x)) == x
  {
  }

  predicate IsDigit(c: char) { '0' <= c <= '9' }

  predicate AllDigits(s: string) { forall i :: 0 <= i < |s| ==> IsDigit(s[i]) }

  function DigitChar(d: nat): (c: char)
    requires d < 10
    ensures IsDigit(c)
  {
    ('0' as int + d) as char
  }

  function DigitValue(c: char): nat
    requires IsDigit(c)
  {
    c as int - '0' as int
  }

  /** Decimal digits of a natural number, most significant first, no leading zeros. */
  function NatToString(n: nat): (s: string)
    ensures |s| > 0 && AllDigits(s)
    decreases n
  {
    if n < 10 then [DigitChar(n)] else NatToString(n / 10) + [DigitChar(n % 10)]
  }

  /** `long.ToString()` in the invariant culture. */
  function LongToString(x: int): (s: string)
    ensures |s| > 0
  {
    if x < 0 then "-" + NatToString(-x) else NatToString(x)
  }

  /** The value of a string of decimal digits. */
  function DigitsValue(s: string): nat
    requires AllDigits(s)
  {
    if s == [] then 0 else DigitsValue(s[..|s| - 1]) * 10 + DigitValue(s[|s| - 1])
  }

  /** The white space `NumberStyles.Integer` allows around a number. */
  predicate IsWhite(c: char) { c == ' ' || '\U{9}' <= c <= '\U{D}' }

  function TrimStart(s: string): (t: string)
    ensures |t| <= |s|
  {
    if s != [] && IsWhite(s[0]) then TrimStart(s[1..]) else s
  }

  function TrimEnd(s: string): (t: string)
    ensures |t| <= |s|
  {
    if s != [] && IsWhite(s[|s| - 1]) then TrimEnd(s[..|s| - 1]) else s
  }

  /**
   * `long.Parse(s)` with the default `NumberStyles.Integer`: optional white space around an
   * optional sign and at least one digit; a value outside the 64-bit range overflows.
   * None stands for the FormatException or OverflowException it throws.
   */
  function ParseLong(s: string): (r: Option<int>)
    ensures r.Some? ==> InLong(r.value)
  {
    var t := TrimEnd(TrimStart(s));
    var negative := |t| > 0 && t[0] == '-';
    var digits := if |t| > 0 && (t[0] == '-' || t[0] == '+') then t[1..] else t;
    if digits == [] || !AllDigits(digits) then None
    else
      var v: int := if negative then 0 - (DigitsValue(digits) as int) else DigitsValue(digits);
      if InLong(v) then Some(v) else None
  }

  lemma {:induction false} DigitsOfNat(n: nat)
    ensures DigitsValue(NatToString(n)) == n
    decreases n
  {
    var s := NatToString(n);
    if n >= 10 {
      DigitsOfNat(n / 10);
      assert s[..|s| - 1] == NatToString(n / 10);
    }
  }

  /** Parsing what `long.ToString()` printed gives the number back. */
  lemma ParseOfToString(x: int)
    requires InLong(x)
    ensures ParseLong(LongToString(x)) == Some(x)
  {
    var s := LongToString(x);
    assert IsDigit(s[|s| - 1]);
    assert TrimStart(s) == s by {
      assert s[0] == '-' || IsDigit(s[0]);
    }
    assert TrimEnd(s) == s;
    if x < 0 {
      assert s[1..] == NatToString(-x);
      DigitsOfNat(-x);
    } else {
      DigitsOfNat(x);
    }
  }
}
