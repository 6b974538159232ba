/** The pieces of the JavaScript runtime that the client's arithmetic and string
    building rely on: the ToInt32 conversion of the bitwise operators, the rendering
    of a non-negative integer by Number.prototype.toString(radix), the rendering of
    an integral number in a template literal, and the UTF-16 code units that
    String.prototype.charCodeAt reads. */
module JsRuntime {

  import opened Wrappers

  const TwoTo31: int := 0x8000_0000
  const TwoTo32: int := 0x1_0000_0000

  predicate IsInt32(x: int) {
    -TwoTo31 <= x < TwoTo31
  }

  /** ECMAScript ToInt32 on an integral number: the signed 32-bit value congruent
      to x modulo 2^32. */
  function ToInt32(x: int): (r: int)
    ensures IsInt32(r)
    ensures (x - r) % TwoTo32 == 0
  {
    var m := (x + TwoTo31) % TwoTo32;
    assert x + TwoTo31 == TwoTo32 * ((x + TwoTo31) / TwoTo32) + m;
    m - TwoTo31
  }

  /** ToInt32 depends only on the residue of its argument modulo 2^32. */
  lemma ToInt32Congruent(x: int, y: int)
    requires (x - y) % TwoTo32 == 0
    ensures ToInt32(x) == ToInt32(y)
  {
  }

  /** `x << 5`: both operands go through ToInt32 and the product is cut back to 32 bits. */
  function ShiftLeft5(x: int): (r: int)
    ensures IsInt32(r)
  {
    ToInt32(ToInt32(x) * 32)
  }

  // ---------------------------------------------------------------------------
  // Number.prototype.toString(radix) on non-negative integers

  /** The digit character for d, lower-case letters above 9. */
  function DigitChar(d: nat): (c: char)
    requires d < 36
    ensures DigitValue(c) == d
  {
    if d < 10 then ('0' as int + d) as char else ('a' as int + (d - 10)) as char
  }

  /** The value of a digit character, 36 for a character that is no digit. */
  function DigitValue(c: char): nat {
    if '0' <= c <= '9' then c as int - '0' as int
    else if 'a' <= c <= 'z' then c as int - 'a' as int + 10
    else 36
  }

  predicate IsDigitIn(c: char, radix: nat) {
    DigitValue(c) < radix
  }

  predicate AllDigitsIn(s: string, radix: nat) {
    forall i :: 0 <= i < |s| ==> IsDigitIn(s[i], radix)
  }

  /** `n.toString(radix)` for a non-negative integer n: most significant digit first,
      lower-case, no sign and no leading zero. */
  function RadixString(n: nat, radix: nat): (s: string)
    requires 2 <= radix <= 36
    ensures |s| >= 1
    ensures AllDigitsIn(s, radix)
    ensures s[0] == '0' ==> n == 0 && |s| == 1
    decreases n
  {
    if n < radix then [DigitChar(n)]
    else
      DivMod(n, radix);
      RadixString(n / radix, radix) + [DigitChar(n % radix)]
  }

  lemma DivMod(n: nat, radix: nat)
    requires 2 <= radix <= n
    ensures 0 < n / radix < n && 0 <= n % radix < radix
    ensures n == (n / radix) * radix + n % radix
  {
  }

  /** The value of a string of digits in the given radix, read most significant first. */
  function DigitsValue(s: string, radix: nat): nat
    requires AllDigitsIn(s, radix)
  {
    if s == [] then 0
    else DigitsValue(s[..|s| - 1], radix) * radix + DigitValue(s[|s| - 1])
  }

  /** Reads a non-empty string of digits in the given radix back into a number. */
  function ParseRadix(s: string, radix: nat): (r: Option<nat>)
    ensures r.Some? <==> |s| > 0 && AllDigitsIn(s, radix)
  {
    if |s| > 0 && AllDigitsIn(s, radix) then Some(DigitsValue(s, radix)) else None
  }

  /** Reading back what RadixString writes gives the number it was given. */
  lemma {:induction false} RadixStringRoundTrip(n: nat, radix: nat)
    requires 2 <= radix <= 36
    ensures ParseRadix(RadixString(n, radix), radix) == Some(n)
    decreases n
  {
    var s := RadixString(n, radix);
    if n < radix {
      assert s[..|s| - 1] == [];
      assert DigitsValue(s, radix) == DigitValue(DigitChar(n));
    } else {
      DivMod(n, radix);
      RadixStringRoundTrip(n / radix, radix);
      assert s[..|s| - 1] == RadixString(n / radix, radix);
      assert DigitsValue(s, radix) == (n / radix) * radix + n % radix;
    }
  }

  /** Different numbers have different renderings in a given radix. */
  lemma RadixStringInjective(a: nat, b: nat, radix: nat)
    requires 2 <= radix <= 36
    requires RadixString(a, radix) == RadixString(b, radix)
    ensures a == b
  {
    RadixStringRoundTrip(a, radix);
    RadixStringRoundTrip(b, radix);
  }

  /** An integral number in a template literal or a string concatenation:
      a minus sign for a negative value, then its decimal digits. */
  function IntToString(x: int): (s: string)
    ensures |s| >= 1
    ensures x >= 0 ==> s == RadixString(x, 10)
    ensures x < 0 ==> s[0] == '-' && s[1..] == RadixString(-x, 10)
  {
    if x < 0 then "-" + RadixString(-x, 10) else RadixString(x, 10)
  }

  // ---------------------------------------------------------------------------
  // UTF-16 code units

  /** The UTF-16 code units of one character: the character itself below 0x10000,
      a surrogate pair above. */
  function Utf16(c: char): (u: seq<int>)
    ensures 1 <= |u| <= 2
    ensures forall i :: 0 <= i < |u| ==> 0 <= u[i] < 0x1_0000
    ensures |u| == 1 <==> c as int < 0x1_0000
    ensures |u| == 1 ==> u[0] == c as int
    ensures |u| == 2 ==> 0xD800 <= u[0] < 0xDC00 <= u[1] < 0xE000
    ensures |u| == 2 ==> (u[0] - 0xD800) * 0x400 + (u[1] - 0xDC00) + 0x1_0000 == c as int
  {
    var v := c as int;
    if v < 0x1_0000 then [v]
    else [0xD800 + (v - 0x1_0000) / 0x400, 0xDC00 + (v - 0x1_0000) % 0x400]
  }

  /** The code units of a string, in order: what charCodeAt(i) returns for
      i = 0 .. length - 1. */
  function CodeUnits(s: string): (u: seq<int>)
    ensures |u| >= |s|
    ensures forall i :: 0 <= i < |u| ==> 0 <= u[i] < 0x1_0000
  {
    if s == [] then [] else Utf16(s[0]) + CodeUnits(s[1..])
  }

  /** The code units of a concatenation are those of its parts, in order. */
  lemma {:induction false} CodeUnitsConcat(s: string, t: string)
    ensures CodeUnits(s + t) == CodeUnits(s) + CodeUnits(t)
  {
    if s == [] {
      assert s + t == t;
    } else {
      assert (s + t)[1..] == s[1..] + t;
      CodeUnitsConcat(s[1..], t);
    }
  }

  /** A string of characters below 0x10000 has one code unit per character,
      equal to the character's code. */
  lemma {:induction false} CodeUnitsBmp(s: string)
    requires forall i :: 0 <= i < |s| ==> s[i] as int < 0x1_0000
    ensures |CodeUnits(s)| == |s|
    ensures forall i :: 0 <= i < |s| ==> CodeUnits(s)[i] == s[i] as int
  {
    if s != [] {
      CodeUnitsBmp(s[1..]);
    }
  }
}
