/** The few JavaScript built-ins the CHIP-8 sources lean on: the element type of a
    Uint8Array, Number.prototype.toString(16) on non-negative integers, and
    String.prototype.toUpperCase on ASCII text. A hexadecimal parser is the partner
    against which the formatting is proved. */
module JsRuntime {

  /** An element of a Uint8Array. */
  type Byte = x: int | 0 <= x < 256

  predicate IsHexDigit(c: char) {
    '0' <= c <= '9' || 'a' <= c <= 'f' || 'A' <= c <= 'F'
  }

  predicate IsLowerHexDigit(c: char) {
    '0' <= c <= '9' || 'a' <= c <= 'f'
  }

  predicate IsUpperHexDigit(c: char) {
    '0' <= c <= '9' || 'A' <= c <= 'F'
  }

  predicate IsLowerLetter(c: char) {
    'a' <= c <= 'z'
  }

  predicate AllHex(s: string) {
    forall i :: 0 <= i < |s| ==> IsHexDigit(s[i])
  }

  predicate AllLowerHex(s: string) {
    forall i :: 0 <= i < |s| ==> IsLowerHexDigit(s[i])
  }

  predicate AllUpperHex(s: string) {
    forall i :: 0 <= i < |s| ==> IsUpperHexDigit(s[i])
  }

  /** The value of one hexadecimal digit, in either case. */
  function DigitValue(c: char): (d: nat)
    requires IsHexDigit(c)
    ensures d < 16
  {
    if '0' <= c <= '9' then c as int - '0' as int
    else if 'a' <= c <= 'f' then c as int - 'a' as int + 10
    else c as int - 'A' as int + 10
  }

  /** The lower-case digit that toString(16) writes for d. */
  function DigitChar(d: nat): (c: char)
    requires d < 16
    ensures IsLowerHexDigit(c) && DigitValue(c) == d
  {
    if d < 10 then ('0' as int + d) as char else ('a' as int + d - 10) as char
  }

  /** The number a string of hexadecimal digits denotes (most significant digit first). */
  function HexValue(s: string): nat
    requires AllHex(s)
  {
    if s == [] then 0 else HexValue(s[..|s| - 1]) * 16 + DigitValue(s[|s| - 1])
  }

  /** Number.prototype.toString(16) on a non-negative integer: lower-case digits, no
      leading zero, "0" for zero. */
  function ToHex(n: nat): (s: string)
    ensures 1 <= |s| && AllLowerHex(s)
    ensures HexValue(s) == n
    ensures |s| > 1 ==> s[0] != '0'
    ensures n < 16 <==> |s| == 1
    ensures n < 256 ==> |s| <= 2
    decreases n
  {
    if n < 16 then [DigitChar(n)]
    else
      var prefix := ToHex(n / 16);
      var s := prefix + [DigitChar(n % 16)];
      assert s[..|s| - 1] == prefix;
      s
  }

  /** String.prototype.toUpperCase on one character; only ASCII letters change. */
  function UpperChar(c: char): (u: char)
    ensures !IsLowerLetter(u)
    ensures IsLowerLetter(c) ==> u as int == c as int - 32
    ensures !IsLowerLetter(c) ==> u == c
  {
    if 'a' <= c <= 'z' then (c as int - 32) as char else c
  }

  /** String.prototype.toUpperCase on ASCII text. */
  function Upper(s: string): (r: string)
    ensures |r| == |s|
    ensures forall i :: 0 <= i < |s| ==> r[i] == UpperChar(s[i])
    decreases |s|
  {
    if s == [] then [] else [UpperChar(s[0])] + Upper(s[1..])
  }

  lemma {:induction false} UpperAppend(a: string, b: string)
    ensures Upper(a + b) == Upper(a) + Upper(b)
  {
    var l, r := Upper(a + b), Upper(a) + Upper(b);
    assert |l| == |r|;
    forall i | 0 <= i < |l| ensures l[i] == r[i] {
      if i < |a| {
        assert (a + b)[i] == a[i];
      } else {
        assert (a + b)[i] == b[i - |a|];
      }
    }
  }

  /** Text without lower-case letters is its own upper case. */
  lemma UpperKeepsNonLower(s: string)
    requires forall i :: 0 <= i < |s| ==> !IsLowerLetter(s[i])
    ensures Upper(s) == s
  {
    assert forall i :: 0 <= i < |s| ==> Upper(s)[i] == s[i];
  }

  lemma UpperIdempotent(s: string)
    ensures Upper(Upper(s)) == Upper(s)
  {
    UpperKeepsNonLower(Upper(s));
  }

  /** Upper-casing a hexadecimal string changes neither its digits' status nor its value. */
  lemma {:induction false} UpperHexValue(s: string)
    requires AllHex(s)
    ensures AllHex(Upper(s)) && HexValue(Upper(s)) == HexValue(s)
    decreases |s|
  {
    var u := Upper(s);
    if s != [] {
      var n := |s| - 1;
      assert Upper(s[..n]) == u[..n];
      UpperHexValue(s[..n]);
      assert DigitValue(u[n]) == DigitValue(s[n]);
    }
  }

  /** Appending digits: the value of a + b is that of a shifted left by |b| digits, plus
      that of b. */
  lemma {:induction false} HexValueAppend(a: string, b: string)
    requires AllHex(a) && AllHex(b)
    ensures AllHex(a + b)
    ensures HexValue(a + b) == ShiftDigits(HexValue(a), |b|) + HexValue(b)
    decreases |b|
  {
    var s := a + b;
    if b != [] {
      var n := |b| - 1;
      assert s[..|s| - 1] == a + b[..n];
      HexValueAppend(a, b[..n]);
    } else {
      assert s == a;
    }
  }

  /** v followed by k zero digits. */
  function ShiftDigits(v: nat, k: nat): nat {
    if k == 0 then v else ShiftDigits(v, k - 1) * 16
  }
}
