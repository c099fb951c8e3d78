/** The few JavaScript built-ins the dashboard's logic relies on, stated over
    Dafny strings: `parseInt` (decimal only), `String.prototype.toLowerCase`,
    `String.prototype.includes` and the decimal text of an integral Number. */
module Js {

  datatype Option<T> = None | Some(value: T)

  /** The result of `parseInt`: NaN, or an integral Number. */
  datatype JsInt = NaN | Num(value: int)

  predicate IsDigit(c: char) { '0' <= c <= '9' }

  predicate AllDigits(s: string) { forall i :: 0 <= i < |s| ==> IsDigit(s[i]) }

  function DigitValue(c: char): (d: nat)
    requires IsDigit(c)
    ensures d < 10
  {
    (c as int) - ('0' as int)
  }

  function DigitChar(d: nat): (c: char)
    requires d < 10
    ensures IsDigit(c) && DigitValue(c) == d
  {
    ('0' as int + d) as char
  }

  /** The white space `parseInt` skips before the number (the common part of
      the WhiteSpace and LineTerminator productions of ECMAScript). */
  predicate IsWhiteSpace(c: char)
  {
    c == ' ' || c == '\t' || c == '\n' || c == '\r' || c == '\U{B}' || c == '\U{C}'
    || c == '\U{A0}' || c == '\U{FEFF}' || c == '\U{2028}' || c == '\U{2029}'
  }

  /** Leading white space removed. */
  function TrimStart(s: string): (r: string)
    ensures r == [] || !IsWhiteSpace(r[0])
  {
    if s != [] && IsWhiteSpace(s[0]) then TrimStart(s[1..]) else s
  }

  /** The longest prefix of `s` made of decimal digits. */
  function LeadingDigits(s: string): (r: string)
    ensures |r| <= |s| && r == s[..|r|]
    ensures AllDigits(r)
    ensures |r| == |s| || !IsDigit(s[|r|])
  {
    if s != [] && IsDigit(s[0]) then [s[0]] + LeadingDigits(s[1..]) else []
  }

  /** The value of a digit string, read left to right as `parseInt` does. */
  function DigitsValue(ds: string): nat
    requires AllDigits(ds)
  {
    if ds == [] then 0 else DigitsValue(ds[..|ds| - 1]) * 10 + DigitValue(ds[|ds| - 1])
  }

  /** `parseInt(s)` with no radix: skip leading white space, take an optional
      sign, then the longest run of decimal digits; NaN when that run is empty.
      Everything after the run (a fraction, a unit) is ignored. */
  function ParseInt(s: string): JsInt
  {
    ParseSigned(TrimStart(s))
  }

  /** `parseInt` past the leading white space. */
  function ParseSigned(t: string): JsInt
  {
    var negative := t != [] && t[0] == '-';
    var unsigned := if t != [] && (t[0] == '-' || t[0] == '+') then t[1..] else t;
    var ds := LeadingDigits(unsigned);
    if ds == [] then NaN
    else if negative then Num(-(DigitsValue(ds) as int))
    else Num(DigitsValue(ds))
  }

  /** The decimal text of a natural number, as `String(n)` writes it. */
  function NatToDecimal(n: nat): (s: string)
    ensures s != [] && AllDigits(s)
    ensures s[0] == '0' ==> n == 0
  {
    if n < 10 then [DigitChar(n)] else NatToDecimal(n / 10) + [DigitChar(n % 10)]
  }

  /** The decimal text of an integral Number. */
  function IntToDecimal(n: int): (s: string)
    ensures s != []
    ensures n < 0 <==> s[0] == '-'
  {
    if n < 0 then "-" + NatToDecimal(-n) else NatToDecimal(n)
  }

  /** How a Number produced by `parseInt` prints in a template string. */
  function NumberToString(x: JsInt): string
  {
    match x
    case NaN => "NaN"
    case Num(n) => IntToDecimal(n)
  }

  /** Reading back the digits of a natural number gives the number. */
  lemma {:induction false} DigitsValueOfDecimal(n: nat)
    ensures DigitsValue(NatToDecimal(n)) == n
  {
    var s := NatToDecimal(n);
    if n >= 10 {
      DigitsValueOfDecimal(n / 10);
      assert s[..|s| - 1] == NatToDecimal(n / 10);
    }
  }

  /** The digit run of a digit string followed by anything not starting with
      a digit is that digit string. */
  lemma {:induction false} LeadingDigitsOfDigitsThenTail(ds: string, tail: string)
    requires AllDigits(ds)
    requires tail == [] || !IsDigit(tail[0])
    ensures LeadingDigits(ds + tail) == ds
  {
    if ds != [] {
      assert (ds + tail)[1..] == ds[1..] + tail;
      LeadingDigitsOfDigitsThenTail(ds[1..], tail);
    }
  }

  /** Text that starts with a sign or a digit has no white space to skip. */
  lemma TrimStartOfSignOrDigit(s: string)
    requires s != [] && (s[0] == '-' || IsDigit(s[0]))
    ensures TrimStart(s) == s
  {
  }

  /** A digit string followed by a non-digit parses to its value. */
  lemma ParseIntOfDigits(ds: string, tail: string)
    requires ds != [] && AllDigits(ds)
    requires tail == [] || !IsDigit(tail[0])
    ensures ParseInt(ds + tail) == Num(DigitsValue(ds))
  {
    TrimStartOfSignOrDigit(ds + tail);
    ParseSignedOfDigits(ds, tail);
  }

  lemma ParseSignedOfDigits(ds: string, tail: string)
    requires ds != [] && AllDigits(ds)
    requires tail == [] || !IsDigit(tail[0])
    ensures ParseSigned(ds + tail) == Num(DigitsValue(ds))
  {
    assert IsDigit((ds + tail)[0]);
    LeadingDigitsOfDigitsThenTail(ds, tail);
  }

  /** A minus sign, a digit string and a non-digit parse to the negated
      value. */
  lemma ParseIntOfNegatedDigits(ds: string, tail: string)
    requires ds != [] && AllDigits(ds)
    requires tail == [] || !IsDigit(tail[0])
    ensures ParseInt("-" + ds + tail) == Num(-(DigitsValue(ds) as int))
  {
    TrimStartOfSignOrDigit("-" + ds + tail);
    ParseSignedOfNegatedDigits(ds, tail);
  }

  lemma ParseSignedOfNegatedDigits(ds: string, tail: string)
    requires ds != [] && AllDigits(ds)
    requires tail == [] || !IsDigit(tail[0])
    ensures ParseSigned("-" + ds + tail) == Num(-(DigitsValue(ds) as int))
  {
    var s := "-" + ds + tail;
    assert s[1..] == ds + tail;
    LeadingDigitsOfDigitsThenTail(ds, tail);
  }

  /** `parseInt` reads back the decimal text of any integer, and ignores
      whatever follows it when that does not start with a digit: this is why
      `parseInt("281.64 MW")` is 281. */
  lemma ParseIntOfDecimal(n: int, tail: string)
    requires tail == [] || !IsDigit(tail[0])
    ensures ParseInt(IntToDecimal(n) + tail) == Num(n)
  {
    if n < 0 {
      var ds := NatToDecimal(-n);
      assert IntToDecimal(n) + tail == "-" + ds + tail;
      DigitsValueOfDecimal(-n);
      ParseIntOfNegatedDigits(ds, tail);
    } else {
      var ds := NatToDecimal(n);
      assert IntToDecimal(n) + tail == ds + tail;
      DigitsValueOfDecimal(n);
      ParseIntOfDigits(ds, tail);
    }
  }

  /** Text whose first non-blank character is neither a sign nor a digit
      parses to NaN. */
  lemma ParseIntNoDigits(s: string)
    requires TrimStart(s) == [] || !(IsDigit(TrimStart(s)[0]) || TrimStart(s)[0] in "+-")
    ensures ParseInt(s) == NaN
  {
  }

  function ToLowerChar(c: char): (r: char)
    ensures 'A' <= c <= 'Z' ==> 'a' <= r <= 'z'
    ensures !('A' <= c <= 'Z') ==> r == c
  {
    if 'A' <= c <= 'Z' then (c as int - 'A' as int + 'a' as int) as char else c
  }

  /** `s.toLowerCase()` over the ASCII letters. */
  function ToLowerCase(s: string): (r: string)
    ensures |r| == |s|
    ensures forall i :: 0 <= i < |s| ==> r[i] == ToLowerChar(s[i])
  {
    if s == [] then [] else [ToLowerChar(s[0])] + ToLowerCase(s[1..])
  }

  /** Lowering twice is lowering once: text that is already lower case is
      matched as it stands. */
  lemma ToLowerCaseIdempotent(s: string)
    ensures ToLowerCase(ToLowerCase(s)) == ToLowerCase(s)
  {
  }

  predicate IsPrefix(p: string, s: string) { |p| <= |s| && s[..|p|] == p }

  /** `s.includes(sub)`: some window of `s` equals `sub`. */
  predicate Includes(s: string, sub: string)
    decreases |s|
  {
    IsPrefix(sub, s) || (s != [] && Includes(s[1..], sub))
  }

  /** `sub` stands at position `k` of `s`. */
  predicate OccursAt(s: string, sub: string, k: int)
  {
    0 <= k <= |s| - |sub| && s[k..k + |sub|] == sub
  }

  /** `Includes` means what it says: `sub` occurs at some position of `s`. */
  lemma {:induction false} IncludesIffOccurs(s: string, sub: string)
    ensures Includes(s, sub) <==> exists k :: OccursAt(s, sub, k)
    decreases |s|
  {
    if IsPrefix(sub, s) {
      assert OccursAt(s, sub, 0);
    } else if s != [] {
      IncludesIffOccurs(s[1..], sub);
      if Includes(s[1..], sub) {
        var k :| OccursAt(s[1..], sub, k);
        assert s[k + 1..k + 1 + |sub|] == s[1..][k..k + |sub|];
        assert OccursAt(s, sub, k + 1);
      }
      if exists k :: OccursAt(s, sub, k) {
        var k :| OccursAt(s, sub, k);
        assert k != 0;
        assert s[1..][k - 1..k - 1 + |sub|] == s[k..k + |sub|];
        assert OccursAt(s[1..], sub, k - 1);
      }
    } else {
      assert forall k :: !OccursAt(s, sub, k);
    }
  }

  /** Text that includes `p + q` includes `p`: a longer keyword is always
      shadowed by a shorter keyword that begins it. */
  lemma {:induction false} IncludesPrefixOfNeedle(s: string, p: string, q: string)
    requires Includes(s, p + q)
    ensures Includes(s, p)
  {
    if IsPrefix(p + q, s) {
      assert s[..|p|] == (p + q)[..|p|] == p;
    } else {
      IncludesPrefixOfNeedle(s[1..], p, q);
    }
  }
}
