/**
 * The few JavaScript string and number coercions the quiz code relies on:
 * `String.prototype.trim`, `endsWith`, `includes`, `parseInt`, `Number(string)`
 * and `String(number)`. Strings are sequences of code points; `Number` and
 * `String` on numbers are simplified to plain decimal notation (see README).
 */
module JsText {
  import opened Wrappers

  // ---------------------------------------------------------------------------
  // Whitespace and trim
  // ---------------------------------------------------------------------------

  /** The WhiteSpace and LineTerminator code points of ECMAScript (sections 12.2 and 12.3
      of ECMA-262), which `trim`, `Number` and `parseInt` all skip. */
  predicate IsWhitespace(c: char) {
    || c == ' ' || c == '\t' || c == '\n' || c == '\r' || c == '\U{000B}' || c == '\U{000C}'
    || c == '\U{00A0}' || c == '\U{1680}' || ('\U{2000}' <= c <= '\U{200A}')
    || c == '\U{2028}' || c == '\U{2029}' || c == '\U{202F}' || c == '\U{205F}'
    || c == '\U{3000}' || c == '\U{FEFF}'
  }

  /** Every character of `s` is whitespace (so `s.trim() === ''`). */
  predicate IsBlank(s: string) {
    forall k :: 0 <= k < |s| ==> IsWhitespace(s[k])
  }

  /** Neither end of `s` is whitespace: what `trim` produces. */
  predicate IsTrimmed(s: string) {
    s == [] || (!IsWhitespace(s[0]) && !IsWhitespace(s[|s| - 1]))
  }

  /** Number of whitespace characters at the start of `s`. */
  function LeadingSpace(s: string): (n: nat)
    ensures n <= |s|
    ensures forall k :: 0 <= k < n ==> IsWhitespace(s[k])
    ensures n < |s| ==> !IsWhitespace(s[n])
  {
    if s == [] || !IsWhitespace(s[0]) then 0 else 1 + LeadingSpace(s[1..])
  }

  /** Number of whitespace characters at the end of `s`. */
  function TrailingSpace(s: string): (n: nat)
    ensures n <= |s|
    ensures forall k :: |s| - n <= k < |s| ==> IsWhitespace(s[k])
    ensures n < |s| ==> !IsWhitespace(s[|s| - 1 - n])
  {
    if s == [] || !IsWhitespace(s[|s| - 1]) then 0 else 1 + TrailingSpace(s[..|s| - 1])
  }

  /** `s.trim()`: `s` without its leading and trailing whitespace. */
  function Trim(s: string): (r: string)
    ensures IsTrimmed(r)
    ensures r == [] <==> IsBlank(s)
    ensures |r| <= |s|
  {
    var lead := LeadingSpace(s);
    if lead == |s| then []
    else
      var trail := TrailingSpace(s);
      assert !IsWhitespace(s[lead]);
      s[lead..|s| - trail]
  }

  /** A stretch of whitespace characters is blank. */
  lemma BlankSlice(s: string, i: nat, j: nat)
    requires i <= j <= |s| && forall k :: i <= k < j ==> IsWhitespace(s[k])
    ensures IsBlank(s[i..j])
  {
    forall k | 0 <= k < j - i ensures IsWhitespace(s[i..j][k]) {
      assert s[i..j][k] == s[i + k];
    }
  }

  /** The trimmed text lies between the leading and the trailing whitespace. */
  lemma TrimIsMiddle(s: string)
    requires LeadingSpace(s) < |s|
    ensures LeadingSpace(s) < |s| - TrailingSpace(s)
    ensures Trim(s) == s[LeadingSpace(s)..|s| - TrailingSpace(s)]
  {
    var lead, trail := LeadingSpace(s), TrailingSpace(s);
    if lead >= |s| - trail {
      assert false;
    }
  }

  /** Cutting a string in three and joining the pieces gives it back. */
  lemma ThreePieces(s: string, i: nat, j: nat)
    requires i <= j <= |s|
    ensures s == s[0..i] + s[i..j] + s[j..|s|]
  {
  }

  /** Trimming only removes whitespace from the two ends: the input is the whitespace `a`,
      then the trimmed text, then the whitespace `b`. */
  lemma TrimKeepsMiddle(s: string) returns (a: string, b: string)
    ensures s == a + Trim(s) + b && IsBlank(a) && IsBlank(b)
  {
    var lead := LeadingSpace(s);
    if lead == |s| {
      a, b := s, [];
      BlankSlice(s, 0, |s|);
      ThreePieces(s, |s|, |s|);
    } else {
      var trail := TrailingSpace(s);
      TrimIsMiddle(s);
      BlankSlice(s, 0, lead);
      BlankSlice(s, |s| - trail, |s|);
      ThreePieces(s, lead, |s| - trail);
      a, b := s[0..lead], s[|s| - trail..|s|];
    }
  }

  /** Trimming an already trimmed string changes nothing, so trimming twice is trimming once. */
  lemma TrimIdempotent(s: string)
    ensures Trim(Trim(s)) == Trim(s)
  {
    var t := Trim(s);
    if t != [] {
      assert LeadingSpace(t) == 0;
      assert TrailingSpace(t) == 0;
    }
  }

  // ---------------------------------------------------------------------------
  // endsWith, includes
  // ---------------------------------------------------------------------------

  /** `s.endsWith(suffix)`. */
  predicate EndsWith(s: string, suffix: string) {
    |suffix| <= |s| && s[|s| - |suffix|..] == suffix
  }

  /** `sub` occurs in `s` starting at position `j`. */
  predicate OccursAt(s: string, sub: string, j: nat) {
    j + |sub| <= |s| && s[j..j + |sub|] == sub
  }

  /** `s.indexOf(sub)`, with `None` for -1: the first position where `sub` occurs. */
  function IndexOf(s: string, sub: string): (r: Option<nat>)
    ensures r.Some? ==> OccursAt(s, sub, r.value) && forall j :: 0 <= j < r.value ==> !OccursAt(s, sub, j)
    ensures r.None? ==> forall j :: 0 <= j <= |s| ==> !OccursAt(s, sub, j)
    decreases |s|
  {
    if |sub| > |s| then None
    else if s[..|sub|] == sub then Some(0)
    else
      match IndexOf(s[1..], sub)
      case None =>
        assert forall j :: 1 <= j <= |s| ==> (OccursAt(s, sub, j) <==> OccursAt(s[1..], sub, j - 1));
        None
      case Some(k) =>
        assert forall j :: 1 <= j <= |s| ==> (OccursAt(s, sub, j) <==> OccursAt(s[1..], sub, j - 1));
        Some(k + 1)
  }

  /** `s.includes(sub)`. */
  predicate Includes(s: string, sub: string) {
    IndexOf(s, sub).Some?
  }

  // ---------------------------------------------------------------------------
  // Decimal digits
  // ---------------------------------------------------------------------------

  predicate IsDigit(c: char) { '0' <= c <= '9' }

  predicate AllDigits(s: string) { forall k :: 0 <= k < |s| ==> IsDigit(s[k]) }

  function DigitValue(c: char): (d: nat)
    requires IsDigit(c)
    ensures d < 10
  {
    (c as int) - ('0' as int)
  }

  function DigitChar(d: nat): (c: char)
    requires d < 10
    ensures IsDigit(c) && DigitValue(c) == d
  {
    (('0' as int) + d) as char
  }

  /** The value of a string of decimal digits, most significant first. */
  function DigitsValue(s: string): nat
    requires AllDigits(s)
  {
    if s == [] then 0 else DigitsValue(s[..|s| - 1]) * 10 + DigitValue(s[|s| - 1])
  }

  /** The decimal numeral of `n`, without leading zeros: `n.toString()`. */
  function NatToDecimal(n: nat): (r: string)
    ensures r != [] && AllDigits(r) && DigitsValue(r) == n
    ensures r[0] != '0' || n == 0
  {
    if n < 10 then [DigitChar(n)]
    else
      var front := NatToDecimal(n / 10);
      var r := front + [DigitChar(n % 10)];
      assert r[..|r| - 1] == front;
      r
  }

  /** `n.toString()` for an integer, with a minus sign for negative values. */
  function IntToDecimal(n: int): (r: string)
    ensures r != [] && !IsWhitespace(r[0])
  {
    if n < 0 then "-" + NatToDecimal(-n) else NatToDecimal(n)
  }

  /** Length of the run of decimal digits at the start of `s`. */
  function DigitRun(s: string): (n: nat)
    ensures n <= |s| && AllDigits(s[..n])
    ensures n < |s| ==> !IsDigit(s[n])
  {
    if s == [] || !IsDigit(s[0]) then 0
    else
      var n := 1 + DigitRun(s[1..]);
      assert s[..n] == [s[0]] + s[1..][..n - 1];
      n
  }

  /** A leading '+' or '-' sign, as `parseInt` and `Number` read it: (negative?, rest). */
  function SplitSign(s: string): (r: (bool, string))
    ensures |r.1| <= |s|
  {
    if s != [] && s[0] == '-' then (true, s[1..])
    else if s != [] && s[0] == '+' then (false, s[1..])
    else (false, s)
  }

  // ---------------------------------------------------------------------------
  // parseInt
  // ---------------------------------------------------------------------------

  /** `parseInt(s, 10)`: skip leading whitespace, read an optional sign and the longest run
      of decimal digits; `None` (NaN) when there is no digit. Anything after the run is ignored. */
  function ParseIntDecimal(s: string): Option<int>
  {
    var (negative, body) := SplitSign(s[LeadingSpace(s)..]);
    var n := DigitRun(body);
    if n == 0 then None
    else
      var v: int := DigitsValue(body[..n]);
      Some(if negative then -v else v)
  }

  predicate IsHexDigit(c: char) { IsDigit(c) || 'a' <= c <= 'f' || 'A' <= c <= 'F' }

  function HexDigitValue(c: char): (d: nat)
    requires IsHexDigit(c)
    ensures d < 16
  {
    if IsDigit(c) then DigitValue(c)
    else if 'a' <= c <= 'f' then (c as int) - ('a' as int) + 10
    else (c as int) - ('A' as int) + 10
  }

  /** Length of the run of hexadecimal digits at the start of `s`. */
  function HexRun(s: string): (n: nat)
    ensures n <= |s| && forall k :: 0 <= k < n ==> IsHexDigit(s[k])
  {
    if s == [] || !IsHexDigit(s[0]) then 0 else 1 + HexRun(s[1..])
  }

  function HexValue(s: string): nat
    requires forall k :: 0 <= k < |s| ==> IsHexDigit(s[k])
  {
    if s == [] then 0 else HexValue(s[..|s| - 1]) * 16 + HexDigitValue(s[|s| - 1])
  }

  /** The input starts, after its sign, with "0x" or "0X". */
  predicate HasHexPrefix(body: string) {
    |body| >= 2 && body[0] == '0' && (body[1] == 'x' || body[1] == 'X')
  }

  /** `parseInt(s)` without a radix: as `parseInt(s, 10)`, except that a "0x" / "0X" prefix
      after the sign selects base 16. */
  function ParseIntAuto(s: string): Option<int>
  {
    var (negative, body) := SplitSign(s[LeadingSpace(s)..]);
    if HasHexPrefix(body) then
      var h := body[2..];
      var n := HexRun(h);
      if n == 0 then None
      else
        var v: int := HexValue(h[..n]);
        Some(if negative then -v else v)
    else ParseIntDecimal(s)
  }

  /** Without a hexadecimal prefix, `parseInt(s)` and `parseInt(s, 10)` agree. */
  lemma ParseIntAutoIsDecimal(s: string)
    requires !HasHexPrefix(SplitSign(s[LeadingSpace(s)..]).1)
    ensures ParseIntAuto(s) == ParseIntDecimal(s)
  {
  }

  /** `parseInt(n.toString(), 10) === n`: the decimal numeral of a natural number reads back as it. */
  lemma {:induction false} ParseIntOfDecimal(n: nat)
    ensures ParseIntDecimal(NatToDecimal(n)) == Some(n)
  {
    var s := NatToDecimal(n);
    assert LeadingSpace(s) == 0 by { assert !IsWhitespace(s[0]); }
    assert s[0..] == s;
    assert SplitSign(s) == (false, s);
    DigitRunOfDigits(s);
    assert s[..|s|] == s;
  }

  lemma {:induction false} DigitRunOfDigits(s: string)
    requires AllDigits(s)
    ensures DigitRun(s) == |s|
  {
    if s != [] { DigitRunOfDigits(s[1..]); }
  }

  // ---------------------------------------------------------------------------
  // Number(string) and String(number)
  // ---------------------------------------------------------------------------

  /** A JavaScript number: NaN or a finite value. */
  datatype JsNumber = NaN | Finite(value: real)

  function Pow10(k: nat): (p: nat)
    ensures p >= 1
  {
    if k == 0 then 1 else 10 * Pow10(k - 1)
  }

  /** Reads a trimmed, non-empty decimal literal: optional sign, digits, optional fraction,
      at least one digit in all. */
  function ParseDecimalLiteral(t: string): JsNumber
  {
    var (negative, body) := SplitSign(t);
    var n := DigitRun(body);
    var whole := DigitsValue(body[..n]) as real;
    var rest := body[n..];
    var magnitude :=
      if rest == [] then (if n == 0 then NaN else Finite(whole))
      else if rest[0] != '.' || !AllDigits(rest[1..]) || (n == 0 && |rest| == 1) then NaN
      else Finite(whole + (DigitsValue(rest[1..]) as real) / (Pow10(|rest| - 1) as real));
    match magnitude
    case NaN => NaN
    case Finite(m) => Finite(if negative then -m else m)
  }

  /** `Number(s)` for a string: blank is 0, a decimal literal (surrounded by whitespace) is its
      value, anything else is NaN. */
  function StringToNumber(s: string): (r: JsNumber)
    ensures IsBlank(s) ==> r == Finite(0.0)
  {
    var t := Trim(s);
    if t == [] then Finite(0.0) else ParseDecimalLiteral(t)
  }

  /** A string whose first character is a letter other than the start of a number cannot be
      read as a number. */
  lemma NonNumericStart(s: string)
    requires s != [] && !IsWhitespace(s[0]) && !IsDigit(s[0]) && s[0] != '+' && s[0] != '-' && s[0] != '.'
    ensures StringToNumber(s) == NaN
  {
    var t := Trim(s);
    assert LeadingSpace(s) == 0;
    assert t[0] == s[0];
  }

  /** The decimal numeral of a natural number reads back as that number. */
  lemma {:induction false} NumberOfDecimal(n: nat)
    ensures StringToNumber(NatToDecimal(n)) == Finite(n as real)
  {
    var s := NatToDecimal(n);
    assert LeadingSpace(s) == 0 by { assert !IsWhitespace(s[0]); }
    assert TrailingSpace(s) == 0 by { assert !IsWhitespace(s[|s| - 1]); }
    assert Trim(s) == s;
    DigitRunOfDigits(s);
    assert s[..|s|] == s;
  }

  /** Up to `fuel` decimal digits of a fraction in [0, 1), stopping when it is exhausted. */
  function FractionDigits(f: real, fuel: nat): (r: string)
    requires 0.0 <= f < 1.0
    ensures AllDigits(r)
    decreases fuel
  {
    if fuel == 0 || f == 0.0 then []
    else
      var d := (f * 10.0).Floor;
      [DigitChar(d)] + FractionDigits(f * 10.0 - d as real, fuel - 1)
  }

  /** `String(x)` for a finite number, in plain decimal notation with at most 20 fraction digits. */
  function NumberToString(x: real): (r: string)
    ensures r != [] && !IsWhitespace(r[0])
  {
    var m := if x < 0.0 then -x else x;
    var whole := m.Floor;
    var frac := m - whole as real;
    var digits := NatToDecimal(whole) + (if frac == 0.0 then "" else "." + FractionDigits(frac, 20));
    if x < 0.0 then "-" + digits else digits
  }

  /** The integral part: a real that equals an integer. */
  predicate IsIntegral(x: real) {
    x == x.Floor as real
  }
}
