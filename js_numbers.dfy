/** The number conversions of the JavaScript runtime that the receipt forms rely on:
    `toString` of an integer, `padStart(2, '0')`, `Math.round`, `parseFloat`,
    `parseInt` and the `x || d` fallback. JavaScript numbers are idealised as reals. */
module JsNumbers {

  datatype Option<+T> = None | Some(value: T)

  /** A JavaScript number: NaN or a finite value. Where the source tests for
      `null` or `undefined` next to NaN, NaN stands for those as well. */
  datatype Number = NaN | Finite(value: real)

  /** `x || 0` on a number: NaN and zero are the falsy numbers. */
  function OrZero(x: Number): (r: real)
    ensures x.NaN? ==> r == 0.0
    ensures x.Finite? ==> r == x.value
  {
    match x
    case NaN => 0.0
    case Finite(v) => v
  }

  /** `x || y` on two numbers whose left operand can only be a finite number. */
  function OrElse(x: real, y: real): (r: real)
    ensures x != 0.0 ==> r == x
    ensures x == 0.0 ==> r == y
  {
    if x == 0.0 then y else x
  }

  // ---------------------------------------------------------------------------
  // Digits

  predicate IsDigit(c: char) {
    '0' <= c <= '9'
  }

  predicate AllDigits(s: string) {
    forall i :: 0 <= i < |s| ==> IsDigit(s[i])
  }

  /** The value of a hexadecimal digit, and 16 for any other character. */
  function HexValue(c: char): (v: nat)
    ensures v <= 16
    ensures IsDigit(c) <==> v < 10
  {
    if '0' <= c <= '9' then c as int - '0' as int
    else if 'a' <= c <= 'f' then c as int - 'a' as int + 10
    else if 'A' <= c <= 'F' then c as int - 'A' as int + 10
    else 16
  }

  /** A digit of the given radix (the radix is 10 or 16 where it is used). */
  predicate IsRadixDigit(c: char, radix: nat) {
    HexValue(c) < radix
  }

  predicate AllRadixDigits(s: string, radix: nat) {
    forall i :: 0 <= i < |s| ==> IsRadixDigit(s[i], radix)
  }

  function DigitChar(d: nat): (c: char)
    requires d < 10
    ensures IsDigit(c) && HexValue(c) == d
  {
    ('0' as int + d) as char
  }

  /** The value of a string of digits in the given radix, most significant first. */
  function DigitsValue(s: string, radix: nat): nat
    requires AllRadixDigits(s, radix)
    decreases |s|
  {
    if s == [] then 0
    else
      RadixDigitsPrefix(s, |s| - 1, radix);
      var v, d := DigitsValue(s[..|s| - 1], radix), HexValue(s[|s| - 1]);
      ShiftDigitNat(v, radix, d);
      v * radix + d
  }

  lemma ShiftDigitNat(v: nat, radix: nat, d: nat)
    ensures v * radix + d >= 0
  {
  }

  /** A prefix of a string of radix digits is one too. */
  lemma RadixDigitsPrefix(s: string, n: nat, radix: nat)
    requires n <= |s| && AllRadixDigits(s, radix)
    ensures AllRadixDigits(s[..n], radix)
  {
    forall i | 0 <= i < n ensures IsRadixDigit(s[..n][i], radix) {
      assert s[..n][i] == s[i];
    }
  }

  function Pow10(n: nat): (p: nat)
    ensures p >= 1
  {
    if n == 0 then 1 else 10 * Pow10(n - 1)
  }

  /** Length of the longest prefix of `s` made of digits of the radix. */
  function LeadingRun(s: string, radix: nat): (n: nat)
    ensures n <= |s|
    ensures AllRadixDigits(s[..n], radix)
    ensures n < |s| ==> !IsRadixDigit(s[n], radix)
    decreases |s|
  {
    if s == [] || !IsRadixDigit(s[0], radix) then 0
    else
      var k := LeadingRun(s[1..], radix);
      assert s[..k + 1] == [s[0]] + s[1..][..k];
      k + 1
  }

  /** On a string made only of digits of the radix the run is the whole string. */
  lemma LeadingRunAll(s: string, radix: nat)
    requires AllRadixDigits(s, radix)
    ensures LeadingRun(s, radix) == |s|
  {
  }

  // ---------------------------------------------------------------------------
  // Integer to string

  /** `n.toString()` for a non-negative integer. */
  function DecimalString(n: nat): (r: string)
    ensures |r| >= 1
    ensures AllDigits(r) && AllRadixDigits(r, 10)
    ensures r[0] == '0' <==> n == 0
    ensures |r| == 1 <==> n < 10
    ensures DigitsValue(r, 10) == n
    decreases n
  {
    if n < 10 then [DigitChar(n)]
    else
      var r := DecimalString(n / 10) + [DigitChar(n % 10)];
      assert r[..|r| - 1] == DecimalString(n / 10);
      r
  }

  /** `i.toString()` for any integer: a minus sign, then the digits of the magnitude. */
  function IntString(i: int): (r: string)
    ensures |r| >= 1
    ensures i < 0 <==> r[0] == '-'
    ensures i >= 0 ==> r == DecimalString(i)
    ensures i < 0 ==> r[1..] == DecimalString(-i)
  {
    if i < 0 then "-" + DecimalString(-i) else DecimalString(i)
  }

  /** `toString` of a number with `k` digits is `k` characters long. */
  lemma {:induction false} DecimalStringLength(n: nat, k: nat)
    requires k >= 1 && Pow10(k - 1) <= n < Pow10(k)
    ensures |DecimalString(n)| == k
    decreases k
  {
    if k > 1 {
      assert Pow10(k - 1) == 10 * Pow10(k - 2);
      assert n >= 10;
      assert Pow10(k - 2) <= n / 10 < Pow10(k - 1);
      DecimalStringLength(n / 10, k - 1);
      assert DecimalString(n) == DecimalString(n / 10) + [DigitChar(n % 10)];
    }
  }

  /** Dividing `10 v + d` by ten gives back `v` and the digit `d`. */
  lemma LastDigit(v: nat, d: nat)
    requires d < 10
    ensures (v * 10 + d) / 10 == v && (v * 10 + d) % 10 == d
  {
  }

  /** Appending a digit multiplies the value by ten and adds the digit. */
  lemma DigitsValueSnoc(init: string, c: char)
    requires AllRadixDigits(init, 10) && IsRadixDigit(c, 10)
    ensures AllRadixDigits(init + [c], 10)
    ensures DigitsValue(init + [c], 10) == DigitsValue(init, 10) * 10 + HexValue(c)
  {
    var s := init + [c];
    assert s[..|s| - 1] == init && s[|s| - 1] == c;
  }

  /** `toString` of `10 v + d` is that of `v` followed by the digit `d`. */
  lemma DecimalStringSnoc(v: nat, d: nat)
    requires v >= 1 && d < 10
    ensures DecimalString(v * 10 + d) == DecimalString(v) + [DigitChar(d)]
  {
    LastDigit(v, d);
  }

  /** Appending a digit to a numeral of a positive value appends it to `toString`. */
  lemma AppendDigit(init: string, c: char)
    requires AllRadixDigits(init, 10) && IsRadixDigit(c, 10) && DigitsValue(init, 10) >= 1
    ensures AllRadixDigits(init + [c], 10)
    ensures DecimalString(DigitsValue(init + [c], 10)) == DecimalString(DigitsValue(init, 10)) + [c]
  {
    var v := DigitsValue(init, 10);
    DigitsValueSnoc(init, c);
    DecimalStringSnoc(v, HexValue(c));
    assert DigitChar(HexValue(c)) == c;
  }

  /** The digits of a canonical decimal numeral are those `toString` prints for its value. */
  lemma {:induction false} DecimalStringOfValue(s: string)
    requires |s| >= 1 && AllRadixDigits(s, 10)
    requires s[0] == '0' ==> |s| == 1
    ensures DecimalString(DigitsValue(s, 10)) == s
    decreases |s|
  {
    if |s| > 1 {
      var init := s[..|s| - 1];
      DecimalStringOfValue(init);
      var v := DigitsValue(init, 10);
      assert v >= 1 by { assert init[0] == s[0] != '0'; }
      var c := s[|s| - 1];
      assert s == init + [c];
      AppendDigit(init, c);
    } else {
      assert DigitChar(HexValue(s[0])) == s[0];
    }
  }

  /** `toString().padStart(2, '0')` on a non-negative integer. */
  function Pad2(n: nat): (r: string)
    ensures AllDigits(r) && AllRadixDigits(r, 10)
    ensures DigitsValue(r, 10) == n
    ensures n < 100 ==> |r| == 2
    ensures n < 10 ==> r[0] == '0'
    ensures n >= 10 ==> r == DecimalString(n)
  {
    var s := DecimalString(n);
    if |s| < 2 then
      var r := "0" + s;
      assert r[..|r| - 1] == "0";
      r
    else s
  }

  // ---------------------------------------------------------------------------
  // Math.round

  /** `Math.round`: the integer closest to `x`, the larger one when two are equally close. */
  function Round(x: real): (r: int)
    ensures x - 0.5 < r as real <= x + 0.5
  {
    (x + 0.5).Floor
  }

  lemma {:induction false} RoundUnique(x: real, n: int)
    requires x - 0.5 < n as real <= x + 0.5
    ensures n == Round(x)
  {
    var r := Round(x);
    assert r as real - n as real < 1.0 && n as real - r as real < 1.0;
  }

  // ---------------------------------------------------------------------------
  // String to number

  /** The white space and line terminators that `parseFloat` and `parseInt` skip:
      TAB, LF, VT, FF, CR, the space separators of Unicode and the byte-order mark. */
  predicate IsJsSpace(c: char) {
    || c == '\t' || c == '\n' || c == '\U{B}' || c == '\U{C}' || c == '\r' || c == ' '
    || c == '\U{A0}' || c == '\U{1680}' || ('\U{2000}' <= c <= '\U{200A}')
    || c == '\U{2028}' || c == '\U{2029}' || c == '\U{202F}' || c == '\U{205F}'
    || c == '\U{3000}' || c == '\U{FEFF}'
  }

  /** The string without its leading white space. */
  function TrimStart(s: string): (r: string)
    ensures |r| <= |s| && r == s[|s| - |r|..]
    ensures forall i :: 0 <= i < |s| - |r| ==> IsJsSpace(s[i])
    ensures |r| > 0 ==> !IsJsSpace(r[0])
    decreases |s|
  {
    if |s| > 0 && IsJsSpace(s[0]) then TrimStart(s[1..]) else s
  }

  /** The factor an exponent part `e<sign><digits>` at the front of `rest`
      contributes; 1 when `rest` does not start with a complete exponent. */
  function ExponentScale(rest: string): (f: real)
    ensures f > 0.0
  {
    if |rest| >= 2 && (rest[0] == 'e' || rest[0] == 'E') then
      var signed := rest[1] == '+' || rest[1] == '-';
      var digits := if signed then rest[2..] else rest[1..];
      var k := LeadingRun(digits, 10);
      if k == 0 then 1.0
      else
        var e := DigitsValue(digits[..k], 10);
        if signed && rest[1] == '-' then 1.0 / Pow10(e) as real else Pow10(e) as real
    else 1.0
  }

  /** The value of `intDigits.fracDigits`. */
  function Mantissa(intDigits: string, fracDigits: string): (m: real)
    requires AllRadixDigits(intDigits, 10) && AllRadixDigits(fracDigits, 10)
    ensures m >= 0.0
  {
    DigitsValue(intDigits, 10) as real + DigitsValue(fracDigits, 10) as real / Pow10(|fracDigits|) as real
  }

  lemma NonNegativeProduct(a: real, b: real)
    requires a >= 0.0 && b >= 0.0
    ensures a * b >= 0.0
  {
  }

  /** The longest prefix of `u` that is an unsigned decimal literal
      (`digits [. [digits]] [exponent]` or `. digits [exponent]`), and its value. */
  function ParseUnsignedDecimal(u: string): (r: Option<real>)
    ensures r.Some? ==> r.value >= 0.0
  {
    var i := LeadingRun(u, 10);
    var fracStart := if i < |u| && u[i] == '.' then i + 1 else i;
    var tail := u[fracStart..];
    var j := LeadingRun(tail, 10);
    if i == 0 && j == 0 then None
    else
      Some(LiteralValue(u[..i], tail[..j], tail[j..]))
  }

  /** The value of a literal: its mantissa scaled by its exponent. */
  function LiteralValue(intDigits: string, fracDigits: string, rest: string): (v: real)
    requires AllRadixDigits(intDigits, 10) && AllRadixDigits(fracDigits, 10)
    ensures v >= 0.0
  {
    var m, e := Mantissa(intDigits, fracDigits), ExponentScale(rest);
    NonNegativeProduct(m, e);
    m * e
  }

  /** A non-empty run of digits is a decimal literal whose value is that of the digits. */
  lemma {:induction false} ParseUnsignedDigits(ds: string)
    requires |ds| >= 1 && AllRadixDigits(ds, 10)
    ensures ParseUnsignedDecimal(ds) == Some(DigitsValue(ds, 10) as real)
  {
    assert LeadingRun(ds, 10) == |ds|;
    assert ds[..|ds|] == ds;
    var tail := ds[|ds|..];
    assert tail == [];
    assert LeadingRun(tail, 10) == 0;
    assert tail[..0] == [] && tail[0..] == [];
    assert Mantissa(ds, []) == DigitsValue(ds, 10) as real;
    assert ExponentScale([]) == 1.0;
  }

  /** The text opens with a decimal literal: a digit, or a dot followed by a digit. */
  predicate StartsWithNumeral(u: string) {
    (|u| > 0 && IsDigit(u[0])) || (|u| > 1 && u[0] == '.' && IsDigit(u[1]))
  }

  /** There is a literal to read exactly when the text opens with one. */
  lemma ParseUnsignedDecimalFound(u: string)
    ensures ParseUnsignedDecimal(u).Some? <==> StartsWithNumeral(u)
  {
    var i := LeadingRun(u, 10);
    var fracStart := if i < |u| && u[i] == '.' then i + 1 else i;
    var tail := u[fracStart..];
    var j := LeadingRun(tail, 10);
    if |u| > 0 && IsDigit(u[0]) {
      assert IsRadixDigit(u[0], 10);
    } else if |u| > 1 && u[0] == '.' && IsDigit(u[1]) {
      assert !IsRadixDigit(u[0], 10);
      assert tail == u[1..] && IsRadixDigit(tail[0], 10);
    } else {
      assert i == 0 by { assert |u| > 0 ==> !IsRadixDigit(u[0], 10); }
      assert j == 0 by { assert |tail| > 0 ==> !IsRadixDigit(tail[0], 10); }
    }
  }

  /** A run of digits, a dot and a run of digits, followed by text that continues
      neither the digits nor an exponent, reads as the integer part plus the fraction. */
  lemma {:induction false} ParseUnsignedFraction(ds: string, fs: string, rest: string)
    requires |ds| >= 1 && AllRadixDigits(ds, 10) && AllRadixDigits(fs, 10)
    requires |rest| > 0 ==> !IsDigit(rest[0]) && rest[0] != 'e' && rest[0] != 'E'
    ensures ParseUnsignedDecimal(ds + "." + fs + rest) == Some(Mantissa(ds, fs))
  {
    var u := ds + "." + fs + rest;
    var tail := fs + rest;
    FractionLayout(ds, fs, rest);
    LeadingRunPrefix(ds, "." + tail);
    LeadingRunPrefix(fs, rest);
    ParseUnsignedAtDot(u, |ds|, tail, |fs|);
    assert u[..|ds|] == ds && tail[..|fs|] == fs && tail[|fs|..] == rest;
    NoExponent(ds, fs, rest);
  }

  /** Text that does not open with `e` or `E` scales nothing. */
  lemma NoExponent(ds: string, fs: string, rest: string)
    requires AllRadixDigits(ds, 10) && AllRadixDigits(fs, 10)
    requires |rest| > 0 ==> rest[0] != 'e' && rest[0] != 'E'
    ensures LiteralValue(ds, fs, rest) == Mantissa(ds, fs)
  {
    assert ExponentScale(rest) == 1.0;
  }

  /** Where the pieces of `ds.fs rest` stand. */
  lemma FractionLayout(ds: string, fs: string, rest: string)
    ensures var u := ds + "." + fs + rest;
      u == ds + ("." + (fs + rest)) && u[..|ds|] == ds && u[|ds|] == '.' && u[|ds| + 1..] == fs + rest
    ensures (fs + rest)[..|fs|] == fs && (fs + rest)[|fs|..] == rest
  {
    var u := ds + "." + fs + rest;
    assert u == ds + ("." + (fs + rest));
    assert u[|ds| + 1..] == fs + rest;
  }

  /** `parseFloat`'s reading of a literal whose integer digits stop at a dot and
      whose fraction digits are not followed by an exponent. */
  lemma ParseUnsignedAtDot(u: string, i: nat, tail: string, j: nat)
    requires i == LeadingRun(u, 10) && i < |u| && u[i] == '.' && tail == u[i + 1..]
    requires j == LeadingRun(tail, 10) && (i > 0 || j > 0)
    ensures ParseUnsignedDecimal(u) == Some(LiteralValue(u[..i], tail[..j], tail[j..]))
  {
  }

  /** The run of digits stops where the digits do. */
  lemma LeadingRunPrefix(ds: string, rest: string)
    requires AllRadixDigits(ds, 10)
    requires |rest| > 0 ==> !IsDigit(rest[0])
    ensures LeadingRun(ds + rest, 10) == |ds|
  {
    var u := ds + rest;
    assert forall k :: 0 <= k < |ds| ==> u[k] == ds[k];
    assert |u| > |ds| ==> u[|ds|] == rest[0];
    var n := LeadingRun(u, 10);
  }

  /** `parseFloat(s)`: skip leading white space, read an optional sign and the
      longest decimal literal; NaN when there is none. */
  function ParseFloat(s: string): (r: Number)
    ensures r.Finite? && r.value < 0.0 ==> '-' in s
  {
    var t := TrimStart(s);
    if |t| > 0 && (t[0] == '-' || t[0] == '+') then
      match ParseUnsignedDecimal(t[1..])
      case None => NaN
      case Some(v) =>
        assert t[0] in s by { assert t[0] == s[|s| - |t|]; }
        Finite(if t[0] == '-' then -v else v)
    else
      match ParseUnsignedDecimal(t)
      case None => NaN
      case Some(v) => Finite(v)
  }

  /** `parseFloat(s) || 0`. */
  function ParseFloatOrZero(s: string): (r: real)
    ensures r < 0.0 ==> '-' in s
  {
    OrZero(ParseFloat(s))
  }

  /** `parseInt(s)` with no radix: skip white space, read an optional sign, a `0x`
      prefix selects radix 16, then the longest run of digits; NaN (None) when empty. */
  function ParseInt(s: string): (r: Option<int>)
    ensures r.Some? && r.value < 0 ==> '-' in s
  {
    var t := TrimStart(s);
    var negative := |t| > 0 && t[0] == '-';
    var u := if |t| > 0 && (t[0] == '-' || t[0] == '+') then t[1..] else t;
    match ParseUnsignedInt(u)
    case None => None
    case Some(m) =>
      assert negative ==> t[0] in s by { if negative { assert t[0] == s[|s| - |t|]; } }
      Some(if negative then -(m as int) else m as int)
  }

  /** The unsigned part of `parseInt`: a `0x` prefix selects radix 16, then the
      longest run of digits of the radix. */
  function ParseUnsignedInt(u: string): (r: Option<nat>)
  {
    var hex := |u| >= 2 && u[0] == '0' && (u[1] == 'x' || u[1] == 'X');
    var radix := if hex then 16 else 10;
    var w := if hex then u[2..] else u;
    var k := LeadingRun(w, radix);
    if k == 0 then None else Some(DigitsValue(w[..k], radix))
  }

  /** A non-empty run of decimal digits is read whole, in radix 10. */
  lemma ParseUnsignedIntDigits(ds: string)
    requires |ds| >= 1 && AllDigits(ds) && AllRadixDigits(ds, 10)
    ensures ParseUnsignedInt(ds) == Some(DigitsValue(ds, 10))
  {
    assert !(|ds| >= 2 && ds[0] == '0' && (ds[1] == 'x' || ds[1] == 'X')) by {
      if |ds| >= 2 { assert IsDigit(ds[1]); }
    }
    LeadingRunAll(ds, 10);
    assert ds[..|ds|] == ds;
  }

  /** `parseInt(s) || d`: NaN and zero fall back to `d`. */
  function ParseIntOr(s: string, d: int): (r: int)
    ensures ParseInt(s).Some? && ParseInt(s).value != 0 ==> r == ParseInt(s).value
    ensures ParseInt(s).None? || ParseInt(s).value == 0 ==> r == d
    ensures d != 0 ==> r != 0
  {
    match ParseInt(s)
    case None => d
    case Some(n) => if n == 0 then d else n
  }

  // ---------------------------------------------------------------------------
  // Round trips between the two directions

  /** `parseFloat` reads back what `toString` prints for a non-negative integer. */
  lemma {:induction false} ParseFloatDecimalString(n: nat)
    ensures ParseFloat(DecimalString(n)) == Finite(n as real)
  {
    var s := DecimalString(n);
    assert IsDigit(s[0]) && !IsJsSpace(s[0]);
    assert TrimStart(s) == s;
    assert s[0] != '-' && s[0] != '+';
    ParseUnsignedDigits(s);
  }

  /** `parseFloat` of `a.f` followed by text that continues neither the digits
      nor an exponent is `a` plus the fraction `f`. */
  lemma {:induction false} ParseFloatFraction(ds: string, fs: string, rest: string)
    requires |ds| >= 1 && AllDigits(ds) && AllRadixDigits(ds, 10) && AllRadixDigits(fs, 10)
    requires |rest| > 0 ==> !IsDigit(rest[0]) && rest[0] != 'e' && rest[0] != 'E'
    ensures ParseFloat(ds + "." + fs + rest) == Finite(Mantissa(ds, fs))
    ensures ParseFloatOrZero(ds + "." + fs + rest) == Mantissa(ds, fs)
  {
    var s := ds + "." + fs + rest;
    assert s[0] == ds[0] && IsDigit(s[0]);
    assert TrimStart(s) == s by { assert !IsJsSpace(s[0]); }
    ParseUnsignedFraction(ds, fs, rest);
  }

  /** Text that, after white space and a sign, does not open with a decimal literal
      reads as NaN, so `parseFloat(s) || 0` is 0. */
  lemma {:induction false} ParseFloatNoNumeral(s: string)
    requires var t := TrimStart(s);
      !StartsWithNumeral(if |t| > 0 && (t[0] == '-' || t[0] == '+') then t[1..] else t)
    ensures ParseFloat(s) == NaN
    ensures ParseFloatOrZero(s) == 0.0
  {
    var t := TrimStart(s);
    ParseUnsignedDecimalFound(if |t| > 0 && (t[0] == '-' || t[0] == '+') then t[1..] else t);
  }

  /** `parseFloat` reads back what `toString` prints for any integer. */
  lemma {:induction false} ParseFloatIntString(i: int)
    ensures ParseFloat(IntString(i)) == Finite(i as real)
  {
    if i < 0 {
      var s := IntString(i);
      assert !IsJsSpace(s[0]);
      assert TrimStart(s) == s;
      ParseUnsignedDigits(s[1..]);
    } else {
      ParseFloatDecimalString(i);
    }
  }

  /** `parseInt` reads a leading run of decimal digits (not opening with 0) and
      ignores whatever follows it, as in `parseInt("300px")`. */
  lemma {:induction false} ParseIntDigitsThen(ds: string, rest: string)
    requires |ds| >= 1 && AllDigits(ds) && AllRadixDigits(ds, 10) && ds[0] != '0'
    requires |rest| > 0 ==> !IsDigit(rest[0])
    ensures ParseInt(ds + rest) == Some(DigitsValue(ds, 10))
  {
    var u := ds + rest;
    assert u[0] == ds[0] && IsDigit(u[0]);
    assert TrimStart(u) == u by { assert !IsJsSpace(u[0]); }
    LeadingRunPrefix(ds, rest);
    assert u[..|ds|] == ds;
  }

  /** `parseInt` reads back what `toString` prints for any integer. */
  lemma {:induction false} ParseIntIntString(i: int)
    ensures ParseInt(IntString(i)) == Some(i)
  {
    var s := IntString(i);
    var ds := DecimalString(if i < 0 then -i else i);
    assert TrimStart(s) == s by { assert !IsJsSpace(s[0]); }
    if i < 0 {
      assert s[0] == '-' && s[1..] == ds;
    } else {
      assert s == ds && s[0] != '-' && s[0] != '+';
    }
    ParseUnsignedIntDigits(ds);
  }
}
