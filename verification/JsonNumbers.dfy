/** Rewriting of scientific number texts (intent_json.cpp): `normalize_scientific` and
    `rust_like_float_from_scientific` edit decimal texts.  The value a text denotes is kept, and the result is a
    number of section 6 of RFC 8259 under an exact condition on the text. */
module JsonNumbers {
  import opened Results

  // ----- digits ----------------------------------------------------------------------------------------------

  predicate IsDigit(c: char) { '0' <= c <= '9' }

  predicate Digits(s: string) { forall i :: 0 <= i < |s| ==> IsDigit(s[i]) }

  /** The number a run of digits denotes. */
  function Nat(s: string): nat
    requires Digits(s)
  {
    if s == "" then 0 else Nat(s[..|s| - 1]) * 10 + (s[|s| - 1] as int - '0' as int)
  }

  function Zeros(n: nat): (s: string)
    ensures |s| == n && Digits(s) && forall i :: 0 <= i < n ==> s[i] == '0'
  {
    if n == 0 then "" else Zeros(n - 1) + "0"
  }

  /** `std::to_string` of a number that is not negative. */
  function Decimal(n: nat): (s: string)
    ensures s != "" && Digits(s)
  {
    (if n < 10 then "" else Decimal(n / 10)) + [(n % 10 + '0' as int) as char]
  }

  lemma {:induction false} NatOfDecimal(n: nat)
    ensures Nat(Decimal(n)) == n
  {
    var s := Decimal(n);
    if n >= 10 {
      NatOfDecimal(n / 10);
      assert s[..|s| - 1] == Decimal(n / 10);
    }
  }

  /** Moving the decimal point: `n` digits' worth of value. */
  function Shift(v: nat, n: nat): nat { if n == 0 then v else 10 * Shift(v, n - 1) }

  lemma {:induction false} NatOfConcat(a: string, b: string)
    requires Digits(a) && Digits(b)
    ensures Digits(a + b) && Nat(a + b) == Shift(Nat(a), |b|) + Nat(b)
  {
    if b == "" {
      assert a + b == a;
    } else {
      var front := b[..|b| - 1];
      assert (a + b)[..|a + b| - 1] == a + front;
      NatOfConcat(a, front);
    }
  }

  lemma {:induction false} NatOfZeros(n: nat)
    ensures Nat(Zeros(n)) == 0
  {
    if n > 0 {
      assert Zeros(n)[..n - 1] == Zeros(n - 1);
      NatOfZeros(n - 1);
    }
  }

  lemma {:induction false} ShiftZero(n: nat)
    ensures Shift(0, n) == 0
  {
    if n > 0 { ShiftZero(n - 1); }
  }

  // ----- values ----------------------------------------------------------------------------------------------

  /** Ten to an integer power. */
  function Pow10(e: int): real
    decreases if e < 0 then -e else e
  {
    if e == 0 then 1.0 else if e > 0 then 10.0 * Pow10(e - 1) else Pow10(e + 1) / 10.0
  }

  function Scaled(a: real, b: real): real { a * b }

  /** What `n` digits' value and an exponent denote. */
  function Value(negative: bool, n: nat, e: int): real {
    var magnitude := Scaled(n as real, Pow10(e));
    if negative then -magnitude else magnitude
  }

  lemma {:induction false} ScaledTen(a: real, p: real)
    ensures Scaled(10.0 * a, p) == Scaled(a, 10.0 * p)
  {
  }

  /** A trailing zero digit and an exponent one lower denote the same. */
  lemma {:induction false} ShiftKeeps(negative: bool, n: nat, k: nat, e: int)
    ensures Value(negative, Shift(n, k), e) == Value(negative, n, e + k)
  {
    if k > 0 {
      ShiftKeeps(negative, n, k - 1, e + 1);
      ScaledTen(Shift(n, k - 1) as real, Pow10(e));
    }
  }

  /** Powers below one are the inverses of those above. */
  lemma {:induction false} PowInverse(k: nat)
    ensures Pow10(k) > 0.0 && Scaled(Pow10(-(k as int)), Pow10(k)) == 1.0
  {
    if k > 0 {
      PowInverse(k - 1);
      assert Pow10(-(k as int)) == Pow10(-(k as int) + 1) / 10.0;
      assert Pow10(-(k as int) + 1) == 10.0 * Pow10(-(k as int));
      ScaledTen(Pow10(-(k as int)), Pow10(k - 1));
    }
  }

  /** What a value is: with an exponent that is not negative, the digits' number with as many zeros behind it; with a
      negative one, the number that becomes the digits' number when it is taken that many powers of ten up. */
  lemma {:induction false} ValueIs(negative: bool, n: nat, k: nat)
    ensures Value(negative, n, k) == if negative then -(Shift(n, k) as real) else Shift(n, k) as real
    ensures Value(negative, n, -(k as int)) * Shift(1, k) as real == if negative then -(n as real) else n as real
  {
    ShiftKeeps(negative, n, k, 0);
    ShiftKeeps(false, 1, k, 0);
    assert Pow10(0) == 1.0;
    PowInverse(k);
    Reordered(n as real, Pow10(-(k as int)), Pow10(k));
    assert Value(false, 1, k) == Pow10(k);
    if negative {
      assert Value(true, n, -(k as int)) == -Value(false, n, -(k as int));
    }
  }

  lemma {:induction false} Reordered(a: real, p: real, q: real)
    requires Scaled(p, q) == 1.0
    ensures Scaled(Scaled(a, p), q) == a
  {
    assert a * p * q == a * (p * q);
  }

  // ----- number texts ------------------------------------------------------------------------------------------

  /** An exponent part: its letter, its sign if written, its digits. */
  datatype Exponent = Exponent(letter: char, sign: string, digits: string)

  /** A decimal text in its parts: sign, integer digits, a point with fraction digits, an exponent. */
  datatype Numeral = Numeral(negative: bool, whole: string, frac: Option<string>, exp: Option<Exponent>)

  predicate OkExponent(e: Exponent) {
    (e.letter == 'e' || e.letter == 'E') && (e.sign == "" || e.sign == "+" || e.sign == "-")
    && e.digits != "" && Digits(e.digits)
  }

  predicate Ok(n: Numeral) {
    n.whole != "" && Digits(n.whole) && (n.frac.Some? ==> Digits(n.frac.value)) && (n.exp.Some? ==> OkExponent(n.exp.value))
  }

  function Mantissa(n: Numeral): string {
    (if n.negative then "-" else "") + n.whole + (if n.frac.Some? then "." + n.frac.value else "")
  }

  function Text(n: Numeral): string {
    Mantissa(n) + (if n.exp.Some? then [n.exp.value.letter] + n.exp.value.sign + n.exp.value.digits else "")
  }

  function Fraction(n: Numeral): string { if n.frac.Some? then n.frac.value else "" }

  function ExponentValue(e: Exponent): int
    requires OkExponent(e)
  {
    if e.sign == "-" then -(Nat(e.digits) as int) else Nat(e.digits)
  }

  function ExponentOf(n: Numeral): int
    requires Ok(n)
  {
    if n.exp.Some? then ExponentValue(n.exp.value) else 0
  }

  /** The number a numeral denotes. */
  function Denotes(n: Numeral): real
    requires Ok(n)
  {
    Value(n.negative, Nat(n.whole + Fraction(n)), ExponentOf(n) - |Fraction(n)|)
  }

  /** A number of section 6 of RFC 8259: no superfluous leading zero, and digits after a point. */
  predicate JsonNumber(n: Numeral) {
    Ok(n) && (|n.whole| == 1 || n.whole[0] != '0') && (n.frac.Some? ==> n.frac.value != "")
  }

  // ----- the texts are unambiguous -------------------------------------------------------------------------------

  predicate Plain(s: string) { forall i :: 0 <= i < |s| ==> s[i] != 'e' && s[i] != 'E' }

  /** `find_first_of("eE")`. */
  function FindExponent(s: string): (r: Option<nat>)
    ensures r.Some? ==> r.value < |s| && (s[r.value] == 'e' || s[r.value] == 'E') && Plain(s[..r.value])
    ensures r.None? ==> Plain(s)
  {
    if s == "" then None
    else if s[0] == 'e' || s[0] == 'E' then Some(0)
    else
      var rest := FindExponent(s[1..]);
      if rest.None? then None
      else
        assert s[..rest.value + 1] == [s[0]] + s[1..][..rest.value];
        Some(rest.value + 1)
  }

  lemma {:induction false} FindUnique(s: string, k: nat)
    requires k < |s| && (s[k] == 'e' || s[k] == 'E') && Plain(s[..k])
    ensures FindExponent(s) == Some(k)
  {
    var r := FindExponent(s);
    assert forall i :: 0 <= i < k ==> s[..k][i] == s[i];
    assert r.Some?;
    assert forall i :: 0 <= i < r.value ==> s[..r.value][i] == s[i];
  }

  lemma {:induction false} MantissaPlain(n: Numeral)
    requires Ok(n)
    ensures Plain(Mantissa(n))
  {
  }

  /** Where the exponent letter of a numeral's text is, and what stands on either side. */
  lemma {:induction false} TextParts(n: Numeral)
    requires Ok(n)
    ensures n.exp.None? ==> FindExponent(Text(n)) == None && Text(n) == Mantissa(n)
    ensures n.exp.Some? ==> FindExponent(Text(n)) == Some(|Mantissa(n)|)
    ensures n.exp.Some? ==> |Mantissa(n)| < |Text(n)| && Text(n)[..|Mantissa(n)|] == Mantissa(n)
    ensures n.exp.Some? ==> Text(n)[|Mantissa(n)| + 1..] == n.exp.value.sign + n.exp.value.digits
  {
    MantissaPlain(n);
    hide Plain, FindExponent;
    var m := Mantissa(n);
    if n.exp.Some? {
      assert Text(n)[..|m|] == m;
      assert Text(n)[|m| + 1..] == n.exp.value.sign + n.exp.value.digits;
      FindUnique(Text(n), |m|);
    } else {
      assert Text(n) == m;
      NoneFound(m);
    }
  }

  lemma {:induction false} NoneFound(s: string)
    requires Plain(s)
    ensures FindExponent(s) == None
  {
  }

  // ----- the rewriters, on any text ------------------------------------------------------------------------------

  function StripZeros(s: string): string { if s != "" && s[|s| - 1] == '0' then StripZeros(s[..|s| - 1]) else s }

  function StripPoint(s: string): string { if s != "" && s[|s| - 1] == '.' then s[..|s| - 1] else s }

  function ToString(n: int): string { if n < 0 then "-" + Decimal(-n) else Decimal(n) }

  /** `normalize_scientific`. */
  function NormalizeText(value: string, exponent: int): string {
    var at := FindExponent(value);
    if at.None? then value
    else
      var mantissa := value[..at.value];
      (if '.' in mantissa then StripPoint(StripZeros(mantissa)) else mantissa)
      + (if exponent >= 0 then "e+" else "e") + ToString(exponent)
  }

  method NormalizeScientific(value: string, exponent: int) returns (r: string)
    ensures r == NormalizeText(value, exponent)
  {
    var at := FindExponent(value);
    if at.None? { return value; }
    var mantissa := value[..at.value];
    if '.' in mantissa {
      ghost var whole := mantissa;
      while mantissa != "" && mantissa[|mantissa| - 1] == '0'
        invariant StripZeros(mantissa) == StripZeros(whole)
        decreases |mantissa|
      {
        mantissa := mantissa[..|mantissa| - 1];
      }
      if mantissa != "" && mantissa[|mantissa| - 1] == '.' {
        mantissa := mantissa[..|mantissa| - 1];
      }
    }
    return mantissa + (if exponent >= 0 then "e+" else "e") + ToString(exponent);
  }

  function DigitPrefix(s: string): (d: string)
    ensures Digits(d) && |d| <= |s|
  {
    if s == "" || !IsDigit(s[0]) then "" else [s[0]] + DigitPrefix(s[1..])
  }

  /** `std::from_chars` into a 32-bit int: a minus sign, the digits there are, an error when there are none or the
      value does not fit. */
  function FromChars(s: string): Option<int> {
    var negative := s != "" && s[0] == '-';
    var digits := DigitPrefix(if negative then s[1..] else s);
    if digits == "" then None
    else
      var v := if negative then -(Nat(digits) as int) else Nat(digits);
      if -0x8000_0000 <= v < 0x8000_0000 then Some(v) else None
  }

  function DropFirst(s: string, c: char): string { if s != "" && s[0] == c then s[1..] else s }

  /** The first point of a text. */
  function FindPoint(s: string): (r: Option<nat>)
    ensures r.Some? ==> r.value < |s| && s[r.value] == '.'
  {
    if s == "" then None
    else if s[0] == '.' then Some(0)
    else
      var rest := FindPoint(s[1..]);
      if rest.None? then None else Some(rest.value + 1)
  }

  /** Digits placed around a point. */
  function Place(digits: string, index: int): string {
    if index <= 0 then "0." + Zeros(-index) + digits
    else if index >= |digits| then digits + Zeros(index - |digits|) + ".0"
    else digits[..index] + "." + digits[index..]
  }

  /** The mantissa of the plain branch, its sign apart. */
  function PlainText(mantissa: string, exponent: int): string {
    var unsigned := DropFirst(mantissa, '-');
    var at := FindPoint(unsigned);
    var fractional := if at.None? then 0 else |unsigned| - at.value - 1;
    var digits := if at.None? then unsigned else unsigned[..at.value] + unsigned[at.value + 1..];
    (if unsigned != mantissa then "-" else "") + Place(digits, |digits| - fractional + exponent)
  }

  /** `rust_like_float_from_scientific`. */
  function Rewrite(value: string): string {
    var at := FindExponent(value);
    if at.None? then value
    else
      var parsed := FromChars(DropFirst(value[at.value + 1..], '+'));
      if parsed.None? then value
      else if parsed.value < -6 || parsed.value > 20 then NormalizeText(value, parsed.value)
      else PlainText(value[..at.value], parsed.value)
  }

  method RustLikeFloatFromScientific(value: string) returns (r: string)
    ensures r == Rewrite(value)
  {
    hide FindExponent, NormalizeText, FromChars, PlainText;
    var at := FindExponent(value);
    if at.None? { return value; }
    var exponentText := value[at.value + 1..];
    if exponentText != "" && exponentText[0] == '+' { exponentText := exponentText[1..]; }
    var parsed := FromChars(exponentText);
    if parsed.None? { return value; }
    var exponent := parsed.value;
    if exponent < -6 || exponent > 20 {
      r := NormalizeScientific(value, exponent);
    } else {
      r := PlaceMantissa(value[..at.value], exponent);
    }
  }

  lemma {:induction false} PlainTextOf(mantissa: string, unsigned: string, at: Option<nat>, digits: string, exponent: int)
    requires unsigned == DropFirst(mantissa, '-') && at == FindPoint(unsigned)
    requires at.None? ==> digits == unsigned
    requires at.Some? ==> digits == unsigned[..at.value] + unsigned[at.value + 1..]
    ensures PlainText(mantissa, exponent) == (if unsigned != mantissa then "-" else "")
      + Place(digits, |digits| - (if at.None? then 0 else |unsigned| - at.value - 1) + exponent)
  {
    hide DropFirst, FindPoint, Place;
  }

  /** The plain branch: sign off, point out, and the point back where the exponent puts it. */
  method PlaceMantissa(unplaced: string, exponent: int) returns (r: string)
    ensures r == PlainText(unplaced, exponent)
  {
    hide FindPoint, Zeros, Place, PlainText;
    var mantissa := unplaced;
    var sign := "";
    if mantissa != "" && mantissa[0] == '-' {
      sign := "-";
      mantissa := mantissa[1..];
    }
    ghost var unsigned := mantissa;
    var point := FindPoint(mantissa);
    var fractional := if point.None? then 0 else |mantissa| - point.value - 1;
    if point.Some? { mantissa := mantissa[..point.value] + mantissa[point.value + 1..]; }
    var index := |mantissa| - fractional + exponent;
    PlainTextOf(unplaced, unsigned, point, mantissa, exponent);
    r := PlaceDigits(mantissa, index);
    r := sign + r;
  }

  method PlaceDigits(digits: string, index: int) returns (r: string)
    ensures r == Place(digits, index)
  {
    if index <= 0 { return "0." + Zeros(-index) + digits; }
    if index >= |digits| { return digits + Zeros(index - |digits|) + ".0"; }
    return digits[..index] + "." + digits[index..];
  }

  // ----- what the rewriters do to a numeral -------------------------------------------------------------------------

  /** The numeral with its fraction's trailing zeros dropped and a new exponent. */
  function Normalized(n: Numeral, exponent: int): Numeral {
    var frac := StripZeros(Fraction(n));
    Numeral(n.negative, n.whole, if frac == "" then None else Some(frac),
            Some(Exponent('e', if exponent >= 0 then "+" else "-", Decimal(if exponent < 0 then -exponent else exponent))))
  }

  /** The numeral written plainly. */
  function Placed(n: Numeral, exponent: int): Numeral {
    var digits := n.whole + Fraction(n);
    var index := |n.whole| + exponent;
    if index <= 0 then Numeral(n.negative, "0", Some(Zeros(-index) + digits), None)
    else if index >= |digits| then Numeral(n.negative, digits + Zeros(index - |digits|), Some("0"), None)
    else Numeral(n.negative, digits[..index], Some(digits[index..]), None)
  }

  /** Whether the exponent fits an int. */
  predicate Fits(n: Numeral)
    requires Ok(n)
  {
    -0x8000_0000 <= ExponentOf(n) < 0x8000_0000
  }

  function Rewritten(n: Numeral): Numeral
    requires Ok(n)
  {
    if n.exp.None? || !Fits(n) then n
    else if ExponentOf(n) < -6 || ExponentOf(n) > 20 then Normalized(n, ExponentOf(n))
    else Placed(n, ExponentOf(n))
  }

  lemma {:induction false} StripZerosDigits(s: string)
    requires Digits(s)
    ensures Digits(StripZeros(s)) && |StripZeros(s)| <= |s| && s == StripZeros(s) + Zeros(|s| - |StripZeros(s)|)
  {
    if s != "" && s[|s| - 1] == '0' {
      var front := s[..|s| - 1];
      StripZerosDigits(front);
      var k := |front| - |StripZeros(front)|;
      assert s == front + "0" == StripZeros(front) + (Zeros(k) + "0");
      assert Zeros(k + 1) == Zeros(k) + "0";
    } else {
      assert s == s + Zeros(0);
    }
  }

  /** Stripping zeros stops at a point before a fraction at the latest. */
  lemma {:induction false} StripAfterPoint(front: string, frac: string)
    requires Digits(frac)
    ensures StripZeros(front + "." + frac) == front + "." + StripZeros(frac)
  {
    var s := front + "." + frac;
    if frac == "" {
      assert s == front + ".";
    } else {
      assert s[..|s| - 1] == front + "." + frac[..|frac| - 1];
      if frac[|frac| - 1] == '0' {
        StripAfterPoint(front, frac[..|frac| - 1]);
      }
    }
  }

  function SignText(n: Numeral): string { if n.negative then "-" else "" }

  /** A mantissa with a fraction ends, once stripped, in its last nonzero digit or in its integer part. */
  lemma {:induction false} StrippedMantissa(front: string, frac: string)
    requires Digits(frac)
    ensures '.' in front + "." + frac
    ensures StripPoint(StripZeros(front + "." + frac))
      == front + (if StripZeros(frac) == "" then "" else "." + StripZeros(frac))
  {
    StripAfterPoint(front, frac);
    StripZerosDigits(frac);
    var kept := StripZeros(frac);
    hide StripZeros, Zeros;
    var m := front + "." + frac;
    assert m[|front|] == '.';
    var z := front + "." + kept;
    if kept == "" {
      assert z == front + ".";
      assert z[..|z| - 1] == front;
    } else {
      assert z[|z| - 1] == kept[|kept| - 1];
      assert IsDigit(kept[|kept| - 1]);
      assert z == front + ("." + kept);
    }
  }

  lemma {:induction false} MantissaNormalized(n: Numeral, exponent: int)
    requires Ok(n)
    ensures Mantissa(Normalized(n, exponent)) ==
      if '.' in Mantissa(n) then StripPoint(StripZeros(Mantissa(n))) else Mantissa(n)
  {
    hide Decimal;
    var m := Mantissa(n);
    var front := SignText(n) + n.whole;
    if n.frac.Some? {
      assert m == front + "." + n.frac.value;
      StrippedMantissa(front, n.frac.value);
    } else {
      assert m == front;
      assert '.' !in n.whole;
      assert '.' !in m;
      assert StripZeros("") == "";
    }
  }

  lemma {:induction false} ExponentText(m: string, exponent: int)
    ensures m + (if exponent >= 0 then "e+" else "e") + ToString(exponent) ==
      m + (['e'] + (if exponent >= 0 then "+" else "-") + Decimal(if exponent < 0 then -exponent else exponent))
  {
    hide Decimal;
    var digits := Decimal(if exponent < 0 then -exponent else exponent);
    if exponent >= 0 {
      assert m + "e+" + digits == m + (['e'] + "+" + digits);
    } else {
      assert m + "e" + ("-" + digits) == m + (['e'] + "-" + digits);
    }
  }

  /** The text `normalize_scientific` makes of a numeral is the normalised numeral's. */
  lemma {:induction false} NormalizeTextIs(n: Numeral, exponent: int)
    requires Ok(n) && n.exp.Some?
    ensures NormalizeText(Text(n), exponent) == Text(Normalized(n, exponent))
  {
    TextParts(n);
    MantissaNormalized(n, exponent);
    ExponentText(Mantissa(Normalized(n, exponent)), exponent);
    hide FindExponent, Mantissa, StripZeros, StripPoint, Decimal, NormalizeText, ToString, Ok, Fraction;
  }

  lemma {:induction false} NormalizedParts(n: Numeral, e: int)
    requires Ok(n)
    ensures Ok(Normalized(n, e)) && ExponentOf(Normalized(n, e)) == e
    ensures Fraction(Normalized(n, e)) == StripZeros(Fraction(n))
    ensures Normalized(n, e).whole == n.whole && Normalized(n, e).negative == n.negative
  {
    hide StripZeros, Decimal, Nat;
    StripZerosDigits(Fraction(n));
    NatOfDecimal(if e < 0 then -e else e);
  }

  /** Trailing zeros of a fraction carry no value. */
  lemma {:induction false} StripKeepsValue(negative: bool, whole: string, frac: string, e: int)
    requires Digits(whole) && Digits(frac)
    ensures Digits(StripZeros(frac)) && Digits(whole + frac) && Digits(whole + StripZeros(frac))
    ensures Value(negative, Nat(whole + StripZeros(frac)), e - |StripZeros(frac)|)
         == Value(negative, Nat(whole + frac), e - |frac|)
  {
    hide StripZeros, Value, Nat, Zeros, Shift;
    var kept := StripZeros(frac);
    StripZerosDigits(frac);
    var k := |frac| - |kept|;
    assert whole + frac == (whole + kept) + Zeros(k);
    NatOfConcat(whole + kept, Zeros(k));
    NatOfZeros(k);
    ShiftKeeps(negative, Nat(whole + kept), k, e - |frac|);
  }

  lemma {:induction false} NormalizedDenotes(n: Numeral)
    requires Ok(n) && n.exp.Some?
    ensures Ok(Normalized(n, ExponentOf(n))) && Denotes(Normalized(n, ExponentOf(n))) == Denotes(n)
  {
    hide *;
    var e := ExponentOf(n);
    var m := Normalized(n, e);
    NormalizedParts(n, e);
    DenotesParts(n);
    DenotesParts(m);
    FractionDigits(n);
    StripKeepsValue(n.negative, n.whole, Fraction(n), e);
  }

  lemma {:induction false} FractionDigits(n: Numeral)
    requires Ok(n)
    ensures Digits(n.whole) && Digits(Fraction(n))
  {
  }

  lemma {:induction false} DenotesParts(n: Numeral)
    requires Ok(n)
    ensures Digits(n.whole + Fraction(n))
    ensures Denotes(n) == Value(n.negative, Nat(n.whole + Fraction(n)), ExponentOf(n) - |Fraction(n)|)
  {
    hide Value, Nat, ExponentOf;
  }

  lemma {:induction false} FindPointAfter(a: string, b: string)
    requires Digits(a)
    ensures FindPoint(a + "." + b) == Some(|a|) && FindPoint(a) == None
  {
    if a != "" {
      FindPointAfter(a[1..], b);
      assert (a + "." + b)[1..] == a[1..] + "." + b;
      assert IsDigit(a[0]);
    } else {
      assert a + "." + b == "." + b;
    }
  }

  /** A numeral's mantissa comes apart into sign, digits and the place of the point. */
  lemma {:induction false} MantissaApart(n: Numeral)
    requires Ok(n)
    ensures DropFirst(Mantissa(n), '-') != Mantissa(n) <==> n.negative
    ensures var u := DropFirst(Mantissa(n), '-'); n.frac.None? ==> FindPoint(u) == None && u == n.whole
    ensures var u := DropFirst(Mantissa(n), '-');
      n.frac.Some? ==> FindPoint(u) == Some(|n.whole|) && |u| == |n.whole| + 1 + |n.frac.value|
    ensures var u := DropFirst(Mantissa(n), '-');
      n.frac.Some? && |u| > |n.whole| ==> u[..|n.whole|] == n.whole && u[|n.whole| + 1..] == n.frac.value
  {
    hide FindPoint;
    var m := Mantissa(n);
    var unsigned := n.whole + (if n.frac.Some? then "." + n.frac.value else "");
    assert IsDigit(n.whole[0]);
    assert m == SignText(n) + unsigned;
    assert DropFirst(m, '-') == unsigned;
    if n.frac.Some? {
      assert unsigned == n.whole + "." + n.frac.value;
      FindPointAfter(n.whole, n.frac.value);
    } else {
      assert unsigned == n.whole;
      FindPointAfter(n.whole, "");
    }
  }

  lemma {:induction false} FractionOf(n: Numeral)
    ensures n.frac.None? ==> Fraction(n) == ""
    ensures n.frac.Some? ==> Fraction(n) == n.frac.value
    ensures SignText(n) == if n.negative then "-" else ""
  {
  }

  lemma {:induction false} PlainTextPoint(m: string, u: string, whole: string, frac: string, exponent: int)
    requires u == DropFirst(m, '-') && FindPoint(u) == Some(|whole|) && |u| == |whole| + 1 + |frac|
    requires u[..|whole|] == whole && u[|whole| + 1..] == frac
    ensures PlainText(m, exponent) == (if u != m then "-" else "") + Place(whole + frac, |whole| + exponent)
  {
    hide *;
    PlainTextOf(m, u, Some(|whole|), whole + frac, exponent);
  }

  lemma {:induction false} PlainTextParts(n: Numeral, exponent: int)
    requires Ok(n)
    ensures PlainText(Mantissa(n), exponent) == SignText(n) + Place(n.whole + Fraction(n), |n.whole| + exponent)
  {
    hide *;
    MantissaApart(n);
    FractionOf(n);
    var u := DropFirst(Mantissa(n), '-');
    if n.frac.None? {
      assert n.whole + "" == n.whole;
      PlainTextOf(Mantissa(n), u, None, n.whole, exponent);
    } else {
      PlainTextPoint(Mantissa(n), u, n.whole, n.frac.value, exponent);
    }
  }

  /** The text of the plain branch is the placed numeral's. */
  lemma {:induction false} PlainTextIs(n: Numeral, exponent: int)
    requires Ok(n)
    ensures PlainText(Mantissa(n), exponent) == Text(Placed(n, exponent))
  {
    hide Mantissa, Place, Text, Placed, PlainText, Ok;
    PlainTextParts(n, exponent);
    PlaceIs(n, exponent);
  }

  lemma {:induction false} TextOfPlain(n: Numeral, whole: string, frac: string)
    ensures SignText(n) + (whole + "." + frac) == Text(Numeral(n.negative, whole, Some(frac), None))
  {
    var sign := SignText(n);
    assert sign + (whole + "." + frac) == sign + whole + ("." + frac) + "";
  }

  lemma {:induction false} PlaceIs(n: Numeral, exponent: int)
    requires Ok(n)
    ensures SignText(n) + Place(n.whole + Fraction(n), |n.whole| + exponent) == Text(Placed(n, exponent))
  {
    hide Zeros, Fraction, Text, SignText, Ok;
    var digits := n.whole + Fraction(n);
    var index := |n.whole| + exponent;
    var p := Placed(n, exponent);
    TextOfPlain(n, p.whole, p.frac.value);
    if index <= 0 {
      assert "0." + Zeros(-index) + digits == "0" + "." + (Zeros(-index) + digits);
    } else if index >= |digits| {
      assert digits + Zeros(index - |digits|) + ".0" == digits + Zeros(index - |digits|) + "." + "0";
    }
  }

  lemma {:induction false} LeadingZeros(k: nat, digits: string)
    requires Digits(digits)
    ensures Digits("0" + (Zeros(k) + digits)) && Nat("0" + (Zeros(k) + digits)) == Nat(digits)
  {
    NatOfZero();
    hide Nat;
    var z := Zeros(k);
    assert "0" + (z + digits) == ("0" + z) + digits;
    NatOfConcat("0", z);
    NatOfZeros(k);
    ShiftZero(|z|);
    NatOfConcat("0" + z, digits);
    ShiftZero(|digits|);
  }

  lemma {:induction false} NatOfZero()
    ensures Nat("0") == 0
  {
    assert "0"[..0] == "";
  }

  lemma {:induction false} TrailingZeros(negative: bool, digits: string, k: nat)
    requires Digits(digits)
    ensures Digits(digits + Zeros(k) + "0")
    ensures Value(negative, Nat(digits + Zeros(k) + "0"), -1) == Value(negative, Nat(digits), k)
  {
    NatOfZero();
    hide Nat, Value;
    var z := Zeros(k);
    NatOfConcat(digits, z);
    NatOfZeros(k);
    NatOfConcat(digits + z, "0");
    ShiftKeeps(negative, Shift(Nat(digits), k), 1, -1);
    ShiftKeeps(negative, Nat(digits), k, 0);
  }

  lemma {:induction false} PlacedDenotes(n: Numeral)
    requires Ok(n)
    ensures Ok(Placed(n, ExponentOf(n))) && Denotes(Placed(n, ExponentOf(n))) == Denotes(n)
  {
    hide Nat, Value, Zeros, ExponentValue;
    var e := ExponentOf(n);
    var digits := n.whole + Fraction(n);
    var index := |n.whole| + e;
    assert Digits(digits);
    if index <= 0 {
      LeadingZeros(-index, digits);
    } else if index >= |digits| {
      TrailingZeros(n.negative, digits, index - |digits|);
    } else {
      assert digits[..index] + digits[index..] == digits;
    }
  }

  lemma {:induction false} DigitPrefixAll(s: string)
    requires Digits(s)
    ensures DigitPrefix(s) == s
  {
    if s != "" {
      DigitPrefixAll(s[1..]);
      assert s == [s[0]] + s[1..];
    }
  }

  /** `from_chars` reads the exponent a numeral writes. */
  lemma {:induction false} ExponentParsed(n: Numeral)
    requires Ok(n) && n.exp.Some?
    ensures FromChars(DropFirst(n.exp.value.sign + n.exp.value.digits, '+')) ==
      if Fits(n) then Some(ExponentOf(n)) else None
  {
    var e := n.exp.value;
    DigitPrefixAll(e.digits);
    assert IsDigit(e.digits[0]);
    if e.sign == "" {
      assert e.sign + e.digits == e.digits;
    } else {
      assert (e.sign + e.digits)[1..] == e.digits;
    }
  }

  lemma {:induction false} SignedDigits(a: Exponent, b: Exponent)
    requires OkExponent(a) && OkExponent(b) && a.sign + a.digits == b.sign + b.digits
    ensures a.sign == b.sign && a.digits == b.digits
  {
    assert IsDigit(a.digits[0]) && IsDigit(b.digits[0]);
    assert (a.sign + a.digits)[0] == (b.sign + b.digits)[0];
    assert a.sign == b.sign;
    assert (a.sign + a.digits)[|a.sign|..] == a.digits && (b.sign + b.digits)[|b.sign|..] == b.digits;
  }

  /** A text is the text of at most one numeral, so what it denotes is well defined. */
  lemma {:induction false} TextInjective(a: Numeral, b: Numeral)
    requires Ok(a) && Ok(b) && Text(a) == Text(b)
    ensures a == b
  {
    TextParts(a);
    TextParts(b);
    LetterOf(a);
    LetterOf(b);
    assert Mantissa(a) == Mantissa(b);
    if a.exp.Some? {
      SignedDigits(a.exp.value, b.exp.value);
    }
    MantissaApart(a);
    MantissaApart(b);
    hide Mantissa, Text, FindExponent, DropFirst, FindPoint, Digits;
    assert a.negative == b.negative;
    assert a.frac.Some? == b.frac.Some?;
  }

  lemma {:induction false} LetterOf(n: Numeral)
    requires Ok(n)
    ensures n.exp.Some? ==> |Mantissa(n)| < |Text(n)| && Text(n)[|Mantissa(n)|] == n.exp.value.letter
  {
  }

  lemma {:induction false} RewriteOf(value: string, mantissa: string, exponentText: string)
    requires FindExponent(value) == Some(|mantissa|) && |mantissa| < |value|
    requires value[..|mantissa|] == mantissa && value[|mantissa| + 1..] == exponentText
    ensures var parsed := FromChars(DropFirst(exponentText, '+'));
      Rewrite(value) ==
        if parsed.None? then value
        else if parsed.value < -6 || parsed.value > 20 then NormalizeText(value, parsed.value)
        else PlainText(mantissa, parsed.value)
  {
    hide FindExponent, FromChars, DropFirst, NormalizeText, PlainText;
  }

  lemma {:induction false} RewrittenOf(n: Numeral)
    requires Ok(n) && n.exp.Some?
    ensures var e := ExponentOf(n);
      Rewritten(n) == if !Fits(n) then n else if e < -6 || e > 20 then Normalized(n, e) else Placed(n, e)
  {
    hide Normalized, Placed, Ok, ExponentOf;
  }

  lemma {:induction false} RewriteUnmarked(n: Numeral)
    requires Ok(n) && n.exp.None?
    ensures Rewrite(Text(n)) == Text(n) && Rewritten(n) == n
  {
    TextParts(n);
    hide FindExponent, Text, Ok;
  }

  lemma {:induction false} RewriteTextIs(n: Numeral)
    requires Ok(n)
    ensures Rewrite(Text(n)) == Text(Rewritten(n))
  {
    hide *;
    if n.exp.Some? {
      TextParts(n);
      RewriteOf(Text(n), Mantissa(n), n.exp.value.sign + n.exp.value.digits);
      RewrittenOf(n);
      ExponentParsed(n);
      NormalizeTextIs(n, ExponentOf(n));
      PlainTextIs(n, ExponentOf(n));
    } else {
      RewriteUnmarked(n);
    }
  }

  /** Every number text is rewritten to a number text of the same value. */
  lemma {:induction false} RewriteKeepsValue(n: Numeral)
    requires Ok(n)
    ensures Rewrite(Text(n)) == Text(Rewritten(n)) && Ok(Rewritten(n)) && Denotes(Rewritten(n)) == Denotes(n)
  {
    hide *;
    RewriteTextIs(n);
    if n.exp.Some? {
      RewrittenOf(n);
      NormalizedDenotes(n);
      PlacedDenotes(n);
    } else {
      RewriteUnmarked(n);
    }
  }

  /** When the result is a JSON number: plainly written, unless a leading zero moves left of the point; otherwise,
      when the integer part was one. */
  lemma {:induction false} RewriteGrammar(n: Numeral)
    requires Ok(n) && n.exp.Some? && Fits(n)
    ensures JsonNumber(Rewritten(n)) <==>
      if -6 <= ExponentOf(n) <= 20 then n.whole[0] != '0' || |n.whole| + ExponentOf(n) <= 1
      else n.whole[0] != '0' || |n.whole| == 1
  {
    hide Denotes, StripZeros;
    if -6 <= ExponentOf(n) <= 20 {
      PlacedDenotes(n);
    } else {
      NormalizedDenotes(n);
    }
  }

  /** Texts without an exponent, and texts whose exponent no int holds, are left alone. */
  lemma {:induction false} RewriteLeaves(n: Numeral)
    requires Ok(n) && (n.exp.None? || !Fits(n))
    ensures Rewrite(Text(n)) == Text(n)
  {
    hide Denotes;
    RewriteKeepsValue(n);
  }

  /** A leading zero is not always harmless: 0.5e1 becomes 05.0, which is no JSON number. */
  lemma {:induction false} LeadingZeroMoves()
    ensures var n := Numeral(false, "0", Some("5"), Some(Exponent('e', "", "1")));
      JsonNumber(n) && Rewrite(Text(n)) == Text(Rewritten(n)) && !JsonNumber(Rewritten(n))
    ensures Text(Numeral(false, "0", Some("5"), Some(Exponent('e', "", "1")))) == "0.5e1"
    ensures Placed(Numeral(false, "0", Some("5"), Some(Exponent('e', "", "1"))), 1) == Numeral(false, "05", Some("0"), None)
  {
    var n := Numeral(false, "0", Some("5"), Some(Exponent('e', "", "1")));
    assert ExponentOf(n) == 1;
    RewriteKeepsValue(n);
    RewriteGrammar(n);
    TextOfHalf(n);
    hide Nat, Denotes, Rewrite, ExponentOf, Zeros, Normalized, Text, Rewritten;
    assert "0" + "5" == "05" && Zeros(0) == "" && "05" + "" == "05";
  }

  lemma {:induction false} TextOfHalf(n: Numeral)
    requires n == Numeral(false, "0", Some("5"), Some(Exponent('e', "", "1")))
    ensures Text(n) == "0.5e1"
  {
  }
}
