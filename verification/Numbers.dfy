/** Unsigned numbers as text: what `to_string` writes and what `from_str_radix` accepts. */
module Numbers {
  import opened Text

  const USIZE_MAX := 0xFFFF_FFFF_FFFF_FFFF

  function Min(a: nat, b: nat): nat {
    if a <= b then a else b
  }

  function DigitChar(d: nat): char
    requires d < 10
  {
    '0' + d as char
  }

  function Decimal(n: nat): string {
    if n < 10 then [DigitChar(n)] else Decimal(n / 10) + [DigitChar(n % 10)]
  }

  datatype Radix = Ten | Sixteen {
    function Base(): nat { if Ten? then 10 else 16 }

    function Shift(n: nat): nat { if Ten? then 10 * n else 16 * n }
  }

  function DigitValue(c: char, radix: Radix): Option<nat> {
    var v: nat :=
      if '0' <= c <= '9' then (c - '0') as nat
      else if 'a' <= c <= 'z' then (c - 'a') as nat + 10
      else if 'A' <= c <= 'Z' then (c - 'A') as nat + 10
      else 36;
    if v < radix.Base() then Some(v) else None
  }

  function DigitsValue(s: string, radix: Radix): Option<nat> {
    if s == "" then Some(0)
    else
      var high := DigitsValue(s[..|s| - 1], radix);
      var low := DigitValue(s[|s| - 1], radix);
      if high.Some? && low.Some? then Some(radix.Shift(high.value) + low.value) else None
  }

  /** `from_str_radix`: an optional plus sign, at least one digit, no overflow. */
  function ParseUint(s: string, radix: Radix, max: nat): Option<nat> {
    var digits := if "+" <= s then s[1..] else s;
    if digits == "" then None
    else
      var v := DigitsValue(digits, radix);
      if v.Some? && v.value <= max then v else None
  }

  lemma {:induction false} DecimalDigits(n: nat)
    ensures DigitsValue(Decimal(n), Ten) == Some(n)
    ensures Decimal(n) != ""
    ensures forall c :: c in Decimal(n) ==> '0' <= c <= '9'
  {
    var last := DigitChar(n % 10);
    assert DigitValue(last, Ten) == Some(n % 10);
    if n < 10 {
      assert Decimal(n)[..0] == "";
    } else {
      DecimalDigits(n / 10);
      var s := Decimal(n);
      assert s[..|s| - 1] == Decimal(n / 10);
    }
  }

  /** Digits are written most significant first. */
  lemma DecimalDigitsAre(n: nat)
    ensures 10 <= n < 100 ==> Decimal(n) == ['0' + (n / 10) as char, '0' + (n % 10) as char]
    ensures n >= 10 ==> Decimal(n) == Decimal(n / 10) + Decimal(n % 10)
  {}

  /** A written number reads back as itself. */
  lemma ParseDecimal(n: nat, max: nat)
    requires n <= max
    ensures ParseUint(Decimal(n), Ten, max) == Some(n)
  {
    DecimalDigits(n);
    assert Decimal(n)[0] in Decimal(n);
  }

  /** A sign in front is accepted. */
  lemma PlusIsAccepted(n: nat, max: nat)
    requires n <= max
    ensures ParseUint("+" + Decimal(n), Ten, max) == Some(n)
  {
    DecimalDigits(n);
    assert ("+" + Decimal(n))[1..] == Decimal(n);
  }

  /** Larger numbers are refused, and so is a text with anything but digits behind the sign. */
  lemma TooLargeIsRefused(n: nat, max: nat)
    requires n > max
    ensures ParseUint(Decimal(n), Ten, max) == None
  {
    DecimalDigits(n);
    assert Decimal(n)[0] in Decimal(n);
  }

  function HexDigit(d: nat): char
    requires d < 16
  {
    if d < 10 then '0' + d as char else 'a' + (d - 10) as char
  }

  function Hex(n: nat): string {
    if n < 16 then [HexDigit(n)] else Hex(n / 16) + [HexDigit(n % 16)]
  }

  lemma HexDigitValue(i: nat)
    requires i < 16
    ensures DigitValue(HexDigit(i), Sixteen) == Some(i) && DigitValue(UpperChar(HexDigit(i)), Sixteen) == Some(i)
    ensures HexDigit(i) != '+' && UpperChar(HexDigit(i)) != '+'
  {}

  lemma OneMoreDigit(s: string, high: nat, c: char, low: nat)
    requires DigitsValue(s, Sixteen) == Some(high) && DigitValue(c, Sixteen) == Some(low)
    ensures DigitsValue(s + [c], Sixteen) == Some(16 * high + low)
  {
    hide DigitValue;
    assert (s + [c])[..|s|] == s && (s + [c])[|s|] == c;
  }

  /** Hexadecimal numbers read back, in small and in capital letters. */
  lemma {:induction false} HexReadsBack(n: nat)
    ensures Hex(n) != "" && Hex(n)[0] != '+' && Upper(Hex(n))[0] != '+'
    ensures DigitsValue(Hex(n), Sixteen) == Some(n) && DigitsValue(Upper(Hex(n)), Sixteen) == Some(n)
  {
    hide DigitValue, DigitsValue, UpperChar;
    var digit := HexDigit(n % 16);
    HexDigitValue(n % 16);
    NoDigits();
    if n < 16 {
      OneMoreDigit("", 0, digit, n);
      OneMoreDigit("", 0, UpperChar(digit), n);
      assert "" + [digit] == Hex(n) && "" + [UpperChar(digit)] == Upper(Hex(n));
    } else {
      HexReadsBack(n / 16);
      OneMoreDigit(Hex(n / 16), n / 16, digit, n % 16);
      OneMoreDigit(Upper(Hex(n / 16)), n / 16, UpperChar(digit), n % 16);
      assert Upper(Hex(n / 16)) + [UpperChar(digit)] == Upper(Hex(n));
    }
  }

  lemma NoDigits()
    ensures DigitsValue("", Sixteen) == Some(0)
  {}

  /** A written number is one token without colons, so it survives trimming and splitting. */
  lemma DecimalIsToken(n: nat)
    ensures IsToken(Decimal(n)) && Trimmed(Decimal(n)) && ':' !in Decimal(n) && '\n' !in Decimal(n) && ' ' !in Decimal(n)
  {
    DecimalDigits(n);
    forall i | 0 <= i < |Decimal(n)| ensures !IsSpace(Decimal(n)[i]) {
      assert Decimal(n)[i] in Decimal(n);
    }
  }
}
