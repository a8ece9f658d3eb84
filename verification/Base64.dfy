/** Standard base64 with padding (RFC 4648 section 4), and its decoder. */
module Base64 {
  import opened Text

  predicate IsByteText(s: string) {
    forall i :: 0 <= i < |s| ==> s[i] < 256 as char
  }

  function Digit(n: nat): char
    requires n < 64
  {
    if n < 26 then 'A' + n as char
    else if n < 52 then 'a' + (n - 26) as char
    else if n < 62 then '0' + (n - 52) as char
    else if n == 62 then '+' else '/'
  }

  /** The alphabet of RFC 4648 section 4: capitals, small letters, digits, plus and slash. */
  lemma Alphabet(n: nat)
    requires n < 64
    ensures Digit(n) as int == if n < 26 then 65 + n else if n < 52 then 71 + n else if n < 62 then n - 4
                               else if n == 62 then 43 else 47
  {}

  /** Test vectors of RFC 4648 section 10. */
  lemma Vectors()
    ensures Encode("") == "" && Encode("f") == "Zg==" && Encode("fo") == "Zm8=" && Encode("foo") == "Zm9v"
    ensures Encode("foobar") == "Zm9vYmFy"
  {
    assert "foo"[3..] == "" && "foobar"[3..] == "bar" && "bar"[3..] == "";
    assert Encode("bar") == "YmFy";
  }

  function Value(c: char): Option<nat> {
    if 'A' <= c <= 'Z' then Some((c - 'A') as nat)
    else if 'a' <= c <= 'z' then Some((c - 'a') as nat + 26)
    else if '0' <= c <= '9' then Some((c - '0') as nat + 52)
    else if c == '+' then Some(62) else if c == '/' then Some(63) else None
  }

  lemma DigitValue(n: nat)
    requires n < 64
    ensures Value(Digit(n)) == Some(n) && Digit(n) != '='
  {}

  function D1(a: nat): nat { a / 4 }
  function D2(a: nat, b: nat): nat { a % 4 * 16 + b / 16 }
  function D3(b: nat, c: nat): nat { b % 16 * 4 + c / 64 }
  function D4(c: nat): nat { c % 64 }

  function Encode(s: string): string
    requires IsByteText(s)
  {
    if s == "" then ""
    else
      var a := s[0] as nat;
      if |s| == 1 then [Digit(D1(a)), Digit(D2(a, 0)), '=', '=']
      else
        var b := s[1] as nat;
        if |s| == 2 then [Digit(D1(a)), Digit(D2(a, b)), Digit(D3(b, 0)), '=']
        else
          var c := s[2] as nat;
          [Digit(D1(a)), Digit(D2(a, b)), Digit(D3(b, c)), Digit(D4(c))] + Encode(s[3..])
  }

  function First(d1: nat, d2: nat): nat { d1 * 4 + d2 / 16 }
  function Second(d2: nat, d3: nat): nat { d2 % 16 * 16 + d3 / 4 }
  function Third(d3: nat, d4: nat): nat { d3 % 4 * 64 + d4 }

  predicate Padded(t: string)
    requires |t| >= 4
  {
    |t| == 4 && t[3] == '='
  }

  function Decode(t: string): Option<string> {
    if t == "" then Some("")
    else if |t| < 4 || Value(t[0]) == None || Value(t[1]) == None then None
    else
      var d1, d2 := Value(t[0]).value, Value(t[1]).value;
      if Padded(t) && t[2] == '=' then Some([ByteChar(First(d1, d2))])
      else if Value(t[2]) == None then None
      else
        var d3 := Value(t[2]).value;
        if Padded(t) then Some([ByteChar(First(d1, d2)), ByteChar(Second(d2, d3))])
        else if Value(t[3]) == None then None
        else
          match Decode(t[4..])
          case None => None
          case Some(rest) =>
            Some([ByteChar(First(d1, d2)), ByteChar(Second(d2, d3)), ByteChar(Third(d3, Value(t[3]).value))] + rest)
  }

  function ByteChar(n: nat): char {
    (n % 256) as char
  }

  lemma Recombine(a: nat, b: nat, c: nat)
    requires a < 256 && b < 256 && c < 256
    ensures D1(a) < 64 && D2(a, b) < 64 && D3(b, c) < 64 && D4(c) < 64
    ensures First(D1(a), D2(a, b)) == a && Second(D2(a, b), D3(b, c)) == b && Third(D3(b, c), D4(c)) == c
  {}

  /** Decoding undoes encoding, for every byte string. */
  lemma {:induction false} DecodeEncode(s: string)
    requires IsByteText(s)
    ensures Decode(Encode(s)) == Some(s)
  {
    hide Digit, Value, D1, D2, D3, D4, First, Second, Third;
    if s != "" {
      var a := s[0] as nat;
      var b := if |s| > 1 then s[1] as nat else 0;
      var c := if |s| > 2 then s[2] as nat else 0;
      Recombine(a, b, c);
      DigitValue(D1(a));
      DigitValue(D2(a, b));
      DigitValue(D3(b, c));
      DigitValue(D4(c));
      if |s| > 2 {
        DecodeEncode(s[3..]);
        assert Encode(s)[4..] == Encode(s[3..]);
        assert s == [s[0], s[1], s[2]] + s[3..];
      } else if |s| == 2 {
        assert s == [s[0], s[1]];
      } else {
        assert s == [s[0]];
      }
    }
  }

  lemma DigitIsPlain(n: nat)
    requires n < 64
    ensures '+' <= Digit(n) <= 'z' && Digit(n) != ':'
  {}

  /** Base64 text is one word: no space, line end or colon. */
  lemma {:induction false} EncodedIsPlain(s: string)
    requires IsByteText(s)
    ensures forall i :: 0 <= i < |Encode(s)| ==> '+' <= Encode(s)[i] <= 'z' && Encode(s)[i] != ':'
  {
    hide D1, D2, D3, D4, Digit;
    if s != "" {
      var a := s[0] as nat;
      var b := if |s| > 1 then s[1] as nat else 0;
      var c := if |s| > 2 then s[2] as nat else 0;
      Recombine(a, b, c);
      DigitIsPlain(D1(a));
      DigitIsPlain(D2(a, b));
      DigitIsPlain(D3(b, c));
      DigitIsPlain(D4(c));
      if |s| > 2 {
        EncodedIsPlain(s[3..]);
        assert Encode(s) == [Digit(D1(a)), Digit(D2(a, b)), Digit(D3(b, c)), Digit(D4(c))] + Encode(s[3..]);
      }
    }
  }
}
