/** ASCII text primitives shared by the line-based formats: one `char` stands for one byte. */
module Text {

  datatype Option<+T> = None | Some(value: T)

  /** White space as `trim` and `split_whitespace` see it in ASCII text: space and TAB..CR. */
  predicate IsSpace(c: char) {
    c == ' ' || '\t' <= c <= '\r'
  }

  /** White space in ASCII: tab to carriage return, and the blank. */
  lemma WhiteSpace(c: char)
    ensures IsSpace(c) <==> 9 <= c as int <= 13 || c as int == 32
  {}

  function LowerChar(c: char): char {
    if 'A' <= c <= 'Z' then c - 'A' + 'a' else c
  }

  function Lower(s: string): (r: string)
    ensures |r| == |s|
  {
    seq(|s|, i requires 0 <= i < |s| => LowerChar(s[i]))
  }

  function UpperChar(c: char): char {
    if 'a' <= c <= 'z' then c - 'a' + 'A' else c
  }

  function Upper(s: string): (r: string)
    ensures |r| == |s|
  {
    seq(|s|, i requires 0 <= i < |s| => UpperChar(s[i]))
  }

  // ---------------------------------------------------------------- trimming

  /** Case folding moves the 26 letters by 32 places and leaves everything else alone. */
  lemma LetterCase(c: char)
    ensures LowerChar(c) as int == if 65 <= c as int <= 90 then c as int + 32 else c as int
    ensures UpperChar(c) as int == if 97 <= c as int <= 122 then c as int - 32 else c as int
  {}

  function TrimStart(s: string): string {
    if s != "" && IsSpace(s[0]) then TrimStart(s[1..]) else s
  }

  function TrimEnd(s: string): string {
    if s != "" && IsSpace(s[|s| - 1]) then TrimEnd(s[..|s| - 1]) else s
  }

  function Trim(s: string): string {
    TrimEnd(TrimStart(s))
  }

  predicate IsBlank(s: string) {
    forall i :: 0 <= i < |s| ==> IsSpace(s[i])
  }

  predicate Trimmed(s: string) {
    s != "" ==> !IsSpace(s[0]) && !IsSpace(s[|s| - 1])
  }

  lemma TrimFixed(s: string)
    requires Trimmed(s)
    ensures Trim(s) == s
  {}

  lemma TrimSpaceBefore(s: string)
    ensures Trim(" " + s) == Trim(s)
  {
    assert (" " + s)[1..] == s;
  }

  lemma TrimEndFacts(s: string)
    ensures TrimEnd(s) <= s
    ensures TrimEnd(s) != "" ==> !IsSpace(TrimEnd(s)[|TrimEnd(s)| - 1])
    ensures IsBlank(s) <==> TrimEnd(s) == ""
  {
    if s != "" && IsSpace(s[|s| - 1]) {
      TrimEndFacts(s[..|s| - 1]);
    }
  }

  lemma BlankTail(s: string)
    requires s != "" && IsSpace(s[0])
    ensures IsBlank(s) <==> IsBlank(s[1..])
  {
    hide IsSpace;
    assert forall i :: 1 <= i < |s| ==> s[i] == s[1..][i - 1];
  }

  lemma {:induction false} TrimStartFacts(s: string)
    ensures |TrimStart(s)| <= |s| && TrimStart(s) == s[|s| - |TrimStart(s)|..]
    ensures TrimStart(s) != "" ==> !IsSpace(TrimStart(s)[0])
    ensures IsBlank(s) <==> TrimStart(s) == ""
  {
    hide IsSpace;
    if s != "" && IsSpace(s[0]) {
      TrimStartFacts(s[1..]);
      BlankTail(s);
      hide IsBlank;
      var k := |TrimStart(s[1..])|;
      assert s[1..][|s| - 1 - k..] == s[|s| - k..];
    }
  }

  /** Blanks around a text are trimmed. */
  lemma TrimAround(before: string, s: string, after: string)
    requires IsBlank(before) && IsBlank(after) && s != "" && Trimmed(s)
    ensures Trim(before + s + after) == s
    decreases |before| + |after|
  {
    var t := before + s + after;
    if before != "" {
      assert t[1..] == before[1..] + s + after;
      TrimAround(before[1..], s, after);
    } else if after != "" {
      var n := |after| - 1;
      assert t == s + after && t[..|t| - 1] == "" + s + after[..n];
      TrimAround("", s, after[..n]);
      assert TrimStart(t) == t && TrimStart(t[..|t| - 1]) == t[..|t| - 1];
    } else {
      assert t == s;
      TrimFixed(s);
    }
  }

  lemma TrimFacts(s: string)
    ensures Trimmed(Trim(s))
    ensures Trim(s) == "" <==> IsBlank(s)
    ensures forall c :: c in Trim(s) ==> c in s
  {
    TrimStartFacts(s);
    TrimEndFacts(TrimStart(s));
    if TrimStart(s) != "" {
      assert !IsBlank(TrimStart(s)) by { assert !IsSpace(TrimStart(s)[0]); }
    }
  }

  // ---------------------------------------------------------------- lines

  function IndexOf(s: string, c: char): (k: nat)
    ensures k <= |s|
    ensures c !in s[..k]
    ensures k < |s| ==> s[k] == c
  {
    if s == "" then 0 else if s[0] == c then 0 else 1 + IndexOf(s[1..], c)
  }

  lemma IndexOfConcat(a: string, c: char, b: string)
    requires c !in a
    ensures IndexOf(a + [c] + b, c) == |a|
  {
    if a != "" {
      assert (a + [c] + b)[1..] == a[1..] + [c] + b;
      IndexOfConcat(a[1..], c, b);
    }
  }

  lemma IndexOfAbsent(a: string, c: char)
    requires c !in a
    ensures IndexOf(a, c) == |a|
  {}

  function StripCr(s: string): string {
    if s != "" && s[|s| - 1] == '\r' then s[..|s| - 1] else s
  }

  /** `str::lines`: pieces ended by LF or CRLF; an unterminated last piece keeps its CR. */
  function Lines(s: string): seq<string> {
    if s == "" then []
    else
      var k := IndexOf(s, '\n');
      if k == |s| then [s] else [StripCr(s[..k])] + Lines(s[k + 1..])
  }

  /** Concatenation of the lines, each ended by CRLF. */
  function Unlines(ls: seq<string>): string {
    if ls == [] then "" else ls[0] + "\r\n" + Unlines(ls[1..])
  }

  lemma LinesCons(a: string, rest: string)
    requires '\n' !in a
    ensures Lines(a + "\r\n" + rest) == [a] + Lines(rest)
  {
    var s := a + "\r\n" + rest;
    assert s == (a + "\r") + ['\n'] + rest;
    IndexOfConcat(a + "\r", '\n', rest);
    assert s[..|a| + 1] == a + "\r";
    assert StripCr(a + "\r") == a;
    assert s[|a| + 2..] == rest;
  }

  /** A line that survives being written and read back. */
  predicate CleanLine(s: string) {
    '\n' !in s && (s != "" ==> s[|s| - 1] != '\r')
  }

  lemma {:induction false} LinesOfUnlines(ls: seq<string>)
    requires forall l :: l in ls ==> '\n' !in l
    ensures Lines(Unlines(ls)) == ls
  {
    if ls != [] {
      LinesCons(ls[0], Unlines(ls[1..]));
      LinesOfUnlines(ls[1..]);
    }
  }

  lemma UnlinesConcat(a: seq<string>, b: seq<string>)
    ensures Unlines(a + b) == Unlines(a) + Unlines(b)
  {
    if a == [] {
      assert a + b == b;
    } else {
      assert (a + b)[1..] == a[1..] + b;
      UnlinesConcat(a[1..], b);
    }
  }

  lemma NoLfInLines(s: string)
    ensures forall l :: l in Lines(s) ==> '\n' !in l
  {
    if s != "" {
      var k := IndexOf(s, '\n');
      if k == |s| {
        assert s == s[..k];
      } else {
        NoLfInLines(s[k + 1..]);
      }
    }
  }

  // ---------------------------------------------------------------- tokens

  function TokenLen(s: string): (k: nat)
    ensures k <= |s|
    ensures forall i :: 0 <= i < k ==> !IsSpace(s[i])
    ensures k < |s| ==> IsSpace(s[k])
    ensures s != "" && !IsSpace(s[0]) ==> k > 0
  {
    if s == "" || IsSpace(s[0]) then 0 else 1 + TokenLen(s[1..])
  }

  /** `split_whitespace`. */
  function Tokens(s: string): seq<string> {
    if s == "" then []
    else if IsSpace(s[0]) then Tokens(s[1..])
    else var k := TokenLen(s); [s[..k]] + Tokens(s[k..])
  }

  predicate IsToken(s: string) {
    s != "" && forall i :: 0 <= i < |s| ==> !IsSpace(s[i])
  }

  lemma {:induction false} TokenLenConcat(t: string, rest: string)
    requires forall i :: 0 <= i < |t| ==> !IsSpace(t[i])
    requires rest != "" ==> IsSpace(rest[0])
    ensures TokenLen(t + rest) == |t|
  {
    if t == "" {
      assert t + rest == rest;
    } else {
      assert (t + rest)[1..] == t[1..] + rest;
      TokenLenConcat(t[1..], rest);
    }
  }

  lemma {:induction false} TokensAreTokens(s: string)
    ensures forall t :: t in Tokens(s) ==> IsToken(t)
    decreases |s|
  {
    if s != "" {
      if IsSpace(s[0]) { TokensAreTokens(s[1..]); } else { TokensAreTokens(s[TokenLen(s)..]); }
    }
  }

  lemma TokensCons(t: string, rest: string)
    requires IsToken(t)
    requires rest != "" ==> IsSpace(rest[0])
    ensures Tokens(t + rest) == [t] + Tokens(rest)
  {
    var s := t + rest;
    assert s[0] == t[0];
    TokenLenConcat(t, rest);
    assert s[..|t|] == t && s[|t|..] == rest;
  }

  /** Two tokens with one space between them, as `format!("{a} {b}")` writes them. */
  lemma TokensOfPair(a: string, b: string)
    requires IsToken(a) && IsToken(b)
    ensures Tokens(a + " " + b) == [a, b]
  {
    assert a + " " + b == a + (" " + b);
    TokensCons(a, " " + b);
    assert (" " + b)[1..] == b;
    TokensCons(b, "");
    assert b + "" == b;
  }

  function JoinWith(parts: seq<string>, sep: string): string {
    if parts == [] then ""
    else if |parts| == 1 then parts[0]
    else parts[0] + sep + JoinWith(parts[1..], sep)
  }

  lemma {:induction false} TokensOfJoin(parts: seq<string>)
    requires forall t :: t in parts ==> IsToken(t)
    ensures Tokens(JoinWith(parts, " ")) == parts
  {
    if |parts| == 1 {
      TokensCons(parts[0], "");
      assert parts[0] + "" == parts[0];
    } else if parts != [] {
      var rest := JoinWith(parts[1..], " ");
      TokensOfJoin(parts[1..]);
      TokensCons(parts[0], " " + rest);
      assert parts[0] + " " + rest == parts[0] + (" " + rest);
      assert (" " + rest)[1..] == rest;
    }
  }

  lemma TokensSkip(s: string)
    requires s != "" && IsSpace(s[0])
    ensures Tokens(s) == Tokens(s[1..])
  {}

  /** Tokens end where white space starts. */
  lemma {:induction false} TokensConcat(a: string, b: string)
    requires b != "" ==> IsSpace(b[0])
    ensures Tokens(a + b) == Tokens(a) + Tokens(b)
    decreases |a|
  {
    hide Tokens, IsSpace;
    if a == "" {
      assert a + b == b;
      assert Tokens("") == [] by { TokensOfJoin([]); }
      assert [] + Tokens(b) == Tokens(b);
    } else if IsSpace(a[0]) {
      assert (a + b)[1..] == a[1..] + b;
      TokensSkip(a);
      TokensSkip(a + b);
      TokensConcat(a[1..], b);
    } else {
      var k := TokenLen(a);
      TokenInFront(a[..k], a[k..], b);
      assert a == a[..k] + a[k..];
      TokensConcat(a[k..], b);
    }
  }

  lemma TokenInFront(t: string, rest: string, b: string)
    requires IsToken(t) && (rest != "" ==> IsSpace(rest[0])) && (b != "" ==> IsSpace(b[0]))
    ensures Tokens(t + rest) == [t] + Tokens(rest)
    ensures Tokens(rest + b) == Tokens(rest) + Tokens(b) ==> Tokens(t + rest + b) == Tokens(t + rest) + Tokens(b)
  {
    hide Tokens, IsSpace, IsToken;
    assert rest == "" ==> rest + b == b;
    assert t + rest + b == t + (rest + b);
    TokensCons(t, rest);
    TokensCons(t, rest + b);
    assert [t] + (Tokens(rest) + Tokens(b)) == [t] + Tokens(rest) + Tokens(b);
  }

  lemma {:induction false} TokensOfTrimStart(s: string)
    ensures Tokens(TrimStart(s)) == Tokens(s)
  {
    if s != "" && IsSpace(s[0]) {
      TokensOfTrimStart(s[1..]);
    }
  }

  lemma {:induction false} TokensOfTrimEnd(s: string)
    ensures Tokens(TrimEnd(s)) == Tokens(s)
  {
    if s != "" && IsSpace(s[|s| - 1]) {
      var n := |s| - 1;
      TokensOfTrimEnd(s[..n]);
      assert s == s[..n] + s[n..] && s[n..][1..] == "";
      TokensConcat(s[..n], s[n..]);
    }
  }

  /** White space around a text does not change its tokens. */
  lemma TokensOfTrim(s: string)
    ensures Tokens(Trim(s)) == Tokens(s)
  {
    TokensOfTrimStart(s);
    TokensOfTrimEnd(TrimStart(s));
  }

  /** A text starts with its first token once the white space in front is gone. */
  lemma {:induction false} TokensStart(s: string)
    ensures Tokens(s) == [] <==> TrimStart(s) == ""
    ensures Tokens(s) != [] ==> TrimStart(s) != "" && Tokens(s)[0] != "" && Tokens(s)[0][0] == TrimStart(s)[0]
  {
    if s != "" {
      if IsSpace(s[0]) {
        TokensStart(s[1..]);
      } else {
        assert s[..TokenLen(s)][0] == s[0];
      }
    }
  }

  lemma JoinThree(a: string, b: string, c: string)
    ensures JoinWith([a, b, c], " ") == a + " " + b + " " + c
  {
    assert [a, b, c][1..] == [b, c] && [b, c][1..] == [c];
    assert JoinWith([b, c], " ") == b + " " + JoinWith([c], " ") == b + " " + c;
    assert a + " " + (b + " " + c) == a + " " + b + " " + c;
  }

  lemma TokensOfThree(a: string, b: string, c: string)
    requires IsToken(a) && IsToken(b) && IsToken(c)
    ensures Tokens(a + " " + b + " " + c) == [a, b, c]
  {
    JoinThree(a, b, c);
    TokensOfJoin([a, b, c]);
  }

  // ---------------------------------------------------------------- substrings

  predicate EndsWith(s: string, suffix: string) {
    |suffix| <= |s| && s[|s| - |suffix|..] == suffix
  }

  predicate Contains(s: string, part: string) {
    part <= s || (s != "" && Contains(s[1..], part))
  }

  lemma {:induction false} ContainsAt(s: string, part: string)
    ensures Contains(s, part) <==> exists i :: 0 <= i <= |s| && part <= s[i..]
  {
    assert s[0..] == s;
    if s == "" {
    } else {
      ContainsAt(s[1..], part);
      if i :| 0 <= i <= |s| && part <= s[i..] {
        if i > 0 { assert s[1..][i - 1..] == s[i..]; }
      }
      if i :| 0 <= i <= |s[1..]| && part <= s[1..][i..] {
        assert s[1..][i..] == s[i + 1..];
      }
    }
  }
}
