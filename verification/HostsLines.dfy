/** What one line of the hosts file means: the names it maps, and whether it is one of the markers. */
module HostsLines {
  import opened Text
  import opened HostsFile
  import opened HostsLaws

  // ---------------------------------------------------------------- what a line means

  predicate IsComment(token: string) {
    token != "" && token[0] == '#'
  }

  /** A line of an address, names and a comment: the words of the comment start with one that starts with '#'. */
  predicate Reads(line: string, ip: string, names: seq<string>, comment: seq<string>) {
    && Tokens(line) == [ip] + names + comment
    && !IsComment(ip) && (forall n :: n in names ==> !IsComment(n))
    && (comment != [] ==> IsComment(comment[0]))
  }

  lemma {:induction false} NamesOnly(names: seq<string>, comment: seq<string>)
    requires forall n :: n in names ==> !IsComment(n)
    requires comment != [] ==> IsComment(comment[0])
    ensures |DomainTokens(names + comment)| == |names|
    ensures forall k :: 0 <= k < |names| ==> DomainTokens(names + comment)[k] == Lower(names[k])
  {
    if names == [] {
      assert names + comment == comment;
      assert comment != [] ==> comment[0][..1] == "#";
    } else {
      assert (names + comment)[0] == names[0] && (names + comment)[1..] == names[1..] + comment;
      assert names[0] in names;
      NamesOnly(names[1..], comment);
    }
  }

  /**
   A line names exactly the words between its address and its comment, in any case, and resolves them to
   its address; a line without an address names nothing.
   */
  lemma LineNames(line: string, ip: string, names: seq<string>, comment: seq<string>, isIp: string -> bool, d: string)
    requires Reads(line, ip, names, comment)
    ensures Mentions(line, d, isIp) <==> isIp(ip) && exists k :: 0 <= k < |names| && Lower(names[k]) == d
    ensures Mentions(line, d, isIp) ==> Resolve([line], d, isIp) == Some(ip)
  {
    hide Tokens, Trim, Lower, DomainTokens;
    TokensOfTrim(line);
    FirstTokenOfTrim(line);
    assert ([ip] + names + comment)[1..] == names + comment;
    NamesOnly(names, comment);
    hide IsComment;
    assert Tokens(Trim(line))[0] == ip;
    var domains := DomainTokens(names + comment);
    assert d in domains <==> exists k :: 0 <= k < |names| && domains[k] == d;
  }

  lemma FirstTokenOfTrim(line: string)
    ensures Tokens(line) == [] <==> Trim(line) == ""
    ensures Tokens(line) != [] ==> Trim(line) != "" && Tokens(line)[0] != "" && Tokens(line)[0][0] == Trim(line)[0]
  {
    TokensStart(line);
    TrimEndFacts(TrimStart(line));
    TrimStartFacts(line);
  }

  /** Blank lines and lines that start with a comment name nothing. */
  lemma CommentNamesNothing(line: string, isIp: string -> bool, d: string)
    requires Tokens(line) == [] || IsComment(Tokens(line)[0])
    ensures !Mentions(line, d, isIp)
  {
    hide Tokens, Trim;
    FirstTokenOfTrim(line);
  }

  // ---------------------------------------------------------------- the file an update writes

  lemma MarkTexts()
    ensures MARK_START == "# WattToolkit-Lite Start" && MARK_END == "# WattToolkit-Lite End"
    ensures BACKUP_MARK_START == "# WattToolkit-Lite Backup Start" && BACKUP_MARK_END == "# WattToolkit-Lite Backup End"
  {
    assert HASH + " " + NAME == "# WattToolkit-Lite";
    assert " " + "Start" == " Start" && " " + "End" == " End" && " " + "Backup" + " " == " Backup ";
  }

  /** The user's lines, an empty line, the managed block, and the hidden lines in a block of their own behind another empty line. */
  lemma FileIs(main: seq<string>, entries: seq<Entry>, backup: seq<string>)
    requires main != []
    ensures Rendered(main, entries, []) == main + [""] + ([MARK_START] + EntryLines(entries) + [MARK_END]) + [] + [""]
    ensures Rendered([], entries, []) == [] + [] + ([MARK_START] + EntryLines(entries) + [MARK_END]) + [] + [""]
    ensures backup != [] ==>
              Rendered(main, entries, backup)
                == main + [""] + ([MARK_START] + EntryLines(entries) + [MARK_END])
                   + (["", BACKUP_MARK_START] + backup + [BACKUP_MARK_END]) + [""]
  {
    hide EntryLines;
  }

  /** An entry is one line, its address in front of its name, if both are given. */
  lemma {:induction false} EntryIs(a: seq<Entry>, e: Entry)
    ensures EntryLines(a + [e])
         == EntryLines(a) + (if Trim(e.domain) != "" && Trim(e.ip) != "" then [Trim(e.ip) + " " + Trim(e.domain)] else [])
  {
    hide Trim;
    if a == [] {
      assert [] + [e] == [e] && [e][1..] == [];
    } else {
      assert (a + [e])[1..] == a[1..] + [e];
      EntryIs(a[1..], e);
    }
  }

  // ---------------------------------------------------------------- what a marker is

  function LowerAll(tokens: seq<string>): (r: seq<string>)
    ensures |r| == |tokens| && forall k :: 0 <= k < |r| ==> r[k] == Lower(tokens[k])
  {
    if tokens == [] then [] else [Lower(tokens[0])] + LowerAll(tokens[1..])
  }

  lemma LowerConcat(a: string, b: string)
    ensures Lower(a + b) == Lower(a) + Lower(b)
  {}

  lemma {:induction false} TokensOfLower(s: string)
    ensures TokenLen(Lower(s)) == TokenLen(s)
    ensures Tokens(Lower(s)) == LowerAll(Tokens(s))
    decreases |s|
  {
    if s != "" {
      assert Lower(s)[1..] == Lower(s[1..]) && (IsSpace(Lower(s)[0]) <==> IsSpace(s[0]));
      TokensOfLower(s[1..]);
      if !IsSpace(s[0]) {
        var k := TokenLen(s);
        assert Lower(s)[..k] == Lower(s[..k]) && Lower(s)[k..] == Lower(s[k..]);
        TokensOfLower(s[k..]);
        FirstToken(s, k);
        FirstToken(Lower(s), k);
        assert [Lower(s[..k])] + LowerAll(Tokens(s[k..])) == LowerAll([s[..k]] + Tokens(s[k..]));
      }
    }
  }

  lemma FirstToken(s: string, k: nat)
    requires s != "" && !IsSpace(s[0]) && k == TokenLen(s)
    ensures Tokens(s) == [s[..k]] + Tokens(s[k..])
  {}

  lemma {:induction false} LowerOfJoin(parts: seq<string>)
    ensures Lower(JoinWith(parts, " ")) == JoinWith(LowerAll(parts), " ")
  {
    hide Lower;
    if |parts| <= 1 {
      assert Lower("") == "" by { NothingLowered(); }
    } else {
      LowerOfJoin(parts[1..]);
      assert LowerAll(parts)[1..] == LowerAll(parts[1..]);
      LowerConcat(parts[0] + " ", JoinWith(parts[1..], " "));
      LowerConcat(parts[0], " ");
      assert Lower(" ") == " " by { NothingLowered(); }
    }
  }

  lemma NothingLowered()
    ensures Lower("") == "" && Lower(" ") == " "
  {}

  lemma MarkIff(line: string, words: seq<string>)
    requires forall w :: w in words ==> IsToken(w)
    ensures IsMark(line, JoinWith(words, " ")) <==> LowerAll(Tokens(line)) == LowerAll(words)
  {
    hide Tokens, Lower, JoinWith, LowerAll, IsToken;
    var tokens := Tokens(line);
    TokensAreTokens(line);
    LowerOfJoin(tokens);
    LowerOfJoin(words);
    TokensOfJoin(tokens);
    TokensOfJoin(words);
    TokensOfLower(JoinWith(tokens, " "));
    TokensOfLower(JoinWith(words, " "));
  }

  /** A marker line holds these words, in any case and with any blanks between them. */
  lemma MarksAre(line: string)
    ensures IsMark(line, MARK_START) <==> LowerAll(Tokens(line)) == ["#", "watttoolkit-lite", "start"]
    ensures IsMark(line, MARK_END) <==> LowerAll(Tokens(line)) == ["#", "watttoolkit-lite", "end"]
    ensures IsMark(line, BACKUP_MARK_START) <==> LowerAll(Tokens(line)) == ["#", "watttoolkit-lite", "backup", "start"]
    ensures IsMark(line, BACKUP_MARK_END) <==> LowerAll(Tokens(line)) == ["#", "watttoolkit-lite", "backup", "end"]
  {
    hide Tokens, IsMark, JoinWith;
    MarkTokens();
    JoinThree(HASH, NAME, "Start");
    JoinThree(HASH, NAME, "End");
    JoinFour(HASH, NAME, "Backup", "Start");
    JoinFour(HASH, NAME, "Backup", "End");
    MarkIff(line, [HASH, NAME, "Start"]);
    MarkIff(line, [HASH, NAME, "End"]);
    MarkIff(line, [HASH, NAME, "Backup", "Start"]);
    MarkIff(line, [HASH, NAME, "Backup", "End"]);
    MarkWordsLower();
  }

  lemma MarkWordsLower()
    ensures LowerAll([HASH, NAME, "Start"]) == ["#", "watttoolkit-lite", "start"]
    ensures LowerAll([HASH, NAME, "End"]) == ["#", "watttoolkit-lite", "end"]
    ensures LowerAll([HASH, NAME, "Backup", "Start"]) == ["#", "watttoolkit-lite", "backup", "start"]
    ensures LowerAll([HASH, NAME, "Backup", "End"]) == ["#", "watttoolkit-lite", "backup", "end"]
  {
    hide LowerAll;
    assert Lower(HASH) == "#" && Lower(NAME) == "watttoolkit-lite" && Lower("Start") == "start";
    assert Lower("End") == "end" && Lower("Backup") == "backup";
  }
}
