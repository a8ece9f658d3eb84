/** What the hosts-file rewrites keep: the user's lines and the markers. */
module HostsLaws {
  import opened Sequences
  import opened Text
  import opened HostsFile

  // ---------------------------------------------------------------- text and lines

  predicate AllClean(lines: seq<string>) {
    forall l :: l in lines ==> CleanLine(l)
  }

  lemma {:induction false} JoinIsUnlines(lines: seq<string>)
    requires lines != []
    ensures JoinWith(lines, "\r\n") + "\r\n" == Unlines(lines)
  {
    if |lines| > 1 {
      JoinIsUnlines(lines[1..]);
    } else {
      assert Unlines(lines[1..]) == "";
      assert lines[0] + "\r\n" + "" == lines[0] + "\r\n";
    }
  }

  lemma TrimCrFacts(s: string)
    ensures TrimCr(s) <= s
    ensures TrimCr(s) != "" ==> TrimCr(s)[|TrimCr(s)| - 1] != '\r'
  {}

  lemma {:induction false} TrimCrAllClean(lines: seq<string>)
    requires forall l :: l in lines ==> '\n' !in l
    ensures AllClean(TrimCrAll(lines))
  {
    if lines != [] {
      TrimCrFacts(lines[0]);
      assert '\n' !in lines[0] && CleanLine(TrimCr(lines[0]));
      TrimCrAllClean(lines[1..]);
      assert TrimCrAll(lines) == [TrimCr(lines[0])] + TrimCrAll(lines[1..]);
    }
  }

  lemma FileLinesAreClean(text: string)
    ensures AllClean(FileLines(text))
  {
    NoLfInLines(text);
    TrimCrAllClean(Lines(text));
  }

  lemma {:induction false} TrimCrAllFixed(lines: seq<string>)
    requires AllClean(lines)
    ensures TrimCrAll(lines) == lines
  {
    if lines != [] {
      assert CleanLine(lines[0]);
      TrimCrAllFixed(lines[1..]);
    }
  }

  /** What is written is what is read back. */
  lemma FileLinesOfJoin(lines: seq<string>)
    requires AllClean(lines) && lines != [""]
    ensures FileLines(JoinHosts(lines)) == lines
  {
    if lines != [] {
      JoinIsUnlines(lines);
      LinesOfUnlines(lines);
      TrimCrAllFixed(lines);
      assert JoinWith(lines, "\r\n") != "";
    }
  }

  // ---------------------------------------------------------------- marks and domains

  lemma {:induction false} TrimStartTrim(s: string)
    ensures Trim(s) != "" ==> TrimStart(s) != "" && TrimStart(s)[0] == Trim(s)[0]
  {
    TrimEndFacts(TrimStart(s));
  }

  /** A marker line is a comment, so it never maps a name. */
  lemma MarkIsComment(line: string, mark: string, isIp: string -> bool)
    requires IsMark(line, mark) && "# " <= mark
    ensures LineDomains(line, isIp) == None
  {
    TokensOfTrimStart(line);
    TrimStartTrim(line);
    TrimFacts(line);
    TrimStartFacts(line);
    if Trim(line) != "" {
      TokensStart(TrimStart(line));
      var joined := JoinWith(Tokens(line), " ");
      assert joined[0] == Tokens(line)[0][0];
      assert Lower(joined)[0] == LowerChar(joined[0]) && Lower(mark)[0] == LowerChar(mark[0]);
      assert LowerChar(joined[0]) == '#';
    }
  }

  lemma BlankHasNoDomains(line: string, isIp: string -> bool)
    requires IsBlank(line)
    ensures LineDomains(line, isIp) == None
  {
    TrimFacts(line);
  }

  lemma DomainLineIsNotMark(line: string, isIp: string -> bool)
    requires LineDomains(line, isIp).Some?
    ensures NotMark(line) && !IsBlank(line)
  {
    if IsMark(line, MARK_START) { MarkIsComment(line, MARK_START, isIp); }
    if IsMark(line, MARK_END) { MarkIsComment(line, MARK_END, isIp); }
    if IsMark(line, BACKUP_MARK_START) { MarkIsComment(line, BACKUP_MARK_START, isIp); }
    if IsMark(line, BACKUP_MARK_END) { MarkIsComment(line, BACKUP_MARK_END, isIp); }
    if IsBlank(line) { BlankHasNoDomains(line, isIp); }
  }

  lemma MarkIsItself(parts: seq<string>)
    requires forall t :: t in parts ==> IsToken(t)
    ensures IsMark(JoinWith(parts, " "), JoinWith(parts, " "))
    ensures forall other :: |other| != |JoinWith(parts, " ")| ==> !IsMark(JoinWith(parts, " "), other)
  {
    TokensOfJoin(parts);
  }

  lemma JoinFour(a: string, b: string, c: string, d: string)
    ensures JoinWith([a, b, c, d], " ") == a + " " + b + " " + c + " " + d
  {
    assert [a, b, c, d][1..] == [b, c, d];
    JoinThree(b, c, d);
    assert a + " " + (b + " " + c + " " + d) == a + " " + b + " " + c + " " + d;
  }

  lemma ThreeTokenMark(a: string, b: string, c: string)
    requires IsToken(a) && IsToken(b) && IsToken(c)
    ensures var m := a + " " + b + " " + c;
            IsMark(m, m) && forall other :: |other| != |m| ==> !IsMark(m, other)
  {
    JoinThree(a, b, c);
    MarkIsItself([a, b, c]);
  }

  lemma FourTokenMark(a: string, b: string, c: string, d: string)
    requires IsToken(a) && IsToken(b) && IsToken(c) && IsToken(d)
    ensures var m := a + " " + b + " " + c + " " + d;
            IsMark(m, m) && forall other :: |other| != |m| ==> !IsMark(m, other)
  {
    JoinFour(a, b, c, d);
    MarkIsItself([a, b, c, d]);
  }

  lemma MarkLengths()
    ensures |MARK_START| == 24 && |MARK_END| == 22 && |BACKUP_MARK_START| == 31 && |BACKUP_MARK_END| == 29
  {}

  lemma MarkTokens()
    ensures IsToken(HASH) && IsToken(NAME) && IsToken("Start") && IsToken("End") && IsToken("Backup")
  {}

  lemma StartMark()
    ensures IsMark(MARK_START, MARK_START)
  {
    MarkTokens();
    ThreeTokenMark(HASH, NAME, "Start");
  }

  lemma EndMark()
    ensures IsMark(MARK_END, MARK_END) && !IsMark(MARK_END, MARK_START)
  {
    MarkTokens();
    ThreeTokenMark(HASH, NAME, "End");
    MarkLengths();
  }

  lemma BackupStartMark()
    ensures IsMark(BACKUP_MARK_START, BACKUP_MARK_START) && !IsMark(BACKUP_MARK_START, MARK_START)
  {
    MarkTokens();
    FourTokenMark(HASH, NAME, "Backup", "Start");
    MarkLengths();
  }

  lemma BackupEndMark()
    ensures IsMark(BACKUP_MARK_END, BACKUP_MARK_END)
  {
    MarkTokens();
    FourTokenMark(HASH, NAME, "Backup", "End");
  }

  lemma EmptyIsNotMark()
    ensures NotMark("")
  {
    MarkLengths();
    assert Tokens("") == [] && JoinWith([], " ") == "";
  }

  lemma MarksAreClean()
    ensures CleanLine(MARK_START) && CleanLine(MARK_END)
    ensures CleanLine(BACKUP_MARK_START) && CleanLine(BACKUP_MARK_END)
  {}

  // ---------------------------------------------------------------- scanning

  lemma {:induction false} ScanConcat(p: Policy, st: Scan, a: seq<string>, b: seq<string>)
    ensures ScanLines(p, st, a + b) == ScanLines(p, ScanLines(p, st, a), b)
    decreases |a|
  {
    if a == [] {
      assert a + b == b;
    } else {
      assert (a + b)[1..] == a[1..] + b;
      ScanConcat(p, Step(p, st, a[0]), a[1..], b);
    }
  }

  lemma ScanTwo(p: Policy, st: Scan, a: string, b: string)
    ensures ScanLines(p, st, [a, b]) == Step(p, Step(p, st, a), b)
  {
    assert [a, b][1..] == [b];
    assert ScanLines(p, Step(p, st, a), [b]) == Step(p, Step(p, st, a), b);
  }

  /** What every scan delivers, whatever the file looks like. */
  predicate Sound(p: Policy, st: Scan) {
    && (forall l :: l in st.main ==> NotMark(l) && !p.Hides(l) && CleanLine(l))
    && (forall l :: l in st.backup ==> !IsBlank(l) && !IsMark(l, BACKUP_MARK_END) && !p.Restores(l) && CleanLine(l))
    && Distinct(st.backup)
  }

  lemma StepSound(p: Policy, st: Scan, line: string)
    requires Sound(p, st) && CleanLine(line)
    ensures Sound(p, Step(p, st, line))
  {
    if p.Restores(line) {
      DomainLineIsNotMark(line, p.isIp);
    }
  }

  lemma {:induction false} ScanSound(p: Policy, st: Scan, lines: seq<string>)
    requires Sound(p, st) && AllClean(lines)
    ensures Sound(p, ScanLines(p, st, lines))
    decreases |lines|
  {
    if lines != [] {
      StepSound(p, st, lines[0]);
      ScanSound(p, Step(p, st, lines[0]), lines[1..]);
    }
  }

  lemma {:induction false} ScanMain(p: Policy, st: Scan, lines: seq<string>)
    requires st.phase == Main
    requires forall l :: l in lines ==> NotMark(l) && !p.Hides(l)
    ensures ScanLines(p, st, lines) == st.(main := st.main + lines)
    decreases |lines|
  {
    if lines != [] {
      assert NotMark(lines[0]) && !p.Hides(lines[0]);
      ScanMain(p, st.(main := st.main + [lines[0]]), lines[1..]);
      assert st.main + [lines[0]] + lines[1..] == st.main + lines;
    } else {
      assert st.main + lines == st.main;
    }
  }

  lemma {:induction false} ScanBlock(p: Policy, st: Scan, lines: seq<string>)
    requires st.phase == Block
    requires forall l :: l in lines ==> !IsMark(l, MARK_END)
    ensures ScanLines(p, st, lines) == st
    decreases |lines|
  {
    if lines != [] {
      assert !IsMark(lines[0], MARK_END);
      ScanBlock(p, st, lines[1..]);
    }
  }

  lemma {:induction false} ScanBackup(p: Policy, st: Scan, lines: seq<string>)
    requires st.phase == Backup
    requires forall l :: l in lines ==> !IsMark(l, BACKUP_MARK_END) && !p.Restores(l) && !IsBlank(l)
    requires Distinct(st.backup + lines)
    ensures ScanLines(p, st, lines) == st.(backup := st.backup + lines)
    decreases |lines|
  {
    if lines != [] {
      var n := |st.backup|;
      assert !IsMark(lines[0], BACKUP_MARK_END) && !p.Restores(lines[0]) && !IsBlank(lines[0]);
      assert (st.backup + lines)[n] == lines[0];
      assert forall i :: 0 <= i < n ==> st.backup[i] == (st.backup + lines)[i] != (st.backup + lines)[n];
      assert st.backup + [lines[0]] + lines[1..] == st.backup + lines;
      ScanBackup(p, st.(backup := st.backup + [lines[0]]), lines[1..]);
    } else {
      assert st.backup + lines == st.backup;
    }
  }

  lemma {:induction false} DropBlankTailSuffix(a: seq<string>, blanks: seq<string>)
    requires forall l :: l in blanks ==> IsBlank(l)
    ensures DropBlankTail(a + blanks) == DropBlankTail(a)
  {
    if blanks == [] {
      assert a + blanks == a;
    } else {
      var n := |blanks| - 1;
      assert IsBlank(blanks[n]) && (a + blanks)[|a| + n] == blanks[n];
      assert (a + blanks)[..|a| + n] == a + blanks[..n];
      DropBlankTailSuffix(a, blanks[..n]);
    }
  }

  lemma {:induction false} DropBlankTailFacts(a: seq<string>)
    ensures DropBlankTail(a) <= a
    ensures forall l :: l in a && !IsBlank(l) ==> l in DropBlankTail(a)
    ensures DropBlankTail(a) != [] ==> !IsBlank(DropBlankTail(a)[|DropBlankTail(a)| - 1])
    ensures DropBlankTail(DropBlankTail(a)) == DropBlankTail(a)
  {
    if a != [] && IsBlank(a[|a| - 1]) {
      assert a == a[..|a| - 1] + [a[|a| - 1]];
      DropBlankTailFacts(a[..|a| - 1]);
    }
  }

  /** Entries whose lines stay on one line and do not look like one of the markers. */
  predicate Writable(entries: seq<Entry>) {
    forall l :: l in EntryLines(entries) ==> CleanLine(l) && NotMark(l)
  }

  lemma EmptyLine(p: Policy)
    ensures NotMark("") && !p.Hides("") && CleanLine("") && IsBlank("")
  {
    EmptyIsNotMark();
    if p.Updating? { BlankHasNoDomains("", p.isIp); }
  }

  lemma ScanMarkedBlock(p: Policy, st: Scan, entries: seq<Entry>)
    requires st.phase == Main && Writable(entries)
    ensures ScanLines(p, st, BlockLines(entries)) == st
  {
    StartMark();
    EndMark();
    var inside := EntryLines(entries);
    ScanConcat(p, st, [MARK_START] + inside, [MARK_END]);
    ScanConcat(p, st, [MARK_START], inside);
    ScanBlock(p, st.(phase := Block), inside);
    assert st.(phase := Block).(phase := Main) == st;
  }

  lemma ScanMarkedBackup(p: Policy, st: Scan, backup: seq<string>)
    requires st.phase == Main && st.backup == [] && backup != []
    requires Sound(p, Scan(Main, [], backup))
    ensures ScanLines(p, st, BackupLines(backup)) == Scan(Main, st.main + [""], backup)
  {
    EmptyLine(p);
    BackupStartMark();
    BackupEndMark();
    var inBackup := Scan(Backup, st.main + [""], []);
    assert Step(p, Step(p, st, ""), BACKUP_MARK_START) == inBackup;
    ScanTwo(p, st, "", BACKUP_MARK_START);
    assert [] + backup == backup;
    ScanBackup(p, inBackup, backup);
    ScanConcat(p, st, ["", BACKUP_MARK_START] + backup, [BACKUP_MARK_END]);
    ScanConcat(p, st, ["", BACKUP_MARK_START], backup);
  }

  lemma ScanNothing(p: Policy, st: Scan)
    ensures ScanLines(p, st, []) == st
  {}

  lemma ScanBlankLine(p: Policy, st: Scan)
    ensures ScanLines(p, st, [""]) == Step(p, st, "")
  {
    assert [""][1..] == [];
  }

  /** Reading back a rendered file recovers the two parts it was rendered from. */
  lemma Rescan(p: Policy, main: seq<string>, entries: seq<Entry>, backup: seq<string>)
    requires Sound(p, Scan(Main, main, backup)) && Writable(entries)
    ensures var r := ScanLines(p, START, Rendered(main, entries, backup));
            r.phase == Main && r.backup == backup && DropBlankTail(r.main) == DropBlankTail(main)
  {
    EmptyLine(p);
    hide ScanLines, IsMark, BlockLines, PushUnique;
    var gap := if main == [] then [] else [""];
    var head := main + gap;
    ScanMain(p, START, head);
    var st1 := Scan(Main, [] + head, []);
    ScanMarkedBlock(p, st1, entries);
    ScanConcat(p, START, head, BlockLines(entries));
    var gap2 := if backup == [] then [] else [""];
    var st2 := Scan(Main, [] + head + gap2, backup);
    if backup == [] {
      assert [] + head + gap2 == [] + head;
      ScanNothing(p, st1);
    } else {
      ScanMarkedBackup(p, st1, backup);
    }
    ScanConcat(p, START, head + BlockLines(entries), BackupLines(backup));
    ScanConcat(p, START, head + BlockLines(entries) + BackupLines(backup), [""]);
    ScanBlankLine(p, st2);
    assert Step(p, st2, "") == Scan(Main, [] + head + gap2 + [""], backup);
    assert [] + head + gap2 + [""] == main + (gap + gap2 + [""]);
    DropBlankTailSuffix(main, gap + gap2 + [""]);
  }

  lemma AllCleanConcat(a: seq<string>, b: seq<string>)
    requires AllClean(a) && AllClean(b)
    ensures AllClean(a + b)
  {}

  lemma RenderedIsClean(p: Policy, main: seq<string>, entries: seq<Entry>, backup: seq<string>)
    requires Sound(p, Scan(Main, main, backup)) && Writable(entries)
    ensures AllClean(Rendered(main, entries, backup)) && Rendered(main, entries, backup) != [""]
  {
    MarksAreClean();
    assert AllClean([MARK_START]) && AllClean([MARK_END]) && AllClean([BACKUP_MARK_END]) && AllClean([""]);
    AllCleanConcat([MARK_START], EntryLines(entries));
    AllCleanConcat([MARK_START] + EntryLines(entries), [MARK_END]);
    AllCleanConcat([""], [BACKUP_MARK_START]);
    assert ["", BACKUP_MARK_START] == [""] + [BACKUP_MARK_START];
    AllCleanConcat(["", BACKUP_MARK_START], backup);
    AllCleanConcat(["", BACKUP_MARK_START] + backup, [BACKUP_MARK_END]);
    var gap := if main == [] then [] else [""];
    AllCleanConcat(main, gap);
    AllCleanConcat(main + gap, BlockLines(entries));
    AllCleanConcat(main + gap + BlockLines(entries), BackupLines(backup));
    AllCleanConcat(main + gap + BlockLines(entries) + BackupLines(backup), [""]);
  }

  // ---------------------------------------------------------------- nothing of the user's is lost

  function NonBlank(lines: seq<string>): set<string> {
    set l | l in lines && !IsBlank(l)
  }

  function NextPhase(phase: Phase, line: string): Phase {
    match phase
    case Main => if IsMark(line, MARK_START) then Block else if IsMark(line, BACKUP_MARK_START) then Backup else Main
    case Block => if IsMark(line, MARK_END) then Main else Block
    case Backup => if IsMark(line, BACKUP_MARK_END) then Main else Backup
  }

  /** A line of the user's: neither a marker nor part of the regenerated block. */
  predicate OfUser(phase: Phase, line: string) {
    match phase
    case Main => NotMark(line)
    case Block => false
    case Backup => !IsMark(line, BACKUP_MARK_END)
  }

  /** The user's own non-blank lines. */
  function UserLines(phase: Phase, lines: seq<string>): set<string>
    decreases |lines|
  {
    if lines == [] then {}
    else (if OfUser(phase, lines[0]) then NonBlank([lines[0]]) else {}) + UserLines(NextPhase(phase, lines[0]), lines[1..])
  }

  function Kept(st: Scan): set<string> {
    NonBlank(st.main) + NonBlank(st.backup)
  }

  lemma NonBlankAppend(a: seq<string>, line: string)
    ensures NonBlank(a + [line]) == NonBlank(a) + NonBlank([line])
    ensures NonBlank(PushUnique(a, line)) == NonBlank(a) + NonBlank([line])
  {}

  lemma StepKeeps(p: Policy, st: Scan, line: string)
    ensures Step(p, st, line).phase == NextPhase(st.phase, line)
    ensures Kept(Step(p, st, line)) == Kept(st) + if OfUser(st.phase, line) then NonBlank([line]) else {}
  {
    hide IsMark, NonBlank, PushUnique;
    NonBlankAppend(st.main, line);
    NonBlankAppend(st.backup, line);
  }

  lemma {:induction false} ScanKeepsUserLines(p: Policy, st: Scan, lines: seq<string>)
    ensures Kept(ScanLines(p, st, lines)) == Kept(st) + UserLines(st.phase, lines)
    decreases |lines|
  {
    hide Step, OfUser, NextPhase, Kept, NonBlank;
    if lines != [] {
      StepKeeps(p, st, lines[0]);
      ScanKeepsUserLines(p, Step(p, st, lines[0]), lines[1..]);
    }
  }

  lemma DropBlankTailKeeps(a: seq<string>, b: seq<string>)
    requires DropBlankTail(a) == DropBlankTail(b)
    ensures NonBlank(a) == NonBlank(b)
  {
    DropBlankTailFacts(a);
    DropBlankTailFacts(b);
  }

  /** The scan of any text, with the blank tail dropped as both rewrites do, is well formed. */
  lemma TextScanSound(p: Policy, text: string)
    ensures var r := ScanLines(p, START, FileLines(text));
            Sound(p, r) && Sound(p, Scan(Main, DropBlankTail(r.main), r.backup))
  {
    FileLinesAreClean(text);
    ScanSound(p, START, FileLines(text));
    DropBlankTailFacts(ScanLines(p, START, FileLines(text)).main);
  }

  /** An update keeps the set of the user's non-blank lines, for every text whatsoever. */
  lemma UpdateKeepsUserLines(text: string, entries: seq<Entry>, isIp: string -> bool)
    requires Writable(entries)
    ensures UserLines(Main, FileLines(UpdateText(text, entries, isIp))) == UserLines(Main, FileLines(text))
  {
    var p := Updating(Managed(entries), isIp);
    TextScanSound(p, text);
    var r := ScanLines(p, START, FileLines(text));
    var main := DropBlankTail(r.main);
    var out := Rendered(main, entries, r.backup);
    RenderedIsClean(p, main, entries, r.backup);
    FileLinesOfJoin(out);
    Rescan(p, main, entries, r.backup);
    ScanKeepsUserLines(p, START, out);
    ScanKeepsUserLines(p, START, FileLines(text));
    DropBlankTailFacts(r.main);
    DropBlankTailKeeps(ScanLines(p, START, out).main, r.main);
    assert Kept(START) == {};
  }

  /** Repeating an update changes no byte, for every text whatsoever. */
  lemma UpdateIsIdempotent(text: string, entries: seq<Entry>, isIp: string -> bool)
    requires Writable(entries)
    ensures var once := UpdateText(text, entries, isIp); UpdateText(once, entries, isIp) == once
  {
    var p := Updating(Managed(entries), isIp);
    TextScanSound(p, text);
    var r := ScanLines(p, START, FileLines(text));
    var main := DropBlankTail(r.main);
    RenderedIsClean(p, main, entries, r.backup);
    FileLinesOfJoin(Rendered(main, entries, r.backup));
    Rescan(p, main, entries, r.backup);
    DropBlankTailFacts(r.main);
  }

  // ---------------------------------------------------------------- markers stay bracketed

  /** Every marker opens or closes its own block, and no block is left open or nested. */
  predicate Bracketed(phase: Phase, lines: seq<string>)
    decreases |lines|
  {
    if lines == [] then phase == Main
    else
      var line, rest := lines[0], lines[1..];
      match phase
      case Main =>
        if IsMark(line, MARK_START) then Bracketed(Block, rest)
        else if IsMark(line, BACKUP_MARK_START) then Bracketed(Backup, rest)
        else !IsMark(line, MARK_END) && !IsMark(line, BACKUP_MARK_END) && Bracketed(Main, rest)
      case Block =>
        if IsMark(line, MARK_END) then Bracketed(Main, rest) else NotMark(line) && Bracketed(Block, rest)
      case Backup =>
        if IsMark(line, BACKUP_MARK_END) then Bracketed(Main, rest) else NotMark(line) && Bracketed(Backup, rest)
  }

  predicate NoMarks(lines: seq<string>) {
    forall l :: l in lines ==> NotMark(l)
  }

  lemma {:induction false} NoMarksIsBracketed(phase: Phase, lines: seq<string>, rest: seq<string>)
    requires NoMarks(lines)
    ensures Bracketed(phase, lines + rest) == Bracketed(phase, rest)
    decreases |lines|
  {
    if lines == [] {
      assert lines + rest == rest;
    } else {
      assert NotMark(lines[0]) && (lines + rest)[1..] == lines[1..] + rest;
      NoMarksIsBracketed(phase, lines[1..], rest);
    }
  }

  lemma {:induction false} BackupHasNoMarks(p: Policy, st: Scan, lines: seq<string>)
    requires Bracketed(st.phase, lines) && NoMarks(st.backup)
    ensures NoMarks(ScanLines(p, st, lines).backup)
    decreases |lines|
  {
    if lines != [] {
      BackupHasNoMarks(p, Step(p, st, lines[0]), lines[1..]);
    }
  }

  /** A block between its two markers is transparent to what follows it. */
  lemma BlockIsBracketed(entries: seq<Entry>, rest: seq<string>)
    requires Writable(entries)
    ensures Bracketed(Main, BlockLines(entries) + rest) == Bracketed(Main, rest)
  {
    StartMark();
    EndMark();
    var inside := EntryLines(entries);
    var closing := [MARK_END] + rest;
    assert closing[1..] == rest;
    NoMarksIsBracketed(Block, inside, closing);
    var all := [MARK_START] + (inside + closing);
    assert all[1..] == inside + closing;
    assert BlockLines(entries) + rest == all;
  }

  lemma BackupIsBracketed(backup: seq<string>, rest: seq<string>)
    requires NoMarks(backup)
    ensures Bracketed(Main, BackupLines(backup) + rest) == Bracketed(Main, rest)
  {
    if backup == [] {
      assert BackupLines(backup) + rest == rest;
    } else {
      BackupStartMark();
      BackupEndMark();
      EmptyIsNotMark();
      var closing := [BACKUP_MARK_END] + rest;
      assert closing[1..] == rest;
      NoMarksIsBracketed(Backup, backup, closing);
      var opening := [BACKUP_MARK_START] + (backup + closing);
      assert opening[1..] == backup + closing;
      NoMarksIsBracketed(Main, [""], opening);
      assert BackupLines(backup) + rest == [""] + opening;
    }
  }

  lemma BlankLineIsBracketed(rest: seq<string>)
    ensures Bracketed(Main, [""] + rest) == Bracketed(Main, rest)
  {
    EmptyIsNotMark();
    assert ([""] + rest)[1..] == rest;
  }

  lemma RenderedIsBracketed(main: seq<string>, entries: seq<Entry>, backup: seq<string>)
    requires NoMarks(main) && NoMarks(backup) && Writable(entries)
    ensures Bracketed(Main, Rendered(main, entries, backup))
  {
    assert Bracketed(Main, []);
    hide Bracketed, BlockLines, BackupLines, IsMark;
    var gap := if main == [] then [] else [""];
    var tail := BackupLines(backup) + [""];
    BlankLineIsBracketed([]);
    assert [""] + [] == [""];
    BackupIsBracketed(backup, [""]);
    BlockIsBracketed(entries, tail);
    GapIsBracketed(gap, BlockLines(entries) + tail);
    NoMarksIsBracketed(Main, main, gap + (BlockLines(entries) + tail));
    RegroupFive(main, gap, BlockLines(entries), BackupLines(backup), [""]);
  }

  lemma GapIsBracketed(gap: seq<string>, rest: seq<string>)
    requires gap == [] || gap == [""]
    ensures Bracketed(Main, gap + rest) == Bracketed(Main, rest)
  {
    BlankLineIsBracketed(rest);
    assert [] + rest == rest;
  }

  lemma UpdateKeepsBrackets(text: string, entries: seq<Entry>, isIp: string -> bool)
    requires Bracketed(Main, FileLines(text)) && Writable(entries)
    ensures Bracketed(Main, FileLines(UpdateText(text, entries, isIp)))
  {
    var p := Updating(Managed(entries), isIp);
    TextScanSound(p, text);
    var r := ScanLines(p, START, FileLines(text));
    BackupHasNoMarks(p, START, FileLines(text));
    RenderedIsClean(p, DropBlankTail(r.main), entries, r.backup);
    FileLinesOfJoin(Rendered(DropBlankTail(r.main), entries, r.backup));
    RenderedIsBracketed(DropBlankTail(r.main), entries, r.backup);
  }

  /** The lines a removal leaves behind. */
  lemma RemovedLines(text: string)
    ensures var r := ScanLines(Removing, START, FileLines(text));
            FileLines(RemoveText(text)) == Merged(DropBlankTail(r.main), r.backup)
  {
    TextScanSound(Removing, text);
    var r := ScanLines(Removing, START, FileLines(text));
    var main := DropBlankTail(r.main);
    var out := Merged(main, r.backup);
    assert AllClean(out);
    DropBlankTailFacts(r.main);
    assert IsBlank("");
    assert main == [] ==> out == r.backup;
    assert r.backup == [] ==> out == main;
    assert r.backup != [] ==> r.backup[0] in r.backup && !IsBlank(r.backup[0]);
    FileLinesOfJoin(out);
  }

  lemma {:induction false} UserLinesWithoutMarks(lines: seq<string>)
    requires NoMarks(lines)
    ensures UserLines(Main, lines) == NonBlank(lines)
    decreases |lines|
  {
    if lines != [] {
      assert NotMark(lines[0]);
      UserLinesWithoutMarks(lines[1..]);
      assert lines == [lines[0]] + lines[1..];
    }
  }

  /** A removal leaves no marker and keeps the user's non-blank lines. */
  lemma RemoveKeepsUserLines(text: string)
    requires Bracketed(Main, FileLines(text))
    ensures NoMarks(FileLines(RemoveText(text)))
    ensures UserLines(Main, FileLines(RemoveText(text))) == UserLines(Main, FileLines(text))
  {
    hide ScanLines, UserLines, RemoveText, FileLines, IsMark, Bracketed, DropBlankTail, NonBlank, Merged;
    var r := ScanLines(Removing, START, FileLines(text));
    TextScanSound(Removing, text);
    BackupHasNoMarks(Removing, START, FileLines(text));
    RemovedLines(text);
    DropBlankTailFacts(r.main);
    DropBlankTailKeeps(DropBlankTail(r.main), r.main);
    MergedParts(DropBlankTail(r.main), r.backup);
    NothingKeptYet();
    UserLinesWithoutMarks(FileLines(RemoveText(text)));
    ScanKeepsUserLines(Removing, START, FileLines(text));
  }

  lemma NothingKeptYet()
    ensures Kept(START) == {}
  {}

  lemma MergedParts(main: seq<string>, backup: seq<string>)
    requires NoMarks(main) && NoMarks(backup)
    ensures NoMarks(Merged(main, backup)) && NonBlank(Merged(main, backup)) == NonBlank(main) + NonBlank(backup)
  {
    hide IsMark;
    EmptyIsNotMark();
  }

  datatype Op = Refresh(entries: seq<Entry>) | Restore

  function RunOps(text: string, ops: seq<Op>, isIp: string -> bool): string
    decreases |ops|
  {
    if ops == [] then text
    else
      var next := match ops[0] case Refresh(entries) => UpdateText(text, entries, isIp) case Restore => RemoveText(text);
      RunOps(next, ops[1..], isIp)
  }

  /** Over any history of updates and removals nothing of the user's is lost and the markers stay bracketed. */
  lemma {:induction false} HistoryKeepsUserLines(text: string, ops: seq<Op>, isIp: string -> bool)
    requires Bracketed(Main, FileLines(text))
    requires forall op :: op in ops && op.Refresh? ==> Writable(op.entries)
    ensures Bracketed(Main, FileLines(RunOps(text, ops, isIp)))
    ensures UserLines(Main, FileLines(RunOps(text, ops, isIp))) == UserLines(Main, FileLines(text))
    decreases |ops|
  {
    if ops != [] {
      var op := ops[0];
      match op {
        case Refresh(entries) =>
          UpdateKeepsUserLines(text, entries, isIp);
          UpdateKeepsBrackets(text, entries, isIp);
          HistoryKeepsUserLines(UpdateText(text, entries, isIp), ops[1..], isIp);
        case Restore =>
          RemoveKeepsUserLines(text);
          var lines := FileLines(RemoveText(text));
          NoMarksIsBracketed(Main, lines, []);
          assert lines + [] == lines;
          HistoryKeepsUserLines(RemoveText(text), ops[1..], isIp);
      }
    }
  }
}
