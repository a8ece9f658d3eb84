/** What the rewrites do to the meaning of the file: first-match name lookup before and after. */
module HostsMeaning {
  import opened Text
  import opened HostsFile
  import opened HostsLaws
  import opened HostsLines

  function OrElse<T>(a: Option<T>, b: Option<T>): Option<T> {
    if a.Some? then a else b
  }

  function Select(lines: seq<string>, f: string -> bool): seq<string> {
    if lines == [] then []
    else (if f(lines[0]) then [lines[0]] else []) + Select(lines[1..], f)
  }

  function PushAll(acc: seq<string>, lines: seq<string>): seq<string>
    decreases |lines|
  {
    if lines == [] then acc else PushAll(PushUnique(acc, lines[0]), lines[1..])
  }

  /** The lines an update leaves in the main part, and the lines it hides, in file order. */
  function Unmanaged(lines: seq<string>, p: Policy): seq<string> {
    Select(lines, l => !p.Hides(l))
  }

  function Hidden(lines: seq<string>, p: Policy): seq<string> {
    Select(lines, l => p.Hides(l))
  }

  // ---------------------------------------------------------------- lookup laws

  lemma {:induction false} ResolveConcat(a: seq<string>, b: seq<string>, d: string, isIp: string -> bool)
    ensures Resolve(a + b, d, isIp) == OrElse(Resolve(a, d, isIp), Resolve(b, d, isIp))
  {
    if a == [] {
      assert a + b == b;
    } else {
      assert (a + b)[1..] == a[1..] + b;
      ResolveConcat(a[1..], b, d, isIp);
    }
  }

  lemma MentionsHasAddress(line: string, d: string, isIp: string -> bool)
    requires Mentions(line, d, isIp)
    ensures Tokens(Trim(line)) != [] && !IsBlank(line)
  {
    DomainLineIsNotMark(line, isIp);
  }

  lemma {:induction false} ResolveNone(lines: seq<string>, d: string, isIp: string -> bool)
    requires forall l :: l in lines ==> !Mentions(l, d, isIp)
    ensures Resolve(lines, d, isIp) == None
  {
    if lines != [] {
      assert !Mentions(lines[0], d, isIp);
      ResolveNone(lines[1..], d, isIp);
    }
  }

  lemma {:induction false} ResolveMember(lines: seq<string>, line: string, d: string, isIp: string -> bool)
    requires line in lines && Mentions(line, d, isIp)
    ensures Resolve(lines, d, isIp).Some?
  {
    if lines[0] == line {
      MentionsHasAddress(line, d, isIp);
    } else {
      assert line in lines[1..];
      ResolveMember(lines[1..], line, d, isIp);
    }
  }

  /** Dropping repeated and blank lines does not change any lookup. */
  lemma {:induction false} ResolvePushAll(acc: seq<string>, lines: seq<string>, d: string, isIp: string -> bool)
    ensures Resolve(PushAll(acc, lines), d, isIp) == OrElse(Resolve(acc, d, isIp), Resolve(lines, d, isIp))
    decreases |lines|
  {
    if lines != [] {
      var line := lines[0];
      ResolvePushAll(PushUnique(acc, line), lines[1..], d, isIp);
      if IsBlank(line) {
        BlankHasNoDomains(line, isIp);
      } else if line in acc {
        if Mentions(line, d, isIp) { ResolveMember(acc, line, d, isIp); }
      } else {
        ResolveConcat(acc, [line], d, isIp);
        assert [line][1..] == [];
      }
    }
  }

  lemma {:induction false} ResolveDropBlankTail(lines: seq<string>, d: string, isIp: string -> bool)
    ensures Resolve(DropBlankTail(lines), d, isIp) == Resolve(lines, d, isIp)
  {
    if lines != [] && IsBlank(lines[|lines| - 1]) {
      var n := |lines| - 1;
      ResolveDropBlankTail(lines[..n], d, isIp);
      BlankHasNoDomains(lines[n], isIp);
      ResolveNone([lines[n]], d, isIp);
      assert lines == lines[..n] + [lines[n]];
      ResolveConcat(lines[..n], [lines[n]], d, isIp);
    }
  }

  /** Looking up through the split file sees the first unmanaged line, and only then the first hidden one. */
  lemma {:induction false} ResolveSplit(lines: seq<string>, p: Policy, d: string, isIp: string -> bool)
    ensures Resolve(lines, d, isIp) == Resolve(Unmanaged(lines, p), d, isIp)
         || Resolve(lines, d, isIp) == Resolve(Hidden(lines, p), d, isIp)
    ensures Resolve(Unmanaged(lines, p), d, isIp) == None ==> Resolve(lines, d, isIp) == Resolve(Hidden(lines, p), d, isIp)
    ensures Resolve(Hidden(lines, p), d, isIp) == None ==> Resolve(lines, d, isIp) == Resolve(Unmanaged(lines, p), d, isIp)
  {
    if lines != [] {
      ResolveSplit(lines[1..], p, d, isIp);
      var u, h := Unmanaged(lines[1..], p), Hidden(lines[1..], p);
      if p.Hides(lines[0]) {
        assert Hidden(lines, p) == [lines[0]] + h && Unmanaged(lines, p) == [] + u == u;
        assert ([lines[0]] + h)[1..] == h;
      } else {
        assert Hidden(lines, p) == [] + h == h && Unmanaged(lines, p) == [lines[0]] + u;
        assert ([lines[0]] + u)[1..] == u;
      }
    }
  }

  /** From a marker-free file the scan is a split into unmanaged and hidden lines. */
  lemma {:induction false} ScanSplits(p: Policy, st: Scan, lines: seq<string>)
    requires NoMarks(lines) && st.phase == Main
    ensures ScanLines(p, st, lines)
         == Scan(Main, st.main + Unmanaged(lines, p), PushAll(st.backup, Hidden(lines, p)))
    decreases |lines|
  {
    hide IsMark;
    if lines != [] {
      assert NotMark(lines[0]);
      ScanSplits(p, Step(p, st, lines[0]), lines[1..]);
      var u, h := Unmanaged(lines[1..], p), Hidden(lines[1..], p);
      if p.Hides(lines[0]) {
        assert Hidden(lines, p) == [lines[0]] + h && Unmanaged(lines, p) == [] + u == u;
        assert ([lines[0]] + h)[1..] == h;
      } else {
        assert Hidden(lines, p) == [] + h == h && Unmanaged(lines, p) == [lines[0]] + u;
        assert st.main + [lines[0]] + u == st.main + ([lines[0]] + u);
      }
    } else {
      assert st.main + [] == st.main;
    }
  }

  lemma UpdatedLines(text: string, entries: seq<Entry>, isIp: string -> bool)
    requires Writable(entries)
    ensures var r := ScanLines(Updating(Managed(entries), isIp), START, FileLines(text));
            FileLines(UpdateText(text, entries, isIp)) == Rendered(DropBlankTail(r.main), entries, r.backup)
  {
    var p := Updating(Managed(entries), isIp);
    TextScanSound(p, text);
    var r := ScanLines(p, START, FileLines(text));
    RenderedIsClean(p, DropBlankTail(r.main), entries, r.backup);
    FileLinesOfJoin(Rendered(DropBlankTail(r.main), entries, r.backup));
  }

  lemma SoundForRemoving(p: Policy, main: seq<string>, backup: seq<string>)
    requires Sound(p, Scan(Main, main, backup))
    ensures Sound(Removing, Scan(Main, main, backup))
  {}

  lemma RemoveOfRendered(text: string, main: seq<string>, entries: seq<Entry>, backup: seq<string>)
    requires Sound(Removing, Scan(Main, main, backup)) && Writable(entries)
    requires FileLines(text) == Rendered(main, entries, backup)
    ensures FileLines(RemoveText(text)) == Merged(DropBlankTail(main), backup)
  {
    RemovedLines(text);
    Rescan(Removing, main, entries, backup);
  }

  function RestoredLines(lines: seq<string>, p: Policy): seq<string> {
    Merged(DropBlankTail(Unmanaged(lines, p)), PushAll([], Hidden(lines, p)))
  }

  /**
   Removing after updating a marker-free file: the never-managed lines in their original order,
   then each hidden line once, in file order.
   */
  lemma RemoveAfterUpdate(text: string, entries: seq<Entry>, isIp: string -> bool)
    requires NoMarks(FileLines(text)) && Writable(entries)
    ensures FileLines(RemoveText(UpdateText(text, entries, isIp)))
         == RestoredLines(FileLines(text), Updating(Managed(entries), isIp))
  {
    var p := Updating(Managed(entries), isIp);
    var lines := FileLines(text);
    var r := ScanLines(p, START, lines);
    var main := DropBlankTail(r.main);
    assert Sound(Removing, Scan(Main, main, r.backup)) by {
      TextScanSound(p, text);
      SoundForRemoving(p, main, r.backup);
    }
    assert r.main == Unmanaged(lines, p) && r.backup == PushAll([], Hidden(lines, p)) by {
      ScanSplits(p, START, lines);
    }
    assert DropBlankTail(main) == main by {
      DropBlankTailFacts(r.main);
    }
    UpdatedLines(text, entries, isIp);
    RemoveOfRendered(UpdateText(text, entries, isIp), main, entries, r.backup);
  }

  // ---------------------------------------------------------------- what an update does to one line

  /** No line of the main part names a host that an entry manages, with or without an address to give it. */
  lemma ManagedNamesLeaveMain(text: string, entries: seq<Entry>, isIp: string -> bool, e: Entry, l: string)
    requires e in entries && Trim(e.domain) != "" && l in Above(FileLines(text), Updating(Managed(entries), isIp))
    ensures !Mentions(l, Lower(Trim(e.domain)), isIp)
  {
    hide IsMark, LineDomains, FileLines;
    var p := Updating(Managed(entries), isIp);
    TextScanSound(p, text);
    assert !p.Hides(l);
  }

  lemma {:induction false} ScanConcat(p: Policy, st: Scan, a: seq<string>, b: seq<string>)
    ensures ScanLines(p, st, a + b) == ScanLines(p, ScanLines(p, st, a), b)
    decreases |a|
  {
    if a == [] {
      assert a + b == b;
    } else {
      assert (a + b)[1..] == a[1..] + b;
      ScanConcat(p, Step(p, st, a[0]), a[1..], b);
    }
  }

  lemma {:induction false} MainGrows(p: Policy, st: Scan, lines: seq<string>)
    ensures st.main <= ScanLines(p, st, lines).main
    ensures forall l :: l in ScanLines(p, st, lines).main ==> l in st.main || l in lines
    decreases |lines|
  {
    hide IsMark;
    if lines != [] {
      MainGrows(p, Step(p, st, lines[0]), lines[1..]);
    }
  }

  lemma {:induction false} SolidStays(a: seq<string>, line: string, b: seq<string>)
    requires !IsBlank(line)
    ensures a + [line] <= DropBlankTail(a + [line] + b)
    decreases |b|
  {
    var all := a + [line] + b;
    if b == [] {
      assert all == a + [line] && all[|all| - 1] == line;
    } else {
      var n := |b| - 1;
      assert all[..|all| - 1] == a + [line] + b[..n];
      SolidStays(a, line, b[..n]);
    }
  }

  /** What the scan has collected for the main part when it reaches `line`. */
  function Above(lines: seq<string>, p: Policy): seq<string> {
    ScanLines(p, START, lines).main
  }

  lemma KeptInPlace(text: string, entries: seq<Entry>, isIp: string -> bool, before: seq<string>, line: string, after: seq<string>)
    requires Writable(entries) && FileLines(text) == before + [line] + after
    requires ScanLines(Updating(Managed(entries), isIp), START, before).phase == Main
    requires NotMark(line) && !IsBlank(line) && !Conflicts(line, Managed(entries), isIp)
    ensures Above(before, Updating(Managed(entries), isIp)) + [line] <= FileLines(UpdateText(text, entries, isIp))
  {
    hide IsMark, UpdateText, Conflicts, FileLines, DropBlankTail, Rendered;
    var p := Updating(Managed(entries), isIp);
    UpdatedLines(text, entries, isIp);
    ScanConcat(p, START, before + [line], after);
    ScanConcat(p, START, before, [line]);
    var st := ScanLines(p, START, before);
    assert !p.Hides(line);
    assert [line][1..] == [];
    assert ScanLines(p, st, [line]) == st.(main := st.main + [line]);
    MainGrows(p, ScanLines(p, START, before + [line]), after);
    var main := ScanLines(p, START, FileLines(text)).main;
    assert main == st.main + [line] + main[|st.main| + 1..];
    SolidStays(st.main, line, main[|st.main| + 1..]);
    RenderedStartsWithMain(DropBlankTail(main), entries, ScanLines(p, START, FileLines(text)).backup);
  }

  lemma RenderedStartsWithMain(main: seq<string>, entries: seq<Entry>, backup: seq<string>)
    ensures main <= Rendered(main, entries, backup)
  {}

  /**
   A line none of whose names is managed stays where it is, below the same kept lines, and keeps deciding the
   names it decided - whatever its comment says.
   */
  lemma CommentDoesNotCount(text: string, entries: seq<Entry>, isIp: string -> bool, before: seq<string>, line: string,
                            after: seq<string>, ip: string, names: seq<string>, comment: seq<string>, k: nat)
    requires forall e :: e in entries ==> Usable(e, isIp)
    requires FileLines(text) == before + [line] + after
    requires ScanLines(Updating(Managed(entries), isIp), START, before).phase == Main
    requires Reads(line, ip, names, comment) && isIp(ip) && k < |names|
    requires forall n, e :: n in names && e in entries ==> Lower(n) != Lower(Trim(e.domain))
    requires forall l :: l in before ==> !Mentions(l, Lower(names[k]), isIp)
    ensures Above(before, Updating(Managed(entries), isIp)) + [line] <= FileLines(UpdateText(text, entries, isIp))
    ensures Resolve(FileLines(text), Lower(names[k]), isIp) == Some(ip)
    ensures Resolve(FileLines(UpdateText(text, entries, isIp)), Lower(names[k]), isIp) == Some(ip)
  {
    hide Lower, Trim, Tokens, Resolve, UpdateText, FileLines, ScanLines, LineDomains, NotMark, Usable;
    var d := Lower(names[k]);
    var managed := Managed(entries);
    UsableIsWritable(entries, isIp);
    LineNames(line, ip, names, comment, isIp, d);
    assert Mentions(line, d, isIp);
    DomainLineIsNotMark(line, isIp);
    assert !Conflicts(line, managed, isIp) by {
      if Conflicts(line, managed, isIp) {
        var x :| x in LineDomains(line, isIp).value && x in managed;
        LineNames(line, ip, names, comment, isIp, x);
      }
    }
    KeptInPlace(text, entries, isIp, before, line, after);
    FirstDecides(before, line, after, d, isIp);
    var p := Updating(managed, isIp);
    var updated := FileLines(UpdateText(text, entries, isIp));
    var above := Above(before, p);
    MainGrows(p, START, before);
    assert updated == above + [line] + updated[|above| + 1..];
    FirstDecides(above, line, updated[|above| + 1..], d, isIp);
  }

  lemma NotManaged(line: string, ip: string, names: seq<string>, comment: seq<string>, entries: seq<Entry>, isIp: string -> bool)
    requires Reads(line, ip, names, comment) && isIp(ip) && names != []
    requires forall n, e :: n in names && e in entries ==> Lower(n) != Lower(Trim(e.domain))
    ensures LineDomains(line, isIp).Some? && !Conflicts(line, Managed(entries), isIp)
  {
    hide Lower, Trim, Tokens, LineDomains;
    LineNames(line, ip, names, comment, isIp, Lower(names[0]));
    assert Mentions(line, Lower(names[0]), isIp);
    if Conflicts(line, Managed(entries), isIp) {
      var x :| x in LineDomains(line, isIp).value && x in Managed(entries);
      LineNames(line, ip, names, comment, isIp, x);
    }
  }

  /** A line of the user's that no entry manages any longer is back in the main part after the next update, wherever it was. */
  lemma UnmanagedReturns(text: string, entries: seq<Entry>, isIp: string -> bool, line: string,
                         ip: string, names: seq<string>, comment: seq<string>)
    requires line in UserLines(Main, FileLines(text))
    requires Reads(line, ip, names, comment) && isIp(ip) && names != []
    requires forall n, e :: n in names && e in entries ==> Lower(n) != Lower(Trim(e.domain))
    ensures line in Above(FileLines(text), Updating(Managed(entries), isIp))
  {
    hide Lower, Trim, Tokens, FileLines, UserLines, LineDomains, Reads, Conflicts, IsMark;
    var p := Updating(Managed(entries), isIp);
    NotManaged(line, ip, names, comment, entries, isIp);
    TextScanSound(p, text);
    ScanKeepsUserLines(p, START, FileLines(text));
    var r := ScanLines(p, START, FileLines(text));
    assert line in Kept(r);
    assert p.Restores(line);
    assert line !in r.backup;
  }

  lemma FirstDecides(before: seq<string>, line: string, after: seq<string>, d: string, isIp: string -> bool)
    requires (forall l :: l in before ==> !Mentions(l, d, isIp)) && Mentions(line, d, isIp)
    ensures Resolve(before + [line] + after, d, isIp) == Resolve([line], d, isIp)
  {
    hide Mentions;
    ResolveNone(before, d, isIp);
    ResolveConcat(before + [line], after, d, isIp);
    ResolveConcat(before, [line], d, isIp);
    ResolveMember([line], line, d, isIp);
  }

  // ---------------------------------------------------------------- the managed block

  /** An entry that maps one plain name to one address, or has no name and is skipped. */
  predicate Usable(e: Entry, isIp: string -> bool) {
    Trim(e.domain) == "" ||
    (IsToken(Trim(e.domain)) && Trim(e.domain)[0] != '#'
     && IsToken(Trim(e.ip)) && Trim(e.ip)[0] != '#' && isIp(Trim(e.ip)))
  }

  /** The address the caller asked for: that of the first entry for the name. */
  function FirstEntry(entries: seq<Entry>, d: string): Option<string> {
    if entries == [] then None
    else if Trim(entries[0].domain) != "" && Lower(Trim(entries[0].domain)) == d then Some(Trim(entries[0].ip))
    else FirstEntry(entries[1..], d)
  }

  lemma EntryLine(domain: string, ip: string, isIp: string -> bool)
    requires IsToken(domain) && domain[0] != '#' && IsToken(ip) && ip[0] != '#' && isIp(ip)
    ensures var line := ip + " " + domain;
            LineDomains(line, isIp) == Some([Lower(domain)]) && Tokens(Trim(line)) == [ip, domain]
            && CleanLine(line) && NotMark(line)
  {
    var line := ip + " " + domain;
    assert line[0] == ip[0] && line[|line| - 1] == domain[|domain| - 1];
    TrimFixed(line);
    TokensOfPair(ip, domain);
    assert [ip, domain][1..] == [domain] && DomainTokens([domain][1..]) == [];
    assert !("#" <= domain);
    assert DomainTokens([domain]) == [Lower(domain)];
    DomainLineIsNotMark(line, isIp);
    assert !IsSpace(domain[|domain| - 1]);
  }

  lemma {:induction false} UsableIsWritable(entries: seq<Entry>, isIp: string -> bool)
    requires forall e :: e in entries ==> Usable(e, isIp)
    ensures Writable(entries)
  {
    if entries != [] {
      assert Usable(entries[0], isIp);
      if Trim(entries[0].domain) != "" {
        EntryLine(Trim(entries[0].domain), Trim(entries[0].ip), isIp);
      }
      UsableIsWritable(entries[1..], isIp);
    }
  }

  lemma {:induction false} ResolveEntries(entries: seq<Entry>, d: string, isIp: string -> bool)
    requires forall e :: e in entries ==> Usable(e, isIp)
    ensures Resolve(EntryLines(entries), d, isIp) == FirstEntry(entries, d)
    ensures FirstEntry(entries, d).Some? <==> d in Managed(entries)
  {
    if entries != [] {
      var domain, ip := Trim(entries[0].domain), Trim(entries[0].ip);
      assert Usable(entries[0], isIp);
      ResolveEntries(entries[1..], d, isIp);
      assert entries == [entries[0]] + entries[1..];
      if domain != "" {
        EntryLine(domain, ip, isIp);
        var line := ip + " " + domain;
        assert EntryLines(entries) == [line] + EntryLines(entries[1..]);
        assert ([line] + EntryLines(entries[1..]))[1..] == EntryLines(entries[1..]);
        assert Mentions(line, d, isIp) <==> d == Lower(domain);
      } else {
        assert EntryLines(entries) == [] + EntryLines(entries[1..]) == EntryLines(entries[1..]);
      }
    }
  }

  lemma ResolveMark(mark: string, d: string, isIp: string -> bool)
    requires IsMark(mark, mark) && "# " <= mark
    ensures Resolve([mark], d, isIp) == None
  {
    MarkIsComment(mark, mark, isIp);
    ResolveNone([mark], d, isIp);
  }

  lemma ResolveBlock(entries: seq<Entry>, d: string, isIp: string -> bool)
    ensures Resolve(BlockLines(entries), d, isIp) == Resolve(EntryLines(entries), d, isIp)
  {
    StartMark();
    EndMark();
    ResolveMark(MARK_START, d, isIp);
    ResolveMark(MARK_END, d, isIp);
    ResolveConcat([MARK_START] + EntryLines(entries), [MARK_END], d, isIp);
    ResolveConcat([MARK_START], EntryLines(entries), d, isIp);
  }

  lemma ResolveBlank(d: string, isIp: string -> bool)
    ensures Resolve([""], d, isIp) == None
  {
    BlankHasNoDomains("", isIp);
    ResolveNone([""], d, isIp);
  }

  lemma ResolveBackup(backup: seq<string>, d: string, isIp: string -> bool)
    ensures Resolve(BackupLines(backup), d, isIp) == Resolve(backup, d, isIp)
  {
    if backup != [] {
      BackupStartMark();
      BackupEndMark();
      ResolveMark(BACKUP_MARK_START, d, isIp);
      ResolveMark(BACKUP_MARK_END, d, isIp);
      ResolveBlank(d, isIp);
      assert ["", BACKUP_MARK_START] == [""] + [BACKUP_MARK_START];
      ResolveConcat([""], [BACKUP_MARK_START], d, isIp);
      ResolveConcat(["", BACKUP_MARK_START] + backup, [BACKUP_MARK_END], d, isIp);
      ResolveConcat(["", BACKUP_MARK_START], backup, d, isIp);
    }
  }

  lemma ResolveRendered(main: seq<string>, entries: seq<Entry>, backup: seq<string>, d: string, isIp: string -> bool)
    ensures Resolve(Rendered(main, entries, backup), d, isIp)
         == OrElse(Resolve(main, d, isIp), OrElse(Resolve(EntryLines(entries), d, isIp), Resolve(backup, d, isIp)))
  {
    var gap := if main == [] then [] else [""];
    ResolveBlank(d, isIp);
    ResolveConcat(main, gap, d, isIp);
    ResolveConcat(main + gap, BlockLines(entries), d, isIp);
    ResolveConcat(main + gap + BlockLines(entries), BackupLines(backup), d, isIp);
    ResolveConcat(main + gap + BlockLines(entries) + BackupLines(backup), [""], d, isIp);
    ResolveBlock(entries, d, isIp);
    ResolveBackup(backup, d, isIp);
  }

  lemma ResolveMerged(main: seq<string>, backup: seq<string>, d: string, isIp: string -> bool)
    ensures Resolve(Merged(main, backup), d, isIp) == OrElse(Resolve(main, d, isIp), Resolve(backup, d, isIp))
  {
    var gap := if main == [] || backup == [] then [] else [""];
    ResolveBlank(d, isIp);
    ResolveConcat(main, gap, d, isIp);
    ResolveConcat(main + gap, backup, d, isIp);
  }

  // ---------------------------------------------------------------- the meaning of the file

  /** After an update every managed name resolves to its first entry, whatever the file held. */
  lemma ManagedNamesResolveToEntries(text: string, entries: seq<Entry>, isIp: string -> bool, d: string)
    requires forall e :: e in entries ==> Usable(e, isIp)
    requires d in Managed(entries)
    ensures FirstEntry(entries, d).Some?
    ensures Resolve(FileLines(UpdateText(text, entries, isIp)), d, isIp) == FirstEntry(entries, d)
  {
    var p := Updating(Managed(entries), isIp);
    UsableIsWritable(entries, isIp);
    UpdatedLines(text, entries, isIp);
    TextScanSound(p, text);
    var r := ScanLines(p, START, FileLines(text));
    var main := DropBlankTail(r.main);
    forall l | l in main ensures !Mentions(l, d, isIp) {
      assert !p.Hides(l);
    }
    ResolveNone(main, d, isIp);
    ResolveRendered(main, entries, r.backup, d, isIp);
    ResolveEntries(entries, d, isIp);
  }

  lemma {:induction false} HiddenNeverFromUnmanaged(lines: seq<string>, p: Policy, d: string)
    requires p.Updating? && d in p.managed
    ensures Resolve(Unmanaged(lines, p), d, p.isIp) == None
  {
    if lines != [] {
      HiddenNeverFromUnmanaged(lines[1..], p, d);
      var u := Unmanaged(lines[1..], p);
      if p.Hides(lines[0]) {
        assert Unmanaged(lines, p) == [] + u == u;
      } else {
        assert ([lines[0]] + u)[1..] == u;
      }
    }
  }

  lemma ResolveAfterUpdate(text: string, entries: seq<Entry>, isIp: string -> bool, d: string)
    requires NoMarks(FileLines(text)) && d !in Managed(entries)
    requires forall e :: e in entries ==> Usable(e, isIp)
    ensures Resolve(FileLines(UpdateText(text, entries, isIp)), d, isIp)
         == OrElse(Resolve(Unmanaged(FileLines(text), Updating(Managed(entries), isIp)), d, isIp),
                   Resolve(Hidden(FileLines(text), Updating(Managed(entries), isIp)), d, isIp))
  {
    var p := Updating(Managed(entries), isIp);
    UsableIsWritable(entries, isIp);
    UpdatedLines(text, entries, isIp);
    ScanSplits(p, START, FileLines(text));
    var r := ScanLines(p, START, FileLines(text));
    assert r.main == Unmanaged(FileLines(text), p);
    ResolveRendered(DropBlankTail(r.main), entries, r.backup, d, isIp);
    ResolveEntries(entries, d, isIp);
    ResolveDropBlankTail(r.main, d, isIp);
    ResolvePushAll([], Hidden(FileLines(text), p), d, isIp);
  }

  /**
   A name that is not managed resolves as before exactly when no unmanaged line gives it another
   address than the first line that names it (a hidden line keeps its names, but loses its place).
   */
  lemma UnmanagedNamesResolveAsBefore(text: string, entries: seq<Entry>, isIp: string -> bool, d: string)
    requires NoMarks(FileLines(text)) && d !in Managed(entries)
    requires forall e :: e in entries ==> Usable(e, isIp)
    ensures var before := Resolve(FileLines(text), d, isIp);
            var elsewhere := Resolve(Unmanaged(FileLines(text), Updating(Managed(entries), isIp)), d, isIp);
            Resolve(FileLines(UpdateText(text, entries, isIp)), d, isIp) == before
            <==> elsewhere == None || elsewhere == before
  {
    ResolveAfterUpdate(text, entries, isIp, d);
    ResolveSplit(FileLines(text), Updating(Managed(entries), isIp), d, isIp);
  }

  const SHARED_LINES := ["1.1.1.1 a b", "2.2.2.2 b"]

  /** Managing `a` hides the first line, and with it the first address of `b`. */
  lemma SharedLineLosesItsPlace(isIp: string -> bool)
    requires isIp("1.1.1.1") && isIp("2.2.2.2") && isIp("9.9.9.9")
    ensures var text := JoinHosts(SHARED_LINES);
            Resolve(FileLines(text), "b", isIp) == Some("1.1.1.1")
            && Resolve(FileLines(UpdateText(text, [Entry("a", "9.9.9.9")], isIp)), "b", isIp) == Some("2.2.2.2")
  {
    hide UpdateText, DomainTokens, NotMark, JoinHosts, FileLines, LineDomains, Resolve, Managed, Usable, Unmanaged, Hidden;
    var text, entries := JoinHosts(SHARED_LINES), [Entry("a", "9.9.9.9")];
    ManagesA(entries, isIp);
    SharedLines(isIp);
    FileLinesOfJoin(SHARED_LINES);
    ResolveAfterUpdate(text, entries, isIp, "b");
    SharedSplit(Updating({"a"}, isIp));
  }

  lemma SharedSplit(p: Policy)
    requires p.Updating? && p.managed == {"a"} && p.isIp("1.1.1.1") && p.isIp("2.2.2.2")
    ensures Resolve(SHARED_LINES, "b", p.isIp) == Some("1.1.1.1")
    ensures Resolve(Unmanaged(SHARED_LINES, p), "b", p.isIp) == Some("2.2.2.2")
  {
    hide LineDomains, Tokens, Trim;
    SharedLines(p.isIp);
    var first, second := SHARED_LINES[0], SHARED_LINES[1];
    assert "a" in ["a", "b"] && "b" in ["a", "b"] && "b" in ["b"] && "a" !in ["b"] by {
      assert "a" == ["a", "b"][0] && "b" == ["a", "b"][1] && "b" == ["b"][0] && "a"[0] != "b"[0];
    }
    assert p.Hides(first) && !p.Hides(second);
    assert SHARED_LINES[1..] == [second] && [second][1..] == [];
    assert Unmanaged([second], p) == [second] + Unmanaged([], p) == [second];
    assert Unmanaged(SHARED_LINES, p) == [] + [second] == [second];
  }

  lemma ManagesA(entries: seq<Entry>, isIp: string -> bool)
    requires entries == [Entry("a", "9.9.9.9")] && isIp("9.9.9.9")
    ensures Managed(entries) == {"a"} && forall e :: e in entries ==> Usable(e, isIp)
  {
    TrimFixed("a");
    TrimFixed("9.9.9.9");
    assert Lower("a") == "a";
    assert Entry("a", "9.9.9.9") in entries;
  }

  /** A line that maps two names to one address. */
  lemma TwoNamesLine(ip: string, first: string, second: string, isIp: string -> bool)
    requires IsToken(first) && first[0] != '#' && IsToken(second) && second[0] != '#'
    requires IsToken(ip) && ip[0] != '#' && isIp(ip)
    ensures var line := ip + " " + first + " " + second;
            LineDomains(line, isIp) == Some([Lower(first), Lower(second)]) && Tokens(Trim(line)) == [ip, first, second]
            && CleanLine(line) && NotMark(line)
  {
    hide Tokens, DomainTokens, NotMark;
    var line := ip + " " + first + " " + second;
    assert line[0] == ip[0] && line[|line| - 1] == second[|second| - 1];
    TrimFixed(line);
    TokensOfThree(ip, first, second);
    assert [ip, first, second][1..] == [first, second];
    TwoDomainTokens(first, second);
    DomainLineIsNotMark(line, isIp);
    assert !IsSpace(second[|second| - 1]);
  }

  lemma TwoDomainTokens(first: string, second: string)
    requires first != "" && first[0] != '#' && second != "" && second[0] != '#'
    ensures DomainTokens([first, second]) == [Lower(first), Lower(second)]
  {
    assert !("#" <= first) && !("#" <= second);
    assert [first, second][1..] == [second] && DomainTokens([second][1..]) == [];
    assert DomainTokens([second]) == [Lower(second)];
  }

  lemma SharedLines(isIp: string -> bool)
    requires isIp("1.1.1.1") && isIp("2.2.2.2")
    ensures AllClean(SHARED_LINES) && NoMarks(SHARED_LINES)
    ensures LineDomains(SHARED_LINES[0], isIp) == Some(["a", "b"]) && Tokens(Trim(SHARED_LINES[0])) == ["1.1.1.1", "a", "b"]
    ensures LineDomains(SHARED_LINES[1], isIp) == Some(["b"]) && Tokens(Trim(SHARED_LINES[1])) == ["2.2.2.2", "b"]
  {
    hide LineDomains, Tokens, Trim, NotMark, CleanLine;
    assert Lower("a") == "a" && Lower("b") == "b";
    assert SHARED_LINES[0] == "1.1.1.1" + " " + "a" + " " + "b" && SHARED_LINES[1] == "2.2.2.2" + " " + "b";
    TwoNamesLine("1.1.1.1", "a", "b", isIp);
    EntryLine("b", "2.2.2.2", isIp);
  }

  /** In particular a name that shares no line with a managed one keeps its meaning. */
  lemma UnsharedNamesResolveAsBefore(text: string, entries: seq<Entry>, isIp: string -> bool, d: string)
    requires NoMarks(FileLines(text)) && d !in Managed(entries)
    requires forall e :: e in entries ==> Usable(e, isIp)
    requires forall l :: l in FileLines(text) && Mentions(l, d, isIp) ==> !Conflicts(l, Managed(entries), isIp)
    ensures Resolve(FileLines(UpdateText(text, entries, isIp)), d, isIp) == Resolve(FileLines(text), d, isIp)
  {
    var p := Updating(Managed(entries), isIp);
    ResolveAfterUpdate(text, entries, isIp, d);
    ResolveSplit(FileLines(text), p, d, isIp);
    HiddenIsSublist(FileLines(text), p);
    ResolveNone(Hidden(FileLines(text), p), d, isIp);
  }

  lemma {:induction false} HiddenIsSublist(lines: seq<string>, p: Policy)
    ensures forall l :: l in Hidden(lines, p) ==> l in lines && p.Hides(l)
  {
    if lines != [] {
      HiddenIsSublist(lines[1..], p);
    }
  }

  /**
   After update and remove a name resolves as in the original file under the same exact condition,
   which every managed name meets, and every name that shares no line with a managed one.
   */
  lemma RemoveRestoresMeaning(text: string, entries: seq<Entry>, isIp: string -> bool, d: string)
    requires NoMarks(FileLines(text))
    requires forall e :: e in entries ==> Usable(e, isIp)
    ensures var before := Resolve(FileLines(text), d, isIp);
            var elsewhere := Resolve(Unmanaged(FileLines(text), Updating(Managed(entries), isIp)), d, isIp);
            Resolve(FileLines(RemoveText(UpdateText(text, entries, isIp))), d, isIp) == before
            <==> elsewhere == None || elsewhere == before
    ensures d in Managed(entries) ==>
            Resolve(FileLines(RemoveText(UpdateText(text, entries, isIp))), d, isIp) == Resolve(FileLines(text), d, isIp)
    ensures (forall l :: l in FileLines(text) && Mentions(l, d, isIp) ==> !Conflicts(l, Managed(entries), isIp)) ==>
            Resolve(FileLines(RemoveText(UpdateText(text, entries, isIp))), d, isIp) == Resolve(FileLines(text), d, isIp)
  {
    var p := Updating(Managed(entries), isIp);
    var lines := FileLines(text);
    UsableIsWritable(entries, isIp);
    RemoveAfterUpdate(text, entries, isIp);
    ResolveMerged(DropBlankTail(Unmanaged(lines, p)), PushAll([], Hidden(lines, p)), d, isIp);
    ResolveDropBlankTail(Unmanaged(lines, p), d, isIp);
    ResolvePushAll([], Hidden(lines, p), d, isIp);
    ResolveSplit(lines, p, d, isIp);
    if d in Managed(entries) {
      HiddenNeverFromUnmanaged(lines, p, d);
    }
    if forall l :: l in lines && Mentions(l, d, isIp) ==> !Conflicts(l, Managed(entries), isIp) {
      HiddenIsSublist(lines, p);
      ResolveNone(Hidden(lines, p), d, isIp);
    }
  }
}
