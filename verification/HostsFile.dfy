/**
 The hosts-file rewriter: a three-phase line scanner, the text it writes back, and what any
 sequence of rewrites keeps. `isIp` stands for the standard library's address parser.
 */
module HostsFile {
  import opened Text

  // The four markers, spelled as their tokens.
  const HASH := "#"
  const NAME := "WattToolkit-Lite"
  const MARK_START := HASH + " " + NAME + " " + "Start"
  const MARK_END := HASH + " " + NAME + " " + "End"
  const BACKUP_MARK_START := HASH + " " + NAME + " " + "Backup" + " " + "Start"
  const BACKUP_MARK_END := HASH + " " + NAME + " " + "Backup" + " " + "End"
  const MAX_FILE_LENGTH := 50 * 1024 * 1024

  datatype Entry = Entry(domain: string, ip: string)

  datatype Phase = Main | Block | Backup

  // ---------------------------------------------------------------- lines

  predicate IsMark(line: string, mark: string) {
    Lower(JoinWith(Tokens(line), " ")) == Lower(mark)
  }

  predicate NotMark(line: string) {
    && !IsMark(line, MARK_START) && !IsMark(line, MARK_END)
    && !IsMark(line, BACKUP_MARK_START) && !IsMark(line, BACKUP_MARK_END)
  }

  /** The host names after the address, up to a comment token. */
  function DomainTokens(tokens: seq<string>): seq<string> {
    if tokens == [] || "#" <= tokens[0] then []
    else [Lower(tokens[0])] + DomainTokens(tokens[1..])
  }

  /** The names a line maps, or None when it maps nothing. */
  function LineDomains(line: string, isIp: string -> bool): Option<seq<string>> {
    var trimmed := Trim(line);
    if trimmed == "" || trimmed[0] == '#' then None
    else
      var tokens := Tokens(trimmed);
      if tokens == [] || !isIp(tokens[0]) then None
      else
        var domains := DomainTokens(tokens[1..]);
        if domains == [] then None else Some(domains)
  }

  predicate Mentions(line: string, d: string, isIp: string -> bool) {
    LineDomains(line, isIp).Some? && d in LineDomains(line, isIp).value
  }

  /** Address of the first line that names `d`. */
  function Resolve(lines: seq<string>, d: string, isIp: string -> bool): Option<string> {
    if lines == [] then None
    else if Mentions(lines[0], d, isIp) && Tokens(Trim(lines[0])) != [] then Some(Tokens(Trim(lines[0]))[0])
    else Resolve(lines[1..], d, isIp)
  }

  function Managed(entries: seq<Entry>): set<string> {
    set e | e in entries && Trim(e.domain) != "" :: Lower(Trim(e.domain))
  }

  predicate Conflicts(line: string, managed: set<string>, isIp: string -> bool) {
    LineDomains(line, isIp).Some? && exists d :: d in LineDomains(line, isIp).value && d in managed
  }

  // ---------------------------------------------------------------- reading

  function TrimCr(s: string): string {
    if s != "" && s[|s| - 1] == '\r' then TrimCr(s[..|s| - 1]) else s
  }

  function TrimCrAll(ls: seq<string>): seq<string> {
    if ls == [] then [] else [TrimCr(ls[0])] + TrimCrAll(ls[1..])
  }

  /** The lines of a hosts text as the rewriter sees them. */
  function FileLines(text: string): seq<string> {
    TrimCrAll(Lines(text))
  }

  // ---------------------------------------------------------------- the scanner

  /** What the two rewrites do with a line: hide it from the main part, or bring it back. */
  datatype Policy = Updating(managed: set<string>, isIp: string -> bool) | Removing {
    predicate Hides(line: string) {
      Updating? && Conflicts(line, managed, isIp)
    }

    predicate Restores(line: string) {
      Updating? && LineDomains(line, isIp).Some? && !Conflicts(line, managed, isIp)
    }
  }

  datatype Scan = Scan(phase: Phase, main: seq<string>, backup: seq<string>)

  function PushUnique(lines: seq<string>, line: string): seq<string> {
    if IsBlank(line) || line in lines then lines else lines + [line]
  }

  function Step(p: Policy, st: Scan, line: string): Scan {
    match st.phase
    case Main =>
      if IsMark(line, MARK_START) then st.(phase := Block)
      else if IsMark(line, BACKUP_MARK_START) then st.(phase := Backup)
      else if IsMark(line, MARK_END) || IsMark(line, BACKUP_MARK_END) then st
      else if p.Hides(line) then st.(backup := PushUnique(st.backup, line))
      else st.(main := st.main + [line])
    case Block =>
      if IsMark(line, MARK_END) then st.(phase := Main) else st
    case Backup =>
      if IsMark(line, BACKUP_MARK_END) then st.(phase := Main)
      else if p.Restores(line) then st.(main := st.main + [line])
      else st.(backup := PushUnique(st.backup, line))
  }

  function ScanLines(p: Policy, st: Scan, lines: seq<string>): Scan
    decreases |lines|
  {
    if lines == [] then st else ScanLines(p, Step(p, st, lines[0]), lines[1..])
  }

  const START := Scan(Main, [], [])

  // ---------------------------------------------------------------- writing

  function DropBlankTail(lines: seq<string>): seq<string> {
    if lines != [] && IsBlank(lines[|lines| - 1]) then DropBlankTail(lines[..|lines| - 1]) else lines
  }

  function EntryLines(entries: seq<Entry>): seq<string> {
    if entries == [] then []
    else
      var domain, ip := Trim(entries[0].domain), Trim(entries[0].ip);
      (if domain != "" && ip != "" then [ip + " " + domain] else []) + EntryLines(entries[1..])
  }

  function BlockLines(entries: seq<Entry>): seq<string> {
    [MARK_START] + EntryLines(entries) + [MARK_END]
  }

  function BackupLines(backup: seq<string>): seq<string> {
    if backup == [] then [] else ["", BACKUP_MARK_START] + backup + [BACKUP_MARK_END]
  }

  function Rendered(main: seq<string>, entries: seq<Entry>, backup: seq<string>): seq<string> {
    main + (if main == [] then [] else [""]) + BlockLines(entries) + BackupLines(backup) + [""]
  }

  function JoinHosts(lines: seq<string>): string {
    var text := JoinWith(lines, "\r\n");
    if text == "" then text else text + "\r\n"
  }

  function UpdateText(text: string, entries: seq<Entry>, isIp: string -> bool): string {
    var st := ScanLines(Updating(Managed(entries), isIp), START, FileLines(text));
    JoinHosts(Rendered(DropBlankTail(st.main), entries, st.backup))
  }

  function Merged(main: seq<string>, backup: seq<string>): seq<string> {
    main + (if main == [] || backup == [] then [] else [""]) + backup
  }

  function RemoveText(text: string): string {
    var st := ScanLines(Removing, START, FileLines(text));
    JoinHosts(Merged(DropBlankTail(st.main), st.backup))
  }

  // ---------------------------------------------------------------- the rewriter

  method PopBlankTail(lines: seq<string>) returns (kept: seq<string>)
    ensures kept == DropBlankTail(lines)
  {
    kept := lines;
    while kept != [] && IsBlank(kept[|kept| - 1])
      invariant DropBlankTail(kept) == DropBlankTail(lines)
      decreases |kept|
    {
      kept := kept[..|kept| - 1];
    }
  }

  method AppendEntries(head: seq<string>, entries: seq<Entry>) returns (out: seq<string>)
    ensures out == head + EntryLines(entries)
  {
    hide Trim;
    out := head;
    for i := 0 to |entries|
      invariant out + EntryLines(entries[i..]) == head + EntryLines(entries)
    {
      var domain, ip := Trim(entries[i].domain), Trim(entries[i].ip);
      assert entries[i..][1..] == entries[i + 1..];
      if domain != "" && ip != "" {
        var line := ip + " " + domain;
        assert out + ([line] + EntryLines(entries[i + 1..])) == (out + [line]) + EntryLines(entries[i + 1..]);
        out := out + [line];
      }
    }
  }

  method Render(main: seq<string>, entries: seq<Entry>, backup: seq<string>) returns (out: seq<string>)
    ensures out == Rendered(main, entries, backup)
  {
    out := main;
    if out != [] {
      out := out + [""];
    }
    ghost var spaced := out;
    out := AppendEntries(out + [MARK_START], entries);
    out := out + [MARK_END];
    assert out == spaced + BlockLines(entries);
    if backup != [] {
      out := out + (["", BACKUP_MARK_START] + backup + [BACKUP_MARK_END]);
    }
    out := out + [""];
  }

  /** The hosts file on disk, reduced to its decoded text. */
  class HostsStore {
    var content: string

    constructor (text: string)
      ensures content == text
    {
      content := text;
    }

    method Write(text: string) returns (ok: bool)
      modifies this
      ensures ok == (|text| <= 52_428_800)
      ensures content == if ok then text else old(content)
    {
      ok := |text| <= MAX_FILE_LENGTH;
      if ok {
        content := text;
      }
    }

    method Update(entries: seq<Entry>, isIp: string -> bool) returns (ok: bool)
      modifies this
      ensures ok == (|UpdateText(old(content), entries, isIp)| <= 52_428_800)
      ensures content == if ok then UpdateText(old(content), entries, isIp) else old(content)
    {
      var managed := Managed(entries);
      var lines := FileLines(content);
      var mainLines: seq<string>, backupLines: seq<string>, backupSeen: set<string> := [], [], {};
      var phase := Main;
      ghost var p := Updating(managed, isIp);
      for i := 0 to |lines|
        invariant ScanLines(p, Scan(phase, mainLines, backupLines), lines[i..]) == ScanLines(p, START, lines)
        invariant forall l :: l in backupSeen <==> l in backupLines
      {
        var line := lines[i];
        var keep := false;
        match phase {
          case Main =>
            if IsMark(line, MARK_START) {
              phase := Block;
            } else if IsMark(line, BACKUP_MARK_START) {
              phase := Backup;
            } else if IsMark(line, MARK_END) || IsMark(line, BACKUP_MARK_END) {
              // Stray end marker: not copied.
            } else if Conflicts(line, managed, isIp) {
              keep := true;
            } else {
              mainLines := mainLines + [line];
            }
          case Block =>
            if IsMark(line, MARK_END) {
              phase := Main;
            }
          case Backup =>
            if IsMark(line, BACKUP_MARK_END) {
              phase := Main;
            } else if LineDomains(line, isIp).Some? && !Conflicts(line, managed, isIp) {
              mainLines := mainLines + [line];
            } else {
              keep := true;
            }
        }
        if keep && !IsBlank(line) && line !in backupSeen {
          backupSeen := backupSeen + {line};
          backupLines := backupLines + [line];
        }
      }
      mainLines := PopBlankTail(mainLines);
      var out := Render(mainLines, entries, backupLines);
      ok := Write(JoinHosts(out));
    }

    method Remove() returns (ok: bool)
      modifies this
      ensures ok == (|RemoveText(old(content))| <= 52_428_800)
      ensures content == if ok then RemoveText(old(content)) else old(content)
    {
      var lines := FileLines(content);
      var mainLines: seq<string>, backupLines: seq<string>, seen: set<string> := [], [], {};
      var phase := Main;
      for i := 0 to |lines|
        invariant ScanLines(Removing, Scan(phase, mainLines, backupLines), lines[i..])
               == ScanLines(Removing, START, lines)
        invariant forall l :: l in seen <==> l in backupLines
      {
        var line := lines[i];
        match phase {
          case Main =>
            if IsMark(line, MARK_START) {
              phase := Block;
            } else if IsMark(line, BACKUP_MARK_START) {
              phase := Backup;
            } else if IsMark(line, MARK_END) || IsMark(line, BACKUP_MARK_END) {
              // Stray end marker.
            } else {
              mainLines := mainLines + [line];
            }
          case Block =>
            if IsMark(line, MARK_END) {
              phase := Main;
            }
          case Backup =>
            if IsMark(line, BACKUP_MARK_END) {
              phase := Main;
            } else if !IsBlank(line) && line !in seen {
              seen := seen + {line};
              backupLines := backupLines + [line];
            }
        }
      }
      mainLines := PopBlankTail(mainLines);
      ghost var kept := mainLines;
      if backupLines != [] {
        if mainLines != [] {
          mainLines := mainLines + [""];
        }
        mainLines := mainLines + backupLines;
      }
      assert mainLines == Merged(kept, backupLines);
      ok := Write(JoinHosts(mainLines));
    }
  }
}
