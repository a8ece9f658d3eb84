/** The three readings of a domain pattern - the proxy's, the DNS interceptor's and the PAC script's - compared. */
module DomainMatch {
  import opened Sequences
  import opened Text

  function Members(domains: seq<string>): set<string> {
    set d | d in domains
  }

  // ---------------------------------------------------------------- the proxy's matcher

  function TrimDots(s: string): string {
    if s != "" && s[0] == '.' then TrimDots(s[1..]) else s
  }

  predicate DomainMatches(pattern: string, host: string) {
    var p, h := Lower(Trim(pattern)), Lower(Trim(host));
    p != "" && h != "" && (p == h || (p[0] == '*' && EndsWith(h, TrimDots(p[1..]))))
  }

  predicate AcceleratedBy(pattern: string, host: string) {
    var p := Trim(pattern);
    if p != "" && p[0] == '*' then DomainMatches(p, host)
    else p != "" && (host == p || EndsWith(host, "." + p))
  }

  predicate IsAccelerated(host: string, domains: set<string>) {
    exists d :: d in domains && AcceleratedBy(d, Lower(Trim(host)))
  }

  // ---------------------------------------------------------------- the DNS interceptor's matcher

  function StripStar(p: string): string {
    if "*." <= p then p[2..] else p
  }

  predicate InterceptedBy(pattern: string, host: string) {
    var base := StripStar(Lower(Trim(pattern)));
    base != "" && (host == base || EndsWith(host, "." + base))
  }

  /** Whether the interceptor answers a query for `name`. */
  predicate Intercepted(name: string, domains: set<string>) {
    exists d :: d in domains && InterceptedBy(d, Lower(name))
  }

  // ---------------------------------------------------------------- the PAC script

  /** `shExpMatch`: `*` stands for any text, `?` for one character. */
  predicate Glob(pattern: string, s: string)
    decreases |pattern| + |s|
  {
    if pattern == "" then s == ""
    else if pattern[0] == '*' then Glob(pattern[1..], s) || (s != "" && Glob(pattern, s[1..]))
    else s != "" && (pattern[0] == '?' || pattern[0] == s[0]) && Glob(pattern[1..], s[1..])
  }

  datatype Rule = Rule(base: string, star: string)

  function RuleOf(d: string): Rule {
    var base := if StripStar(d) != "" then StripStar(d) else d;
    Rule(base, if |base| == |d| then "*." + d else d)
  }

  function Rules(domains: seq<string>): seq<Rule> {
    if domains == [] then []
    else (if Trim(domains[0]) == "" then [] else [RuleOf(Trim(domains[0]))]) + Rules(domains[1..])
  }

  const PAC_START := "function FindProxyForURL(url, host){\n"
  const PAC_END := "    return 'DIRECT';\n}\n"

  function RuleLine(r: Rule): string {
    "    if (shExpMatch(host,'" + r.base + "') || shExpMatch(host,'" + r.star + "')) return pac;\n"
  }

  function RuleLines(rules: seq<Rule>): string {
    if rules == [] then "" else RuleLine(rules[0]) + RuleLines(rules[1..])
  }

  function PacHead(proxy: string): string {
    PAC_START + "    var pac = 'PROXY " + proxy + "';\n"
  }

  function PacText(proxy: string, rules: seq<Rule>): string {
    PacHead(proxy) + RuleLines(rules) + PAC_END
  }

  method CreatePac(proxy: string, domains: seq<string>) returns (script: string)
    ensures script == PacText(proxy, Rules(domains))
  {
    hide RuleLine, RuleOf, Trim, RuleLines, Rules;
    script := PacHead(proxy);
    for i := 0 to |domains|
      invariant script + RuleLines(Rules(domains[i..])) == PacHead(proxy) + RuleLines(Rules(domains))
    {
      assert domains[i..][0] == domains[i] && domains[i..][1..] == domains[i + 1..];
      var d := Trim(domains[i]);
      RuleLinesOfNext(domains[i..]);
      if d != "" {
        Associate(script, RuleLine(RuleOf(d)), RuleLines(Rules(domains[i + 1..])));
        script := script + RuleLine(RuleOf(d));
      }
    }
    NoRulesLeft(domains, script);
    script := script + PAC_END;
  }

  lemma NoRulesLeft(domains: seq<string>, script: string)
    ensures script + RuleLines(Rules(domains[|domains|..])) == script
  {}

  lemma RuleLinesOfNext(domains: seq<string>)
    requires domains != []
    ensures RuleLines(Rules(domains))
         == (if Trim(domains[0]) == "" then "" else RuleLine(RuleOf(Trim(domains[0])))) + RuleLines(Rules(domains[1..]))
  {
    hide RuleLine, RuleOf, Trim;
    var rest := Rules(domains[1..]);
    assert [] + rest == rest;
    if Trim(domains[0]) != "" {
      assert ([RuleOf(Trim(domains[0]))] + rest)[1..] == rest;
    }
  }

  /** Whether the script sends a request for `host` to the proxy. */
  /** The script: everything goes to the proxy that one of the rules covers, and the rest goes directly. */
  lemma ScriptIs(proxy: string, rule: Rule, more: seq<Rule>)
    ensures PacText(proxy, []) == "function FindProxyForURL(url, host){\n" + ("    var pac = 'PROXY " + proxy + "';\n")
                                  + "    return 'DIRECT';\n}\n"
    ensures RuleLines([rule] + more) == "    if (shExpMatch(host,'" + rule.base + "') || shExpMatch(host,'" + rule.star
                                        + "')) return pac;\n" + RuleLines(more)
    ensures PacText(proxy, more) == PacHead(proxy) + RuleLines(more) + PAC_END
  {
    assert ([rule] + more)[1..] == more;
    assert PacHead(proxy) + "" == PacHead(proxy);
  }

  /** In a shell pattern `?` stands for one character, `*` for any number of them, and any other for itself. */
  lemma PatternCharacters(c: char, pattern: string, s: string)
    ensures Glob("", s) <==> s == ""
    ensures Glob("?" + pattern, s) <==> s != "" && Glob(pattern, s[1..])
    ensures c !in {'?', '*'} ==> (Glob([c] + pattern, s) <==> s != "" && s[0] == c && Glob(pattern, s[1..]))
    ensures Glob("*" + pattern, s) <==> exists k :: 0 <= k <= |s| && Glob(pattern, s[k..])
  {
    assert ("?" + pattern)[1..] == pattern && ([c] + pattern)[1..] == pattern;
    StarAnywhere(pattern, s);
  }

  lemma {:induction false} StarAnywhere(pattern: string, s: string)
    ensures Glob("*" + pattern, s) <==> exists k :: 0 <= k <= |s| && Glob(pattern, s[k..])
    decreases |s|
  {
    assert ("*" + pattern)[1..] == pattern && s[0..] == s;
    if s != "" {
      StarAnywhere(pattern, s[1..]);
      if k :| 0 <= k <= |s| && Glob(pattern, s[k..]) {
        if k > 0 { assert s[1..][k - 1..] == s[k..]; }
      }
      if k :| 0 <= k <= |s[1..]| && Glob(pattern, s[1..][k..]) {
        assert s[1..][k..] == s[k + 1..];
      }
    }
  }

  predicate PacRouted(host: string, rules: seq<Rule>) {
    exists r :: r in rules && (Glob(r.base, host) || Glob(r.star, host))
  }

  // ---------------------------------------------------------------- comparing them

  /** A lowercase host name without glob characters, white space around it, or a leading dot. */
  predicate Bare(p: string) {
    p != "" && Trim(p) == p && Lower(p) == p && p[0] != '.' && '*' !in p && '?' !in p
  }

  predicate Starred(p: string) {
    "*." <= p && Bare(p[2..])
  }

  predicate WellFormed(p: string) {
    Bare(p) || Starred(p)
  }

  predicate HostName(h: string) {
    h != "" && Trim(h) == h && Lower(h) == h
  }

  lemma {:induction false} GlobOfPlain(p: string, s: string)
    requires '*' !in p && '?' !in p
    ensures Glob(p, s) <==> p == s
  {
    if p != "" && s != "" {
      GlobOfPlain(p[1..], s[1..]);
      assert p == [p[0]] + p[1..] && s == [s[0]] + s[1..];
    }
  }

  lemma {:induction false} GlobOfStar(p: string, s: string)
    requires '*' !in p && '?' !in p
    ensures Glob("*" + p, s) <==> EndsWith(s, p)
    decreases |s|
  {
    assert ("*" + p)[1..] == p;
    GlobOfPlain(p, s);
    if s != "" {
      GlobOfStar(p, s[1..]);
      if |p| <= |s[1..]| {
        assert s[1..][|s[1..]| - |p|..] == s[|s| - |p|..];
      } else if |p| == |s| {
        assert s[|s| - |p|..] == s;
      }
    }
  }

  /** The name a well-formed pattern is about. */
  function Base(p: string): string {
    StripStar(p)
  }

  lemma BaseIsBare(p: string)
    requires WellFormed(p)
    ensures Bare(Base(p)) && (Starred(p) <==> p == "*." + Base(p)) && (Bare(p) ==> Base(p) == p)
    ensures Bare(p) <==> !Starred(p)
  {
    assert Bare(p) ==> p[0] in p;
  }

  lemma LowerOfStarred(p: string)
    requires WellFormed(p)
    ensures Trim(p) == p && Lower(p) == p
  {
    if !Bare(p) {
      var b := p[2..];
      assert Lower(b) == b;
      assert forall i :: 0 <= i < |p| ==> LowerChar(p[i]) == p[i] by {
        forall i | 2 <= i < |p| ensures LowerChar(p[i]) == p[i] {
          assert Lower(b)[i - 2] == b[i - 2] == p[i];
        }
      }
      TrimFacts(b);
      assert Trimmed(p) by { assert p[|p| - 1] == b[|b| - 1]; }
      TrimFixed(p);
    }
  }

  predicate Covers(base: string, h: string) {
    h == base || EndsWith(h, "." + base)
  }

  lemma InterceptedByIs(p: string, h: string)
    requires WellFormed(p)
    ensures InterceptedBy(p, h) <==> Covers(Base(p), h)
  {
    LowerOfStarred(p);
    BaseIsBare(p);
  }

  lemma RuleCovers(p: string, h: string)
    requires WellFormed(p)
    ensures Glob(RuleOf(p).base, h) || Glob(RuleOf(p).star, h) <==> Covers(Base(p), h)
  {
    BaseIsBare(p);
    var b := Base(p);
    assert RuleOf(p) == Rule(b, "*." + b);
    GlobOfPlain(b, h);
    assert '*' !in "." + b && '?' !in "." + b;
    GlobOfStar("." + b, h);
    assert "*" + ("." + b) == "*." + b;
  }

  lemma AcceleratedByIs(p: string, h: string)
    requires WellFormed(p) && HostName(h)
    ensures AcceleratedBy(p, h) <==> if Starred(p) then EndsWith(h, Base(p)) else Covers(Base(p), h)
  {
    hide Trim, Lower, Bare, TrimDots;
    LowerOfStarred(p);
    HostIsLower(h);
    BaseIsBare(p);
    if Starred(p) {
      StarredSuffix(p);
      if p == h {
        assert h[|h| - |Base(p)|..] == Base(p);
      }
    } else {
      BareStart(p);
    }
  }

  lemma StarredSuffix(p: string)
    requires Starred(p)
    ensures p != "" && p[0] == '*' && TrimDots(p[1..]) == Base(p)
  {
    assert p[1..] == "." + Base(p) && (p[1..])[1..] == Base(p);
  }

  lemma BareStart(p: string)
    requires Bare(p)
    ensures p != "" && p[0] != '*'
  {
    assert p[0] in p;
  }

  lemma {:induction false} RulesOfAll(domains: seq<string>)
    requires forall d :: d in domains ==> WellFormed(d)
    ensures forall r :: r in Rules(domains) <==> exists d :: d in domains && r == RuleOf(d)
  {
    hide WellFormed, RuleOf, Trim;
    if domains != [] {
      var d := domains[0];
      assert domains == [d] + domains[1..];
      RulesOfAll(domains[1..]);
      WellFormedIsNotBlank(d);
    }
  }

  lemma WellFormedIsNotBlank(d: string)
    requires WellFormed(d)
    ensures Trim(d) == d && d != ""
  {
    LowerOfStarred(d);
  }

  lemma CoversImpliesEnding(base: string, h: string)
    requires Covers(base, h)
    ensures EndsWith(h, base)
  {
    if h != base {
      assert h[|h| - |base|..] == h[|h| - |base| - 1..][1..] == base;
    }
  }

  /** For well-formed patterns the script routes exactly the hosts whose queries the interceptor answers. */
  lemma RoutedIffIntercepted(domains: seq<string>, h: string)
    requires forall d :: d in domains ==> WellFormed(d)
    requires HostName(h)
    ensures PacRouted(h, Rules(domains)) <==> Intercepted(h, Members(domains))
  {
    hide WellFormed, HostName, RuleOf, Covers, Glob, InterceptedBy;
    RulesOfAll(domains);
    assert Lower(h) == h by { HostIsLower(h); }
    forall d | d in domains
      ensures (Glob(RuleOf(d).base, h) || Glob(RuleOf(d).star, h)) <==> InterceptedBy(d, h)
      ensures RuleOf(d) in Rules(domains)
    {
      RuleCovers(d, h);
      InterceptedByIs(d, h);
    }
    if PacRouted(h, Rules(domains)) {
      var r :| r in Rules(domains) && (Glob(r.base, h) || Glob(r.star, h));
      var d :| d in domains && r == RuleOf(d);
      assert InterceptedBy(d, Lower(h));
    }
  }

  lemma HostIsLower(h: string)
    requires HostName(h)
    ensures h != "" && Trim(h) == h && Lower(h) == h && Lower(Trim(h)) == h
  {}

  /** A `*.` pattern whose name ends the host in the middle of a label. */
  predicate EndsInsideLabel(p: string, h: string) {
    Starred(p) && |Base(p)| < |h| && EndsWith(h, Base(p)) && h[|h| - |Base(p)| - 1] != '.'
  }

  lemma AcceleratedByOne(p: string, h: string)
    requires WellFormed(p) && HostName(h)
    ensures AcceleratedBy(p, h) <==> InterceptedBy(p, h) || EndsInsideLabel(p, h)
  {
    hide WellFormed, HostName, AcceleratedBy, InterceptedBy, Covers, Base;
    HostIsLower(h);
    AcceleratedByIs(p, h);
    InterceptedByIs(p, h);
    EndingCases(Base(p), h);
  }

  /** A host that ends with a name is covered by it, or has it end inside a label. */
  lemma EndingCases(b: string, h: string)
    requires h != ""
    ensures Covers(b, h) ==> EndsWith(h, b)
    ensures EndsWith(h, b) && !Covers(b, h) ==> |b| < |h| && h[|h| - |b| - 1] != '.'
    ensures Covers(b, h) && |b| < |h| ==> h[|h| - |b| - 1] == '.'
  {
    if Covers(b, h) {
      CoversImpliesEnding(b, h);
    }
    if EndsWith(h, b) && |b| < |h| {
      assert h[|h| - |b| - 1..] == [h[|h| - |b| - 1]] + h[|h| - |b|..];
    } else if EndsWith(h, b) {
      assert h[0..] == h;
    }
  }

  /**
   The proxy treats a host as accelerated exactly when the interceptor would answer for it, or a `*.`
   pattern ends it inside a label.
   */
  lemma AcceleratedIffInterceptedOrInsideLabel(domains: set<string>, h: string)
    requires forall d :: d in domains ==> WellFormed(d)
    requires HostName(h)
    ensures IsAccelerated(h, domains) <==> Intercepted(h, domains) || exists d :: d in domains && EndsInsideLabel(d, h)
  {
    hide WellFormed, HostName, AcceleratedBy, InterceptedBy, EndsInsideLabel;
    HostIsLower(h);
    forall d | d in domains
      ensures AcceleratedBy(d, h) <==> InterceptedBy(d, h) || EndsInsideLabel(d, h)
    {
      AcceleratedByOne(d, h);
    }
    if IsAccelerated(h, domains) {
      var d :| d in domains && AcceleratedBy(d, Lower(Trim(h)));
    }
    if Intercepted(h, domains) {
      var d :| d in domains && InterceptedBy(d, Lower(h));
      assert AcceleratedBy(d, Lower(Trim(h)));
    } else if exists d :: d in domains && EndsInsideLabel(d, h) {
      var d :| d in domains && EndsInsideLabel(d, h);
      assert AcceleratedBy(d, Lower(Trim(h)));
    }
  }

  /** With bare patterns only, all three agree. */
  lemma BarePatternsAgree(domains: seq<string>, h: string)
    requires forall d :: d in domains ==> Bare(d)
    requires HostName(h)
    ensures PacRouted(h, Rules(domains)) <==> Intercepted(h, Members(domains))
    ensures IsAccelerated(h, Members(domains)) <==> Intercepted(h, Members(domains))
  {
    hide Bare, HostName, PacRouted, Intercepted, IsAccelerated, EndsInsideLabel;
    forall d | d in domains ensures WellFormed(d) && !EndsInsideLabel(d, h) {
      BareIsNotStarred(d, h);
    }
    RoutedIffIntercepted(domains, h);
    AcceleratedIffInterceptedOrInsideLabel(Members(domains), h);
  }

  lemma BareIsNotStarred(d: string, h: string)
    requires Bare(d)
    ensures WellFormed(d) && !EndsInsideLabel(d, h)
  {
    BaseIsBare(d);
  }

  /** The case in which they differ. */
  lemma StarReachesInsideLabel()
    ensures IsAccelerated("ax.com", {"*.x.com"}) && !Intercepted("ax.com", {"*.x.com"})
  {
    hide Lower, Trim, InterceptedBy, AcceleratedBy, Covers, WellFormed, HostName, EndsInsideLabel;
    var p, h := "*.x.com", "ax.com";
    StarExample();
    HostIsLower(h);
    AcceleratedIffInterceptedOrInsideLabel({p}, h);
    InterceptedByIs(p, h);
    assert EndsInsideLabel(p, h);
  }

  lemma StarExample()
    ensures WellFormed("*.x.com") && HostName("ax.com")
    ensures EndsInsideLabel("*.x.com", "ax.com") && !Covers(Base("*.x.com"), "ax.com")
  {
    var b, h := "x.com", "ax.com";
    assert "*.x.com"[2..] == b;
    assert Lower(b) == b && Lower(h) == h;
    TrimFixed(b);
    TrimFixed(h);
    assert h[1..] == b;
    assert h[0] == 'a' && h[0..] == h;
  }

  // ---------------------------------------------------------------- the readings in plain terms

  lemma EndsWithIff(s: string, suffix: string)
    ensures EndsWith(s, suffix) <==> exists p: string :: s == p + suffix
  {
    if EndsWith(s, suffix) {
      assert s == s[..|s| - |suffix|] + suffix;
    }
    if p: string :| s == p + suffix {
      assert (p + suffix)[|p + suffix| - |suffix|..] == suffix;
    }
  }

  /** The name is the pattern's, or one of its sub-domains. */
  ghost predicate Within(h: string, base: string) {
    h == base || exists p: string :: h == p + ("." + base)
  }

  lemma WithinIff(h: string, base: string)
    ensures Within(h, base) <==> h == base || EndsWith(h, "." + base)
  {
    EndsWithIff(h, "." + base);
  }

  /** Interception: case and surrounding blanks of a pattern do not count, a leading `*.` adds nothing. */
  lemma InterceptedIff(name: string, domains: set<string>)
    ensures Intercepted(name, domains) <==>
              exists d :: d in domains &&
                var q := Lower(Trim(d));
                var base := if "*." <= q then q[2..] else q;
                base != "" && Within(Lower(name), base)
  {
    hide Lower, Trim, Within;
    forall d | d in domains
      ensures InterceptedBy(d, Lower(name)) <==>
                var q := Lower(Trim(d));
                var base := if "*." <= q then q[2..] else q;
                base != "" && Within(Lower(name), base)
    {
      WithinIff(Lower(name), StripStar(Lower(Trim(d))));
    }
  }

  lemma MatchesUnfolded(pattern: string, host: string)
    ensures var q, h := Lower(Trim(pattern)), Lower(Trim(host));
            DomainMatches(pattern, host)
            <==> q != "" && h != "" && (q == h || (q[0] == '*' && EndsWith(h, TrimDots(q[1..]))))
  {}

  /** A table pattern is the host itself, or a star and the end of the host; case, blanks and dots behind the star do not count. */
  lemma DomainMatchesIff(pattern: string, host: string)
    ensures var q, h := Lower(Trim(pattern)), Lower(Trim(host));
            DomainMatches(pattern, host)
            <==> q != "" && h != "" && (q == h || (q[0] == '*' && exists p: string :: h == p + TrimDots(q[1..])))
  {
    MatchesUnfolded(pattern, host);
    hide DomainMatches, Lower, Trim, TrimDots;
    var q, h := Lower(Trim(pattern)), Lower(Trim(host));
    if q != "" { EndsWithIff(h, TrimDots(q[1..])); }
  }

  lemma {:induction false} DotsAreTrimmed(s: string)
    ensures TrimDots("." + s) == TrimDots(s) && (s != "" && s[0] != '.' ==> TrimDots(s) == s) && TrimDots("") == ""
  {
    assert ("." + s)[1..] == s;
  }

  /** Acceleration: a star pattern as in a table, any other the host or the end of a sub-domain, as it is written. */
  lemma AcceleratedIff(host: string, domains: set<string>)
    ensures IsAccelerated(host, domains) <==>
              exists d :: d in domains && Trim(d) != "" &&
                if Trim(d)[0] == '*' then DomainMatches(Trim(d), Lower(Trim(host))) else Within(Lower(Trim(host)), Trim(d))
  {
    hide Lower, Trim, DomainMatches, Within;
    forall d | d in domains
      ensures AcceleratedBy(d, Lower(Trim(host))) <==>
                Trim(d) != "" &&
                if Trim(d)[0] == '*' then DomainMatches(Trim(d), Lower(Trim(host))) else Within(Lower(Trim(host)), Trim(d))
    {
      WithinIff(Lower(Trim(host)), Trim(d));
    }
  }

  // ---------------------------------------------------------------- the substitute name

  /** One entry of the forwarding table. */
  datatype Entry = Entry(pattern: string, alias: string)

  predicate Exact(pattern: string) {
    !("*" <= pattern)
  }

  /** An exact key beats a wildcard, a longer one beats a shorter one of its kind. */
  predicate Beats(a: string, b: string) {
    (Exact(a) && !Exact(b)) || (Exact(a) == Exact(b) && |a| > |b|)
  }

  /** The best entry for the host in table order, the first of those that tie. */
  function Best(table: seq<Entry>, host: string): Option<Entry> {
    if table == [] then None
    else
      var best, last := Best(table[..|table| - 1], host), table[|table| - 1];
      if DomainMatches(last.pattern, host) && (best == None || Beats(last.pattern, best.value.pattern)) then Some(last) else best
  }

  /** The name of the best entry. */
  function Choice(table: seq<Entry>, host: string): Option<string> {
    if Best(table, host).Some? then Some(Best(table, host).value.alias) else None
  }

  method ForwardFor(table: seq<Entry>, host: string) returns (alias: Option<string>)
    ensures alias == Choice(table, host)
  {
    hide DomainMatches, Beats;
    var best: Option<Entry> := None;
    for i := 0 to |table|
      invariant best == Best(table[..i], host)
    {
      assert table[..i + 1][..i] == table[..i];
      if !DomainMatches(table[i].pattern, host) {
        continue;
      }
      if best == None || Beats(table[i].pattern, best.value.pattern) {
        best := Some(table[i]);
      }
    }
    assert table[..|table|] == table;
    alias := if best.Some? then Some(best.value.alias) else None;
  }

  /** The chosen entry matches and none that matches beats it; there is one as soon as any matches. */
  lemma {:induction false} BestIsUnbeaten(table: seq<Entry>, host: string, e: Entry)
    ensures Best(table, host).Some? ==> Best(table, host).value in table && DomainMatches(Best(table, host).value.pattern, host)
    ensures e in table && DomainMatches(e.pattern, host) ==> Best(table, host).Some? && !Beats(e.pattern, Best(table, host).value.pattern)
  {
    hide DomainMatches;
    if table != [] {
      var before := table[..|table| - 1];
      assert table == before + [table[|table| - 1]];
      BestIsUnbeaten(before, host, e);
      if Best(before, host).Some? {
        BestIsUnbeaten(before, host, Best(before, host).value);
      }
    }
  }

  lemma SameScoreSamePattern(a: string, b: string, h: string)
    requires WellFormed(a) && WellFormed(b) && HostName(h)
    requires DomainMatches(a, h) && DomainMatches(b, h) && !Beats(a, b) && !Beats(b, a)
    ensures a == b
  {
    LowerOfStarred(a);
    LowerOfStarred(b);
    BaseIsBare(a);
    BaseIsBare(b);
    HostIsLower(h);
    assert Exact(a) == Exact(b) && |a| == |b|;
    StarredMatches(a, h);
    StarredMatches(b, h);
  }

  lemma StarredMatches(p: string, h: string)
    requires WellFormed(p) && HostName(h) && DomainMatches(p, h)
    ensures Exact(p) <==> Bare(p)
    ensures if Bare(p) then p == h else p == "*." + Base(p) && EndsWith(h, Base(p))
  {
    LowerOfStarred(p);
    BaseIsBare(p);
    HostIsLower(h);
    if Starred(p) {
      AcceleratedByIs(p, h);
    } else {
      assert p[0] in p;
    }
  }

  /** An entry that matches and that no matching entry of the table beats. */
  predicate Leads(table: seq<Entry>, host: string, e: Entry) {
    e in table && DomainMatches(e.pattern, host)
    && forall x :: x in table && DomainMatches(x.pattern, host) ==> !Beats(x.pattern, e.pattern)
  }

  /** Two entries lead. */
  predicate Tie(table: seq<Entry>, host: string) {
    exists a, b :: a in table && b in table && a != b && Leads(table, host, a) && Leads(table, host, b)
  }

  /** Two entries with different names lead. */
  predicate TieOfNames(table: seq<Entry>, host: string) {
    exists a, b :: a in table && b in table && a.alias != b.alias && Leads(table, host, a) && Leads(table, host, b)
  }

  lemma BestLeads(table: seq<Entry>, host: string)
    ensures Best(table, host).Some? ==> Leads(table, host, Best(table, host).value)
    ensures Best(table, host) == None ==> forall e :: e in table ==> !DomainMatches(e.pattern, host)
  {
    hide Best, DomainMatches, Beats;
    forall e | e in table && DomainMatches(e.pattern, host)
      ensures Best(table, host).Some? && !Beats(e.pattern, Best(table, host).value.pattern)
    {
      BestIsUnbeaten(table, host, e);
    }
    if Best(table, host).Some? {
      BestIsUnbeaten(table, host, Best(table, host).value);
    }
  }

  /** A leading entry wins if it comes first. */
  lemma {:induction false} FirstLeaderWins(e: Entry, rest: seq<Entry>, host: string)
    requires Leads([e] + rest, host, e)
    ensures Best([e] + rest, host) == Some(e)
    decreases |rest|
  {
    hide DomainMatches, Beats;
    if rest == [] {
      assert [e] + rest == [e] && [e][..0] == [];
    } else {
      var before, last := rest[..|rest| - 1], rest[|rest| - 1];
      assert ([e] + rest)[..|rest|] == [e] + before && ([e] + rest)[|rest|] == last;
      assert last in [e] + rest;
      assert forall x :: x in [e] + before ==> x in [e] + rest;
      FirstLeaderWins(e, before, host);
    }
  }

  function MovedUp(table: seq<Entry>, i: nat): seq<Entry>
    requires i < |table|
  {
    [table[i]] + (table[..i] + table[i + 1..])
  }

  lemma MovedUpIsReorder(table: seq<Entry>, i: nat)
    requires i < |table|
    ensures multiset(MovedUp(table, i)) == multiset(table)
  {
    assert table == table[..i] + [table[i]] + table[i + 1..];
  }

  lemma ReorderKeepsLeaders(table: seq<Entry>, other: seq<Entry>, host: string, e: Entry)
    requires multiset(table) == multiset(other)
    ensures Leads(table, host, e) <==> Leads(other, host, e)
  {
    hide DomainMatches, Beats;
    forall x ensures x in table <==> x in other {
      assert x in table <==> x in multiset(table);
      assert x in other <==> x in multiset(other);
    }
  }

  /** Every leading entry is the choice for some order of the table. */
  lemma LeaderWinsSomewhere(table: seq<Entry>, host: string, e: Entry) returns (other: seq<Entry>)
    requires Leads(table, host, e)
    ensures multiset(other) == multiset(table) && Best(other, host) == Some(e)
  {
    hide Leads, Best;
    assert e in table by { LeaderIsIn(table, host, e); }
    var i :| 0 <= i < |table| && table[i] == e;
    other := MovedUp(table, i);
    MovedUpIsReorder(table, i);
    ReorderKeepsLeaders(table, other, host, e);
    FirstLeaderWins(e, table[..i] + table[i + 1..], host);
  }

  lemma LeaderIsIn(table: seq<Entry>, host: string, e: Entry)
    requires Leads(table, host, e)
    ensures e in table
  {}

  ghost predicate SameEntryInAnyOrder(table: seq<Entry>, host: string) {
    forall other: seq<Entry> :: multiset(other) == multiset(table) ==> Best(other, host) == Best(table, host)
  }

  ghost predicate SameNameInAnyOrder(table: seq<Entry>, host: string) {
    forall other: seq<Entry> :: multiset(other) == multiset(table) ==> Choice(other, host) == Choice(table, host)
  }

  lemma SameLeaders(table: seq<Entry>, other: seq<Entry>, host: string)
    requires multiset(other) == multiset(table)
    ensures Best(table, host).Some? <==> Best(other, host).Some?
    ensures Best(other, host).Some? ==> Leads(table, host, Best(other, host).value) && Best(other, host).value in table
    ensures Best(table, host).Some? ==> Leads(table, host, Best(table, host).value) && Best(table, host).value in table
  {
    hide Best, Beats, DomainMatches;
    BestLeads(table, host);
    BestLeads(other, host);
    if Best(other, host).Some? { ReorderKeepsLeaders(table, other, host, Best(other, host).value); }
    if Best(table, host).Some? { ReorderKeepsLeaders(table, other, host, Best(table, host).value); }
  }

  /** The chosen entry is the same for every order of the table exactly when no two entries lead. */
  lemma OrderFreeIffNoTie(table: seq<Entry>, host: string)
    ensures SameEntryInAnyOrder(table, host) <==> !Tie(table, host)
  {
    hide Best, Leads;
    if Tie(table, host) {
      var a, b :| a in table && b in table && a != b && Leads(table, host, a) && Leads(table, host, b);
      var first := LeaderWinsSomewhere(table, host, a);
      var second := LeaderWinsSomewhere(table, host, b);
    } else {
      forall other: seq<Entry> | multiset(other) == multiset(table) ensures Best(other, host) == Best(table, host) {
        SameLeaders(table, other, host);
      }
    }
  }

  /** The name handed out is the same for every order exactly when no two entries with different names lead. */
  lemma NameIsOrderFreeIffNoTie(table: seq<Entry>, host: string)
    ensures SameNameInAnyOrder(table, host) <==> !TieOfNames(table, host)
  {
    hide Best, Leads;
    if TieOfNames(table, host) {
      var a, b :| a in table && b in table && a.alias != b.alias && Leads(table, host, a) && Leads(table, host, b);
      var first := LeaderWinsSomewhere(table, host, a);
      var second := LeaderWinsSomewhere(table, host, b);
      assert Choice(first, host) == Some(a.alias) && Choice(second, host) == Some(b.alias);
    } else {
      forall other: seq<Entry> | multiset(other) == multiset(table) ensures Choice(other, host) == Choice(table, host) {
        SameLeaders(table, other, host);
      }
    }
  }

  /** Well-formed keys, each in the table once, never tie. */
  lemma WellFormedKeysDoNotTie(table: seq<Entry>, h: string)
    requires forall e :: e in table ==> WellFormed(e.pattern)
    requires forall a, b :: a in table && b in table && a.pattern == b.pattern ==> a == b
    requires HostName(h)
    ensures !Tie(table, h) && SameEntryInAnyOrder(table, h)
  {
    hide WellFormed, HostName, DomainMatches, Beats, Best;
    if Tie(table, h) {
      var a, b :| a in table && b in table && a != b && Leads(table, h, a) && Leads(table, h, b);
      SameScoreSamePattern(a.pattern, b.pattern, h);
    }
    OrderFreeIffNoTie(table, h);
  }

  /** Two wildcards of one length may tie, and then the order decides. */
  lemma TieDependsOnOrder()
    ensures var a, b := Entry("*.x.com", "one"), Entry("*ax.com", "two");
            TieOfNames([a, b], "ax.com") && Choice([a, b], "ax.com") == Some("one") && Choice([b, a], "ax.com") == Some("two")
  {
    var a, b, h := Entry("*.x.com", "one"), Entry("*ax.com", "two"), "ax.com";
    TieMatches();
    hide DomainMatches;
    assert [a, b][..1] == [a] && [b, a][..1] == [b] && [a][..0] == [] && [b][..0] == [];
    assert Best([a], h) == Some(a) && Best([b], h) == Some(b);
    assert "one"[0] != "two"[0];
    assert Leads([a, b], h, a) && Leads([a, b], h, b);
  }

  lemma TieMatches()
    ensures DomainMatches("*.x.com", "ax.com") && DomainMatches("*ax.com", "ax.com")
  {
    var a, b, h := "*.x.com", "*ax.com", "ax.com";
    TrimFixed(a);
    TrimFixed(b);
    TrimFixed(h);
    assert Lower(a) == a && Lower(b) == b && Lower(h) == h;
    assert a[1..] == ".x.com" && ".x.com"[1..] == "x.com" && TrimDots("x.com") == "x.com";
    assert TrimDots(a[1..]) == "x.com";
    assert b[1..] == h && TrimDots(h) == h;
    assert h[1..] == "x.com" && h[0..] == h;
  }
}
