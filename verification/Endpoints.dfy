/**
 Which endpoints a request is offered, under which name and in which order, for the dial run and for the race,
 told from the configuration and the DNS answers alone.
 */
module Endpoints {
  import opened Sequences
  import opened Text
  import opened Http1
  import opened UpstreamFallback
  import opened FallbackLaws
  import opened FallbackMeaning
  import opened HedgedRace

  /** The first `x` comes before the first `y`. */
  ghost predicate FirstBefore<T(!new)>(s: seq<T>, x: T, y: T) {
    exists j :: 0 <= j < |s| && s[j] == y && y !in s[..j] && x in s[..j]
  }

  lemma FirstBeforeTail<T(!new)>(s: seq<T>, x: T, y: T)
    requires FirstBefore(s, x, y)
    ensures s != [] && s[0] != y && y in s[1..] && (s[0] == x || FirstBefore(s[1..], x, y))
  {
    var j :| 0 <= j < |s| && s[j] == y && y !in s[..j] && x in s[..j];
    assert s[..j][0] == s[0] && s[1..][j - 1] == s[j];
    assert s[..j] == [s[0]] + s[1..][..j - 1];
  }

  // ---------------------------------------------------------------- addresses

  lemma {:induction false} NewIpsOrder(known: seq<Ip>, ips: seq<Ip>, x: Ip, y: Ip)
    requires FirstBefore(ips, x, y) && x !in known && y !in known && x != y
    ensures Before(NewIps(known, ips), x, y)
    decreases |ips|
  {
    FirstBeforeTail(ips, x, y);
    hide FirstBefore, Before;
    if ips[0] in known {
      NewIpsOrder(known, ips[1..], x, y);
    } else if ips[0] == x {
      NewIpsFacts(known + [x], ips[1..]);
      BeforeAcross([x], NewIps(known + [x], ips[1..]), x, y);
    } else {
      NewIpsOrder(known + [ips[0]], ips[1..], x, y);
      BeforeWithin([ips[0]], NewIps(known + [ips[0]], ips[1..]), x, y);
    }
  }

  lemma {:induction false} WithoutMembers(ips: seq<Ip>, ip: Ip)
    ensures forall x :: x in Without(ips, ip) <==> x in ips && x != ip
  {
    if ips != [] {
      assert ips == [ips[0]] + ips[1..];
      WithoutMembers(ips[1..], ip);
    }
  }

  lemma {:induction false} WithoutOrder(ips: seq<Ip>, ip: Ip, x: Ip, y: Ip)
    requires Before(ips, x, y) && x != ip && y != ip
    ensures Before(Without(ips, ip), x, y)
  {
    var i, j :| 0 <= i < j < |ips| && ips[i] == x && ips[j] == y;
    if i == 0 {
      assert ips[1..][j - 1] == y;
      WithoutMembers(ips[1..], ip);
      BeforeAcross([x], Without(ips[1..], ip), x, y);
    } else {
      assert ips[1..][i - 1] == x && ips[1..][j - 1] == y;
      WithoutOrder(ips[1..], ip, x, y);
      BeforeWithin(if ips[0] == ip then [] else [ips[0]], Without(ips[1..], ip), x, y);
    }
  }

  /** Hosts that have published edges. */
  ghost predicate OnGithub(host: string) {
    host == "github.com" || exists p :: host == p + ".github.com"
  }

  lemma GithubIff(host: string, ip: Ip)
    ensures ip in GithubFallback(host) <==> OnGithub(host) && ip in GITHUB_WEB_FALLBACK_IPS
  {
    var suffix := ".github.com";
    if EndsWith(host, suffix) {
      assert host == host[..|host| - |suffix|] + suffix;
    }
    if p :| host == p + suffix {
      assert (p + suffix)[|p + suffix| - |suffix|..] == suffix;
    }
  }

  predicate Authenticated(headers: seq<Header>) {
    exists h :: h in headers && SessionCookie(h)
  }

  /** The address is configured, resolved, or the last one that worked. */
  predicate Offered(s: Setup, ips: seq<Ip>, ip: Ip) {
    ip in s.preferred || ip in ips || (s.accelerated && s.lastGood == Some(ip))
  }

  /** Published edges are added for authenticated requests, which are not raced. */
  ghost predicate Edge(s: Setup, headers: seq<Header>, ip: Ip) {
    s.accelerated && Authenticated(headers) && OnGithub(s.host) && ip in GITHUB_WEB_FALLBACK_IPS
  }

  /**
   The first endpoints: behind a second proxy one placeholder; else the last good address first, the configured
   ones before the resolved ones, each in its order, and the published edges at the end.
   */
  lemma FirstEndpoints(s: Setup, headers: seq<Header>, ips: seq<Ip>, x: Ip, y: Ip)
    ensures var addrs := FirstAddresses(s, headers, ips);
            && (s.agentOn ==> addrs == [V4(0, 0, 0, 0)])
            && (!s.agentOn ==> (x in addrs <==> Offered(s, ips, x) || Edge(s, headers, x)))
            && (!s.agentOn && s.accelerated && s.lastGood.Some? ==> addrs != [] && addrs[0] == s.lastGood.value)
            && (!s.agentOn && x != y && FirstBefore(s.preferred + ips, x, y) && (s.accelerated ==> s.lastGood != Some(y))
                ==> Before(addrs, x, y))
            && (!s.agentOn && Offered(s, ips, x) && Edge(s, headers, y) && !Offered(s, ips, y) ==> Before(addrs, x, y))
  {
    hide NewIps, Without, GithubFallback, Stateful, SessionCookie, OnGithub, FirstBefore, Before;
    if !s.agentOn {
      StatefulIff(headers);
      GithubIff(s.host, x);
      GithubIff(s.host, y);
      var offered := NewIps([], s.preferred + ips);
      NewIpsFacts([], s.preferred + ips);
      var ordered := if s.accelerated && s.lastGood.Some? then [s.lastGood.value] + Without(offered, s.lastGood.value) else offered;
      OrderedFirst(s, ips, x, y);
      var edges := NewIps(ordered, GithubFallback(s.host));
      NewIpsFacts(ordered, GithubFallback(s.host));
      assert Offered(s, ips, x) <==> x in ordered;
      assert Offered(s, ips, y) <==> y in ordered;
      if x in ordered && y in edges { BeforeAcross(ordered, edges, x, y); }
      if Before(ordered, x, y) { BeforeWithin(ordered, edges, x, y); }
    }
  }

  lemma OrderedFirst(s: Setup, ips: seq<Ip>, x: Ip, y: Ip)
    ensures var offered := NewIps([], s.preferred + ips);
            var ordered := if s.accelerated && s.lastGood.Some? then [s.lastGood.value] + Without(offered, s.lastGood.value) else offered;
            && (x in ordered <==> Offered(s, ips, x)) && (y in ordered <==> Offered(s, ips, y))
            && (x != y && FirstBefore(s.preferred + ips, x, y) && (s.accelerated ==> s.lastGood != Some(y)) ==> Before(ordered, x, y))
  {
    hide NewIps, Without, Before;
    var all := s.preferred + ips;
    var offered := NewIps([], all);
    NewIpsFacts([], all);
    if x != y && FirstBefore(all, x, y) { NewIpsOrder([], all, x, y); }
    if s.accelerated && s.lastGood.Some? {
      var good := s.lastGood.value;
      WithoutMembers(offered, good);
      if x != y && FirstBefore(all, x, y) && good != y {
        if x == good {
          FirstBeforeMember(all, x, y);
          BeforeAcross([good], Without(offered, good), x, y);
        } else {
          WithoutOrder(offered, good, x, y);
          BeforeWithin([good], Without(offered, good), x, y);
        }
      }
    }
  }

  lemma FirstBeforeMember<T(!new)>(s: seq<T>, x: T, y: T)
    requires FirstBefore(s, x, y)
    ensures y in s
  {}

  // ---------------------------------------------------------------- names

  /** Shown to the upstream: the configured substitute name or the host, and the name that is dialled. */
  predicate ShownName(s: Setup, name: string) {
    name == (if s.fakeName.Some? then s.fakeName.value else s.host) || name == s.connectHost
  }

  /** How an address may be dialled: under one of the names, or without a name for an accelerated host that has no substitute. */
  predicate Shown(s: Setup, sni: Option<string>) {
    if sni == None then s.accelerated && s.fakeName == None && s.noSniConnector else ShownName(s, sni.value)
  }

  /** No name first, then the host's own, then the one that is dialled. */
  predicate ShownBefore(s: Setup, a: Option<string>, b: Option<string>) {
    Shown(s, a) && Shown(s, b) && a != b
    && (a == None || (b != None && b.value != (if s.fakeName.Some? then s.fakeName.value else s.host)))
  }

  lemma NamesAre(s: Setup, name: string)
    ensures name in SniCandidates(s) <==> ShownName(s, name)
    ensures SniCandidates(s)[0] == if s.fakeName.Some? then s.fakeName.value else s.host
    ensures |SniCandidates(s)| == 2 ==> SniCandidates(s)[1] == s.connectHost
    ensures 1 <= |SniCandidates(s)| <= 2
  {}

  // ---------------------------------------------------------------- the plan, stage by stage

  lemma {:induction false} WithSniAt(sni: Option<string>, ips: seq<Ip>)
    ensures |WithSni(sni, ips)| == |ips|
    ensures forall i :: 0 <= i < |ips| ==> WithSni(sni, ips)[i] == Dial(sni, ips[i])
    ensures forall d :: d in WithSni(sni, ips) <==> d.sni == sni && d.ip in ips
  {
    if ips != [] {
      WithSniAt(sni, ips[1..]);
    }
  }

  lemma BySniIs(s: Setup, ips: seq<Ip>)
    ensures var names := SniCandidates(s);
            BySni(names, ips) == if |names| == 1 then WithSni(Some(names[0]), ips)
                                 else WithSni(Some(names[0]), ips) + WithSni(Some(names[1]), ips)
  {
    hide WithSni;
    var names := SniCandidates(s);
    assert names[1..] == if |names| == 1 then [] else [names[1]];
    assert BySni([], ips) == [];
    if |names| == 2 {
      assert [names[1]][1..] == [];
      assert BySni([names[1]], ips) == WithSni(Some(names[1]), ips) + [] == WithSni(Some(names[1]), ips);
    } else {
      assert WithSni(Some(names[0]), ips) + [] == WithSni(Some(names[0]), ips);
    }
  }

  /**
   A run starts with the connections without a name to every first address, if they are allowed; then come all
   of them under the shown name, then under the dialled one.
   */
  lemma PlanStarts(s: Setup, w: World, headers: seq<Header>, i: nat)
    requires w.aliasIps.Some? && i < |FirstAddresses(s, headers, w.aliasIps.value)|
    ensures var plan, addrs := Plan(s, w, headers), FirstAddresses(s, headers, w.aliasIps.value);
            var bare := if s.accelerated && s.fakeName == None && s.noSniConnector then |addrs| else 0;
            var primary := if s.fakeName.Some? then s.fakeName.value else s.host;
            && |plan| >= bare + |addrs|
            && (bare > 0 ==> plan[i] == Dial(None, addrs[i]))
            && plan[bare + i] == Dial(Some(primary), addrs[i])
            && (s.connectHost != primary ==> |plan| >= bare + |addrs| + |addrs|
                                             && plan[bare + |addrs| + i] == Dial(Some(s.connectHost), addrs[i]))
  {
    hide FirstAddresses, Later, Tried, WithSni;
    var addrs := FirstAddresses(s, headers, w.aliasIps.value);
    NamesAre(s, s.connectHost);
    BySniIs(s, addrs);
    WithSniAt(None, addrs);
    WithSniAt(Some(SniCandidates(s)[0]), addrs);
    WithSniAt(Some(s.connectHost), addrs);
  }

  /** The address was offered first, or resolved for the dialled name. */
  ghost predicate KnownFirst(s: Setup, w: World, headers: seq<Header>, ip: Ip)
    requires w.aliasIps.Some?
  {
    ip in w.aliasIps.value || ip in FirstAddresses(s, headers, w.aliasIps.value)
  }

  /** The host's own addresses are asked for when another name is dialled and no second proxy decides. */
  predicate AsksHost(s: Setup) {
    !s.agentOn && s.connectHost != s.host
  }

  /** The other resolvers are asked for an accelerated host. */
  predicate AsksOthers(s: Setup) {
    !s.agentOn && s.accelerated
  }

  predicate AmongAny(lists: Option<seq<seq<Ip>>>, ip: Ip) {
    lists.Some? && exists l :: l in lists.value && ip in l
  }

  predicate HostKnows(s: Setup, w: World, ip: Ip) {
    AsksHost(s) && w.hostIps.Some? && ip in w.hostIps.value
  }

  ghost predicate FromHost(s: Setup, w: World, headers: seq<Header>, d: Dial)
    requires w.aliasIps.Some?
  {
    && HostKnows(s, w, d.ip) && !KnownFirst(s, w, headers, d.ip)
    && d.sni == Some(if s.fakeName.Some? then s.fakeName.value else s.host)
  }

  ghost predicate FromOthers(s: Setup, w: World, headers: seq<Header>, d: Dial)
    requires w.aliasIps.Some?
  {
    && AsksOthers(s) && (AsksHost(s) ==> w.hostIps.Some?) && AmongAny(w.aliasAlternatives, d.ip)
    && !KnownFirst(s, w, headers, d.ip) && !HostKnows(s, w, d.ip)
    && d.sni.Some? && ShownName(s, d.sni.value)
  }

  ghost predicate FromHostOthers(s: Setup, w: World, headers: seq<Header>, d: Dial)
    requires w.aliasIps.Some?
  {
    && AsksOthers(s) && AsksHost(s) && w.hostIps.Some? && w.aliasAlternatives.Some? && AmongAny(w.hostAlternatives, d.ip)
    && !KnownFirst(s, w, headers, d.ip) && !HostKnows(s, w, d.ip) && !AmongAny(w.aliasAlternatives, d.ip)
    && d.sni == Some(if s.fakeName.Some? then s.fakeName.value else s.host)
  }

  lemma {:induction false} ConcatMembers(lists: seq<seq<Ip>>, ip: Ip)
    ensures ip in Concat(lists) <==> AmongAny(Some(lists), ip)
  {
    if lists != [] {
      ConcatMembers(lists[1..], ip);
      assert lists == [lists[0]] + lists[1..];
    }
  }

  lemma {:induction false} WithIpMembers(snis: seq<string>, ip: Ip, d: Dial)
    ensures d in WithIp(snis, ip) <==> d.ip == ip && d.sni.Some? && d.sni.value in snis
  {
    if snis != [] {
      WithIpMembers(snis[1..], ip, d);
      assert snis == [snis[0]] + snis[1..];
    }
  }

  lemma {:induction false} ByIpMembers(snis: seq<string>, ips: seq<Ip>, d: Dial)
    ensures d in ByIp(snis, ips) <==> d.ip in ips && d.sni.Some? && d.sni.value in snis
  {
    hide WithIp;
    if ips != [] {
      WithIpMembers(snis, ips[0], d);
      ByIpMembers(snis, ips[1..], d);
      assert ips == [ips[0]] + ips[1..];
    }
  }

  /** The stages behind the start, as the fallbacks add them. */
  function HostStage(s: Setup, w: World, tried: seq<Ip>): seq<Dial> {
    if AsksHost(s) && w.hostIps.Some? then WithSni(Some(SniPrimary(s)), NewIps(tried, w.hostIps.value)) else []
  }

  function TriedByHost(s: Setup, w: World, tried: seq<Ip>): seq<Ip> {
    if AsksHost(s) && w.hostIps.Some? then tried + NewIps(tried, w.hostIps.value) else tried
  }

  function OtherStage(s: Setup, w: World, tried: seq<Ip>): seq<Dial> {
    if AsksOthers(s) && (AsksHost(s) ==> w.hostIps.Some?) && w.aliasAlternatives.Some?
    then ByIp(SniCandidates(s), NewIps(tried, Concat(w.aliasAlternatives.value))) else []
  }

  function HostOtherStage(s: Setup, w: World, tried: seq<Ip>): seq<Dial> {
    if AsksOthers(s) && AsksHost(s) && w.hostIps.Some? && w.aliasAlternatives.Some? && w.hostAlternatives.Some?
    then
      var known := tried + NewIps(tried, Concat(w.aliasAlternatives.value));
      WithSni(Some(SniPrimary(s)), NewIps(known, Concat(w.hostAlternatives.value)))
    else []
  }

  lemma LaterIs(s: Setup, w: World, tried: seq<Ip>)
    ensures var known := TriedByHost(s, w, tried);
            Later(s, w, InitialFlags(s), tried)
              == HostStage(s, w, tried) + OtherStage(s, w, known) + HostOtherStage(s, w, known)
  {
    hide NewIps, WithSni, ByIp, Concat, SniCandidates;
    var f := InitialFlags(s);
    var known := TriedByHost(s, w, tried);
    var f' := f.(host := false);
    LaterOthers(s, w, f', known);
    if f.host && w.hostIps.Some? {
      assert Later(s, w, f, tried) == HostStage(s, w, tried) + Later(s, w, f', known);
      Associate(HostStage(s, w, tried), OtherStage(s, w, known), HostOtherStage(s, w, known));
    } else if !f.host {
      assert f == f';
      assert [] + OtherStage(s, w, known) == OtherStage(s, w, known);
    }
  }

  lemma LaterOthers(s: Setup, w: World, f: Flags, tried: seq<Ip>)
    requires f == InitialFlags(s).(host := false)
    ensures AsksHost(s) ==> w.hostIps.Some? ==> Later(s, w, f, tried) == OtherStage(s, w, tried) + HostOtherStage(s, w, tried)
    ensures !AsksHost(s) ==> Later(s, w, f, tried) == OtherStage(s, w, tried) + HostOtherStage(s, w, tried)
  {
    hide NewIps, WithSni, ByIp, Concat, SniCandidates;
    var f' := f.(aliasAlternatives := false);
    if f.aliasAlternatives && w.aliasAlternatives.Some? {
      var novel := NewIps(tried, Concat(w.aliasAlternatives.value));
      assert Later(s, w, f, tried) == ByIp(SniCandidates(s), novel) + Later(s, w, f', tried + novel);
      if f.hostAlternatives && w.hostAlternatives.Some? {
        assert Later(s, w, f', tried + novel)
            == WithSni(Some(SniPrimary(s)), NewIps(tried + novel, Concat(w.hostAlternatives.value)));
      } else {
        assert Later(s, w, f', tried + novel) == [];
      }
    }
  }

  lemma TriedFacts(ips: seq<Ip>, addrs: seq<Ip>, ip: Ip)
    ensures ip in Tried(ips, addrs) <==> ip in ips || ip in addrs
  {
    hide NewIps;
    NewIpsFacts(ips, addrs);
  }

  /** Which addresses each stage may add. */
  lemma StageMembers(s: Setup, w: World, headers: seq<Header>, d: Dial)
    requires w.aliasIps.Some?
    ensures var tried := Tried(w.aliasIps.value, FirstAddresses(s, headers, w.aliasIps.value));
            var known := TriedByHost(s, w, tried);
            && (d in HostStage(s, w, tried) <==> FromHost(s, w, headers, d))
            && (d in OtherStage(s, w, known) <==> FromOthers(s, w, headers, d))
            && (d in HostOtherStage(s, w, known) <==> FromHostOthers(s, w, headers, d))
  {
    hide FirstAddresses, NewIps, WithSni, ByIp, Concat, Tried, AmongAny, SniCandidates, ShownName;
    var addrs := FirstAddresses(s, headers, w.aliasIps.value);
    var tried := Tried(w.aliasIps.value, addrs);
    TriedFacts(w.aliasIps.value, addrs, d.ip);
    assert SniPrimary(s) == if s.fakeName.Some? then s.fakeName.value else s.host;
    hide SniPrimary;
    if AsksHost(s) && w.hostIps.Some? {
      NewIpsFacts(tried, w.hostIps.value);
      WithSniAt(Some(SniPrimary(s)), NewIps(tried, w.hostIps.value));
    }
    var known := TriedByHost(s, w, tried);
    assert d.ip in known <==> KnownFirst(s, w, headers, d.ip) || HostKnows(s, w, d.ip);
    if w.aliasAlternatives.Some? {
      OtherMembers(s, known, w.aliasAlternatives.value, d);
      if w.hostAlternatives.Some? {
        HostOtherMembers(SniPrimary(s), known, w.aliasAlternatives.value, w.hostAlternatives.value, d);
      }
    }
    assert AmongAny(None, d.ip) == false by { AmongNone(d.ip); }
  }

  lemma AmongNone(ip: Ip)
    ensures !AmongAny(None, ip)
  {}

  lemma OtherMembers(s: Setup, known: seq<Ip>, lists: seq<seq<Ip>>, d: Dial)
    ensures d in ByIp(SniCandidates(s), NewIps(known, Concat(lists)))
       <==> AmongAny(Some(lists), d.ip) && d.ip !in known && d.sni.Some? && ShownName(s, d.sni.value)
    ensures d.ip in NewIps(known, Concat(lists)) <==> AmongAny(Some(lists), d.ip) && d.ip !in known
  {
    hide NewIps, ByIp, Concat, AmongAny, SniCandidates, ShownName;
    ConcatMembers(lists, d.ip);
    NewIpsFacts(known, Concat(lists));
    ByIpMembers(SniCandidates(s), NewIps(known, Concat(lists)), d);
    if d.sni.Some? { NamesAre(s, d.sni.value); }
  }

  lemma HostOtherMembers(name: string, known: seq<Ip>, lists: seq<seq<Ip>>, more: seq<seq<Ip>>, d: Dial)
    ensures var tried := known + NewIps(known, Concat(lists));
            d in WithSni(Some(name), NewIps(tried, Concat(more)))
            <==> AmongAny(Some(more), d.ip) && !AmongAny(Some(lists), d.ip) && d.ip !in known && d.sni == Some(name)
  {
    hide NewIps, WithSni, Concat, AmongAny;
    ConcatMembers(lists, d.ip);
    ConcatMembers(more, d.ip);
    NewIpsFacts(known, Concat(lists));
    var tried := known + NewIps(known, Concat(lists));
    NewIpsFacts(tried, Concat(more));
    WithSniAt(Some(name), NewIps(tried, Concat(more)));
  }

  ghost predicate FromStart(s: Setup, w: World, headers: seq<Header>, d: Dial)
    requires w.aliasIps.Some?
  {
    d.ip in FirstAddresses(s, headers, w.aliasIps.value) && Shown(s, d.sni)
  }

  function Start(s: Setup, w: World, headers: seq<Header>): seq<Dial>
    requires w.aliasIps.Some?
  {
    var addrs := FirstAddresses(s, headers, w.aliasIps.value);
    NoSniStage(s, addrs) + BySni(SniCandidates(s), addrs)
  }

  lemma StartMembers(s: Setup, w: World, headers: seq<Header>, d: Dial)
    requires w.aliasIps.Some?
    ensures d in Start(s, w, headers) <==> FromStart(s, w, headers, d)
  {
    hide FirstAddresses, WithSni, BySni;
    var addrs := FirstAddresses(s, headers, w.aliasIps.value);
    BySniIs(s, addrs);
    WithSniAt(None, addrs);
    WithSniAt(Some(SniCandidates(s)[0]), addrs);
    NamesAre(s, if d.sni.Some? then d.sni.value else s.connectHost);
    if |SniCandidates(s)| == 2 { WithSniAt(Some(SniCandidates(s)[1]), addrs); }
  }

  /**
   Everything a run may dial: the first addresses in every way they may be shown, the host's own new addresses
   under the shown name, the new addresses other resolvers know for the dialled name under both names, and the
   new ones they know for the host under the shown name - and nothing else.
   */
  lemma PlanContents(s: Setup, w: World, headers: seq<Header>, d: Dial)
    ensures d in Plan(s, w, headers) <==>
              w.aliasIps.Some? && (FromStart(s, w, headers, d) || FromHost(s, w, headers, d)
                                   || FromOthers(s, w, headers, d) || FromHostOthers(s, w, headers, d))
  {
    hide FirstAddresses, NoSniStage, BySni, SniCandidates, Later, Tried, InitialFlags;
    hide HostStage, OtherStage, HostOtherStage, TriedByHost, FromStart, FromHost, FromOthers, FromHostOthers;
    if w.aliasIps.Some? {
      StartMembers(s, w, headers, d);
      StageMembers(s, w, headers, d);
      LaterIs(s, w, Tried(w.aliasIps.value, FirstAddresses(s, headers, w.aliasIps.value)));
    }
  }

  /** Each stage is used up before the next one starts. */
  lemma StagesInOrder(s: Setup, w: World, headers: seq<Header>, c: Dial, d: Dial)
    requires w.aliasIps.Some?
    ensures var plan := Plan(s, w, headers);
            && (FromStart(s, w, headers, c) && (FromHost(s, w, headers, d) || FromOthers(s, w, headers, d) || FromHostOthers(s, w, headers, d))
                ==> Before(plan, c, d))
            && (FromHost(s, w, headers, c) && (FromOthers(s, w, headers, d) || FromHostOthers(s, w, headers, d)) ==> Before(plan, c, d))
            && (FromOthers(s, w, headers, c) && FromHostOthers(s, w, headers, d) ==> Before(plan, c, d))
  {
    hide FirstAddresses, NoSniStage, BySni, SniCandidates, Later, Tried, InitialFlags, Before;
    hide HostStage, OtherStage, HostOtherStage, TriedByHost, FromStart, FromHost, FromOthers, FromHostOthers;
    var tried := Tried(w.aliasIps.value, FirstAddresses(s, headers, w.aliasIps.value));
    var known := TriedByHost(s, w, tried);
    StartMembers(s, w, headers, c);
    StageMembers(s, w, headers, c);
    StageMembers(s, w, headers, d);
    LaterIs(s, w, tried);
    FourStages(Start(s, w, headers), HostStage(s, w, tried), OtherStage(s, w, known), HostOtherStage(s, w, known), c, d);
  }

  lemma FourStages(a: seq<Dial>, b: seq<Dial>, e: seq<Dial>, f: seq<Dial>, c: Dial, d: Dial)
    ensures c in a && (d in b || d in e || d in f) ==> Before(a + (b + e + f), c, d)
    ensures c in b && (d in e || d in f) ==> Before(a + (b + e + f), c, d)
    ensures c in e && d in f ==> Before(a + (b + e + f), c, d)
  {
    hide Before;
    if c in a && (d in b || d in e || d in f) {
      BeforeAcross(a, b + e + f, c, d);
    } else if c in b && (d in e || d in f) {
      Associate(b, e, f);
      BeforeAcross(b, e + f, c, d);
      BeforeWithin(a, b + e + f, c, d);
    } else if c in e && d in f {
      BeforeAcross(b + e, f, c, d);
      BeforeWithin(a, b + e + f, c, d);
    }
  }

  // ---------------------------------------------------------------- order within the later stages

  lemma WithSniOrder(sni: Option<string>, ips: seq<Ip>, x: Ip, y: Ip)
    requires Before(ips, x, y)
    ensures Before(WithSni(sni, ips), Dial(sni, x), Dial(sni, y))
  {
    WithSniAt(sni, ips);
    var i, j :| 0 <= i < j < |ips| && ips[i] == x && ips[j] == y;
    assert WithSni(sni, ips)[i] == Dial(sni, x) && WithSni(sni, ips)[j] == Dial(sni, y);
  }

  lemma {:induction false} ByIpOrder(snis: seq<string>, ips: seq<Ip>, c: Dial, d: Dial)
    requires Before(ips, c.ip, d.ip)
    requires c.sni.Some? && c.sni.value in snis && d.sni.Some? && d.sni.value in snis
    ensures Before(ByIp(snis, ips), c, d)
  {
    hide WithIp;
    var i, j :| 0 <= i < j < |ips| && ips[i] == c.ip && ips[j] == d.ip;
    assert ips[1..][j - 1] == d.ip;
    if i == 0 {
      WithIpMembers(snis, ips[0], c);
      ByIpMembers(snis, ips[1..], d);
      BeforeAcross(WithIp(snis, ips[0]), ByIp(snis, ips[1..]), c, d);
    } else {
      assert ips[1..][i - 1] == c.ip;
      ByIpOrder(snis, ips[1..], c, d);
      BeforeWithin(WithIp(snis, ips[0]), ByIp(snis, ips[1..]), c, d);
    }
  }

  lemma {:induction false} ByIpNames(snis: seq<string>, ips: seq<Ip>, ip: Ip)
    requires |snis| == 2 && ip in ips
    ensures Before(ByIp(snis, ips), Dial(Some(snis[0]), ip), Dial(Some(snis[1]), ip))
  {
    var c, d := Dial(Some(snis[0]), ip), Dial(Some(snis[1]), ip);
    if ips[0] == ip {
      WithTwo(snis, ip);
      BeforeAcross([c], [d], c, d);
      BeforeWithin([c] + [d], ByIp(snis, ips[1..]), c, d);
    } else {
      ByIpNames(snis, ips[1..], ip);
      BeforeWithin(WithIp(snis, ips[0]), ByIp(snis, ips[1..]), c, d);
    }
  }

  lemma WithTwo(snis: seq<string>, ip: Ip)
    requires |snis| == 2
    ensures WithIp(snis, ip) == [Dial(Some(snis[0]), ip)] + [Dial(Some(snis[1]), ip)]
  {
    assert snis[1..] == [snis[1]] && [snis[1]][1..] == [];
    assert WithIp([snis[1]], ip) == [Dial(Some(snis[1]), ip)] + WithIp([], ip);
  }

  /**
   The later stages go through their addresses in the order of the answers; an address that another resolver
   knows for the dialled name is tried under the shown name first, then under the dialled one, before the next.
   */
  lemma LaterOrder(s: Setup, w: World, headers: seq<Header>, c: Dial, d: Dial)
    requires w.aliasIps.Some?
    ensures var plan := Plan(s, w, headers);
            && (FromHost(s, w, headers, c) && FromHost(s, w, headers, d) && c != d ==>
                  FirstBefore(w.hostIps.value, c.ip, d.ip) ==> Before(plan, c, d))
            && (FromOthers(s, w, headers, c) && FromOthers(s, w, headers, d) && c.ip != d.ip ==>
                  FirstBefore(Concat(w.aliasAlternatives.value), c.ip, d.ip) ==> Before(plan, c, d))
            && (FromOthers(s, w, headers, c) && FromOthers(s, w, headers, d) && c.ip == d.ip ==>
                  ShownBefore(s, c.sni, d.sni) ==> Before(plan, c, d))
            && (FromHostOthers(s, w, headers, c) && FromHostOthers(s, w, headers, d) && c != d ==>
                  FirstBefore(Concat(w.hostAlternatives.value), c.ip, d.ip) ==> Before(plan, c, d))
  {
    hide FirstAddresses, NoSniStage, BySni, SniCandidates, Later, Tried, InitialFlags, Before, FirstBefore, Concat, NewIps;
    hide WithSni, ByIp, ShownBefore;
    var tried := Tried(w.aliasIps.value, FirstAddresses(s, headers, w.aliasIps.value));
    var known := TriedByHost(s, w, tried);
    TriedFacts(w.aliasIps.value, FirstAddresses(s, headers, w.aliasIps.value), c.ip);
    TriedFacts(w.aliasIps.value, FirstAddresses(s, headers, w.aliasIps.value), d.ip);
    LaterIs(s, w, tried);
    var a, b, e, f := Start(s, w, headers), HostStage(s, w, tried), OtherStage(s, w, known), HostOtherStage(s, w, known);
    if FromHost(s, w, headers, c) && FromHost(s, w, headers, d) && c != d && FirstBefore(w.hostIps.value, c.ip, d.ip) {
      NewIpsOrder(tried, w.hostIps.value, c.ip, d.ip);
      WithSniOrder(c.sni, NewIps(tried, w.hostIps.value), c.ip, d.ip);
      WithinStages(a, b, e, f, c, d);
    }
    if AsksHost(s) && w.hostIps.Some? { NewIpsFacts(tried, w.hostIps.value); }
    if FromOthers(s, w, headers, c) && FromOthers(s, w, headers, d) {
      OthersOrder(s, known, w.aliasAlternatives.value, c, d);
      if Before(e, c, d) { WithinStages(a, b, e, f, c, d); }
    }
    if FromHostOthers(s, w, headers, c) && FromHostOthers(s, w, headers, d) && c != d {
      if FirstBefore(Concat(w.hostAlternatives.value), c.ip, d.ip) {
        var lists := w.aliasAlternatives.value;
        var more := known + NewIps(known, Concat(lists));
        NewIpsFacts(known, Concat(lists));
        ConcatMembers(lists, c.ip);
        ConcatMembers(lists, d.ip);
        NewIpsOrder(more, Concat(w.hostAlternatives.value), c.ip, d.ip);
        WithSniOrder(c.sni, NewIps(more, Concat(w.hostAlternatives.value)), c.ip, d.ip);
        WithinStages(a, b, e, f, c, d);
      }
    }
  }

  lemma OthersOrder(s: Setup, known: seq<Ip>, lists: seq<seq<Ip>>, c: Dial, d: Dial)
    requires AmongAny(Some(lists), c.ip) && AmongAny(Some(lists), d.ip) && c.ip !in known && d.ip !in known
    requires c.sni.Some? && ShownName(s, c.sni.value) && d.sni.Some? && ShownName(s, d.sni.value)
    ensures var stage := ByIp(SniCandidates(s), NewIps(known, Concat(lists)));
            && (c.ip != d.ip && FirstBefore(Concat(lists), c.ip, d.ip) ==> Before(stage, c, d))
            && (c.ip == d.ip && ShownBefore(s, c.sni, d.sni) ==> Before(stage, c, d))
  {
    hide Concat, NewIps, ByIp, Before, FirstBefore, AmongAny;
    var ips := NewIps(known, Concat(lists));
    NamesAre(s, c.sni.value);
    NamesAre(s, d.sni.value);
    if c.ip != d.ip && FirstBefore(Concat(lists), c.ip, d.ip) {
      NewIpsOrder(known, Concat(lists), c.ip, d.ip);
      ByIpOrder(SniCandidates(s), ips, c, d);
    }
    if c.ip == d.ip && ShownBefore(s, c.sni, d.sni) {
      ConcatMembers(lists, c.ip);
      NewIpsFacts(known, Concat(lists));
      ByIpNames(SniCandidates(s), ips, c.ip);
    }
  }

  lemma WithinStages(a: seq<Dial>, b: seq<Dial>, e: seq<Dial>, f: seq<Dial>, c: Dial, d: Dial)
    requires Before(b, c, d) || Before(e, c, d) || Before(f, c, d)
    ensures Before(a + (b + e + f), c, d)
  {
    hide Before;
    if Before(f, c, d) {
      BeforeWithin(b + e, f, c, d);
    } else {
      BeforeWithin(b, e, c, d);
      BeforeWithin(b + e, f, c, d);
    }
    BeforeWithin(a, b + e + f, c, d);
  }

  // ---------------------------------------------------------------- the candidates of a race

  lemma AtAddressMembers(bare: bool, snis: seq<string>, ip: Ip, d: Dial)
    ensures d in AtAddress(bare, snis, ip) <==> d.ip == ip && if d.sni == None then bare else d.sni.value in snis
  {
    hide WithIp;
    WithIpMembers(snis, ip, d);
  }

  lemma {:induction false} CandidateMembers(bare: bool, snis: seq<string>, ips: seq<Ip>, d: Dial)
    ensures d in Candidates(bare, snis, ips) <==> d.ip in ips && if d.sni == None then bare else d.sni.value in snis
  {
    hide AtAddress;
    if ips != [] {
      AtAddressMembers(bare, snis, ips[0], d);
      CandidateMembers(bare, snis, ips[1..], d);
      assert ips == [ips[0]] + ips[1..];
    }
  }

  lemma {:induction false} UnknownMembers(ips: seq<Ip>, tried: seq<Ip>)
    ensures forall ip :: ip in Unknown(ips, tried) <==> ip in ips && ip !in tried
  {
    if ips != [] {
      assert ips == [ips[0]] + ips[1..];
      UnknownMembers(ips[1..], tried);
    }
  }

  /** The race starts every first address in every way it may be shown, and falls back to the untried published edges. */
  lemma CandidateContents(s: Setup, headers: seq<Header>, ips: seq<Ip>, d: Dial)
    ensures var addrs := FirstAddresses(s, headers, ips);
            && (d in InitialCandidates(s, addrs) <==> d.ip in addrs && Shown(s, d.sni))
            && (d in FallbackCandidates(s, Tried(ips, addrs)) <==>
                  && OnGithub(s.host) && d.ip in GITHUB_WEB_FALLBACK_IPS && d.ip !in ips && d.ip !in addrs && Shown(s, d.sni))
  {
    hide FirstAddresses, Candidates, Unknown, SniCandidates, GithubFallback, Tried, OnGithub;
    var addrs := FirstAddresses(s, headers, ips);
    if d.sni.Some? { NamesAre(s, d.sni.value); }
    CandidateMembers(Bare(s), SniCandidates(s), addrs, d);
    var edges := Unknown(GithubFallback(s.host), Tried(ips, addrs));
    CandidateMembers(Bare(s), SniCandidates(s), edges, d);
    UnknownMembers(GithubFallback(s.host), Tried(ips, addrs));
    GithubIff(s.host, d.ip);
    TriedFacts(ips, addrs, d.ip);
  }

  lemma {:induction false} UnknownOrder(ips: seq<Ip>, tried: seq<Ip>, x: Ip, y: Ip)
    requires Before(ips, x, y) && x !in tried && y !in tried
    ensures Before(Unknown(ips, tried), x, y)
  {
    var i, j :| 0 <= i < j < |ips| && ips[i] == x && ips[j] == y;
    assert ips[1..][j - 1] == y;
    if i == 0 {
      UnknownMembers(ips[1..], tried);
      BeforeAcross([x], Unknown(ips[1..], tried), x, y);
    } else {
      assert ips[1..][i - 1] == x;
      UnknownOrder(ips[1..], tried, x, y);
      BeforeWithin(if ips[0] in tried then [] else [ips[0]], Unknown(ips[1..], tried), x, y);
    }
  }

  lemma {:induction false} CandidateOrder(bare: bool, snis: seq<string>, ips: seq<Ip>, c: Dial, d: Dial)
    requires Before(ips, c.ip, d.ip)
    requires if c.sni == None then bare else c.sni.value in snis
    requires if d.sni == None then bare else d.sni.value in snis
    ensures Before(Candidates(bare, snis, ips), c, d)
  {
    hide AtAddress;
    var i, j :| 0 <= i < j < |ips| && ips[i] == c.ip && ips[j] == d.ip;
    assert ips[1..][j - 1] == d.ip;
    if i == 0 {
      AtAddressMembers(bare, snis, ips[0], c);
      CandidateMembers(bare, snis, ips[1..], d);
      BeforeAcross(AtAddress(bare, snis, ips[0]), Candidates(bare, snis, ips[1..]), c, d);
    } else {
      assert ips[1..][i - 1] == c.ip;
      CandidateOrder(bare, snis, ips[1..], c, d);
      BeforeWithin(AtAddress(bare, snis, ips[0]), Candidates(bare, snis, ips[1..]), c, d);
    }
  }

  lemma {:induction false} CandidateNames(s: Setup, ips: seq<Ip>, c: Dial, d: Dial)
    requires c.ip in ips && c.ip == d.ip && ShownBefore(s, c.sni, d.sni)
    ensures Before(Candidates(Bare(s), SniCandidates(s), ips), c, d)
  {
    var snis := SniCandidates(s);
    if ips[0] == c.ip {
      NamesAtAddress(s, c, d);
      hide AtAddress, Before;
      BeforeWithin(AtAddress(Bare(s), snis, ips[0]), Candidates(Bare(s), snis, ips[1..]), c, d);
    } else {
      hide AtAddress, Before;
      CandidateNames(s, ips[1..], c, d);
      BeforeWithin(AtAddress(Bare(s), snis, ips[0]), Candidates(Bare(s), snis, ips[1..]), c, d);
    }
  }

  lemma NamesAtAddress(s: Setup, c: Dial, d: Dial)
    requires c.ip == d.ip && ShownBefore(s, c.sni, d.sni)
    ensures Before(AtAddress(Bare(s), SniCandidates(s), c.ip), c, d)
  {
    var snis := SniCandidates(s);
    NamesAre(s, d.sni.value);
    hide WithIp, Before;
    if c.sni == None {
      WithIpMembers(snis, d.ip, d);
      BeforeAcross([c], WithIp(snis, d.ip), c, d);
    } else {
      NamesAre(s, c.sni.value);
      WithTwo(snis, c.ip);
      BeforeAcross([c], [d], c, d);
      BeforeWithin(if Bare(s) then [Dial(None, c.ip)] else [], WithIp(snis, c.ip), c, d);
    }
  }

  /** Address by address, and at each one without a name first, then under the shown name, then under the dialled one. */
  lemma CandidatesInOrder(s: Setup, headers: seq<Header>, ips: seq<Ip>, c: Dial, d: Dial)
    requires Shown(s, c.sni) && Shown(s, d.sni)
    ensures var addrs := FirstAddresses(s, headers, ips);
            var initial, fallback := InitialCandidates(s, addrs), FallbackCandidates(s, Tried(ips, addrs));
            && (Before(addrs, c.ip, d.ip) ==> Before(initial, c, d))
            && (c.ip in addrs && c.ip == d.ip && ShownBefore(s, c.sni, d.sni) ==> Before(initial, c, d))
            && (c in fallback && d in fallback && Before(GITHUB_WEB_FALLBACK_IPS, c.ip, d.ip) ==> Before(fallback, c, d))
            && (c in fallback && d in fallback && c.ip == d.ip && ShownBefore(s, c.sni, d.sni) ==> Before(fallback, c, d))
  {
    hide FirstAddresses, Candidates, Unknown, SniCandidates, GithubFallback, Tried, OnGithub, Before, ShownBefore;
    var addrs := FirstAddresses(s, headers, ips);
    var tried := Tried(ips, addrs);
    if c.sni.Some? { NamesAre(s, c.sni.value); }
    if d.sni.Some? { NamesAre(s, d.sni.value); }
    if Before(addrs, c.ip, d.ip) { CandidateOrder(Bare(s), SniCandidates(s), addrs, c, d); }
    if c.ip in addrs && c.ip == d.ip && ShownBefore(s, c.sni, d.sni) { CandidateNames(s, addrs, c, d); }
    var edges := Unknown(GithubFallback(s.host), tried);
    if c in Candidates(Bare(s), SniCandidates(s), edges) && d in Candidates(Bare(s), SniCandidates(s), edges) {
      CandidateMembers(Bare(s), SniCandidates(s), edges, c);
      CandidateMembers(Bare(s), SniCandidates(s), edges, d);
      UnknownMembers(GithubFallback(s.host), tried);
      GithubIff(s.host, c.ip);
      OnlyList(s.host);
      if Before(GITHUB_WEB_FALLBACK_IPS, c.ip, d.ip) {
        UnknownOrder(GithubFallback(s.host), tried, c.ip, d.ip);
        CandidateOrder(Bare(s), SniCandidates(s), edges, c, d);
      }
      if c.ip == d.ip && ShownBefore(s, c.sni, d.sni) { CandidateNames(s, edges, c, d); }
    }
  }

  lemma OnlyList(host: string)
    ensures GithubFallback(host) != [] ==> GithubFallback(host) == GITHUB_WEB_FALLBACK_IPS
  {}
}
