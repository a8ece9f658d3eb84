/** Safety of the upstream phase over every run: no attempt twice, nothing left out, no request sent twice. */
module FallbackLaws {
  import opened Sequences
  import opened Text
  import opened Http1
  import R = ResponseRelay
  import Upstream
  import opened UpstreamFallback

  // ---------------------------------------------------------------- address lists

  /** New addresses are distinct and really new, and no address is dropped. */
  lemma {:induction false} NewIpsFacts(known: seq<Ip>, ips: seq<Ip>)
    ensures Distinct(NewIps(known, ips))
    ensures forall ip :: ip in NewIps(known, ips) <==> ip in ips && ip !in known
    decreases |ips|
  {
    if ips != [] {
      assert ips == [ips[0]] + ips[1..];
      if ips[0] in known {
        NewIpsFacts(known, ips[1..]);
      } else {
        NewIpsFacts(known + [ips[0]], ips[1..]);
        DistinctConcat([ips[0]], NewIps(known + [ips[0]], ips[1..]));
      }
    }
  }

  lemma {:induction false} WithoutFacts(ips: seq<Ip>, ip: Ip)
    requires Distinct(ips)
    ensures Distinct(Without(ips, ip)) && ip !in Without(ips, ip)
    ensures forall x :: x in Without(ips, ip) ==> x in ips
  {
    if ips != [] {
      assert Distinct(ips[1..]);
      WithoutFacts(ips[1..], ip);
      assert ips[0] !in ips[1..];
      DistinctConcat(if ips[0] == ip then [] else [ips[0]], Without(ips[1..], ip));
    }
  }

  lemma FirstAddressesDistinct(s: Setup, headers: seq<Header>, ips: seq<Ip>)
    ensures Distinct(FirstAddresses(s, headers, ips))
  {
    hide NewIps, Without, GithubFallback, Stateful;
    var offered := NewIps([], s.preferred + ips);
    NewIpsFacts([], s.preferred + ips);
    if s.lastGood.Some? {
      WithoutFacts(offered, s.lastGood.value);
      DistinctConcat([s.lastGood.value], Without(offered, s.lastGood.value));
    }
    var ordered := if s.accelerated && s.lastGood.Some? then [s.lastGood.value] + Without(offered, s.lastGood.value) else offered;
    var addrs := if s.agentOn then [UNSPECIFIED] else ordered;
    assert Distinct(addrs);
    NewIpsFacts(addrs, GithubFallback(s.host));
    DistinctConcat(addrs, NewIps(addrs, GithubFallback(s.host)));
  }

  // ---------------------------------------------------------------- lists of attempts

  lemma {:induction false} WithSniFacts(sni: Option<string>, ips: seq<Ip>)
    ensures forall d :: d in WithSni(sni, ips) <==> d.sni == sni && d.ip in ips
    ensures Distinct(ips) ==> Distinct(WithSni(sni, ips))
  {
    if ips != [] {
      WithSniFacts(sni, ips[1..]);
      assert ips == [ips[0]] + ips[1..];
      if Distinct(ips) {
        assert ips[0] !in ips[1..];
        DistinctConcat([Dial(sni, ips[0])], WithSni(sni, ips[1..]));
      }
    }
  }

  lemma {:induction false} WithIpFacts(snis: seq<string>, ip: Ip)
    ensures forall d :: d in WithIp(snis, ip) <==> d.sni.Some? && d.sni.value in snis && d.ip == ip
    ensures Distinct(snis) ==> Distinct(WithIp(snis, ip))
  {
    if snis != [] {
      WithIpFacts(snis[1..], ip);
      assert snis == [snis[0]] + snis[1..];
      if Distinct(snis) {
        assert snis[0] !in snis[1..];
        DistinctConcat([Dial(Some(snis[0]), ip)], WithIp(snis[1..], ip));
      }
    }
  }

  lemma {:induction false} BySniFacts(snis: seq<string>, ips: seq<Ip>)
    ensures forall d :: d in BySni(snis, ips) <==> d.sni.Some? && d.sni.value in snis && d.ip in ips
    ensures Distinct(snis) && Distinct(ips) ==> Distinct(BySni(snis, ips))
  {
    if snis != [] {
      BySniFacts(snis[1..], ips);
      WithSniFacts(Some(snis[0]), ips);
      assert snis == [snis[0]] + snis[1..];
      if Distinct(snis) && Distinct(ips) {
        assert snis[0] !in snis[1..];
        DistinctConcat(WithSni(Some(snis[0]), ips), BySni(snis[1..], ips));
      }
    }
  }

  lemma {:induction false} ByIpFacts(snis: seq<string>, ips: seq<Ip>)
    ensures forall d :: d in ByIp(snis, ips) <==> d.sni.Some? && d.sni.value in snis && d.ip in ips
    ensures Distinct(snis) && Distinct(ips) ==> Distinct(ByIp(snis, ips))
  {
    if ips != [] {
      ByIpFacts(snis, ips[1..]);
      WithIpFacts(snis, ips[0]);
      assert ips == [ips[0]] + ips[1..];
      if Distinct(snis) && Distinct(ips) {
        assert ips[0] !in ips[1..];
        DistinctConcat(WithIp(snis, ips[0]), ByIp(snis, ips[1..]));
      }
    }
  }

  lemma SniCandidatesDistinct(s: Setup)
    ensures Distinct(SniCandidates(s)) && SniCandidates(s)[0] == SniPrimary(s)
  {}

  /** The fallbacks only add attempts at addresses not tried before, each once. */
  lemma {:induction false} LaterFacts(s: Setup, w: World, f: Flags, tried: seq<Ip>)
    ensures Distinct(Later(s, w, f, tried))
    ensures forall d :: d in Later(s, w, f, tried) ==> d.sni.Some? && d.ip !in tried
    decreases f.Open()
  {
    hide NewIps, Concat, WithSni, ByIp, SniCandidates, SniPrimary;
    SniCandidatesDistinct(s);
    if f.host {
      if w.hostIps.Some? {
        var novel := NewIps(tried, w.hostIps.value);
        NewIpsFacts(tried, w.hostIps.value);
        WithSniFacts(Some(SniPrimary(s)), novel);
        LaterFacts(s, w, f.(host := false), tried + novel);
        DistinctConcat(WithSni(Some(SniPrimary(s)), novel), Later(s, w, f.(host := false), tried + novel));
      }
    } else if f.aliasAlternatives {
      if w.aliasAlternatives.Some? {
        var novel := NewIps(tried, Concat(w.aliasAlternatives.value));
        NewIpsFacts(tried, Concat(w.aliasAlternatives.value));
        ByIpFacts(SniCandidates(s), novel);
        LaterFacts(s, w, f.(aliasAlternatives := false), tried + novel);
        DistinctConcat(ByIp(SniCandidates(s), novel), Later(s, w, f.(aliasAlternatives := false), tried + novel));
      }
    } else if f.hostAlternatives {
      if w.hostAlternatives.Some? {
        NewIpsFacts(tried, Concat(w.hostAlternatives.value));
        WithSniFacts(Some(SniPrimary(s)), NewIps(tried, Concat(w.hostAlternatives.value)));
      }
    }
  }

  /** No attempt occurs twice in the plan. */
  lemma PlanIsDistinct(s: Setup, w: World, headers: seq<Header>)
    ensures Distinct(Plan(s, w, headers))
  {
    if w.aliasIps.Some? {
      var ips := w.aliasIps.value;
      var addrs := FirstAddresses(s, headers, ips);
      var tried := Tried(ips, addrs);
      var bare, first, later := NoSniStage(s, addrs), BySni(SniCandidates(s), addrs), Later(s, w, InitialFlags(s), tried);
      FirstAddressesDistinct(s, headers, ips);
      NewIpsFacts(ips, addrs);
      WithSniFacts(None, addrs);
      SniCandidatesDistinct(s);
      BySniFacts(SniCandidates(s), addrs);
      LaterFacts(s, w, InitialFlags(s), tried);
      hide NewIps, FirstAddresses, WithSni, BySni, Later, SniCandidates;
      DistinctConcat(bare, first);
      DistinctConcat(bare + first, later);
    }
  }

  // ---------------------------------------------------------------- safety of every run

  /**
   Over every sequence of dial outcomes and DNS answers: no (name, address) pair is dialled twice, and a
   run that ends exhausted has dialled every pair the addresses allow, in plan order, without success.
   */
  lemma NoAttemptTwice(s: Setup, req: Request, w: World, trace: seq<Dial>, result: Result)
    requires Follows(Plan(s, w, req.headers), PlanTimesOut(s, w), MayRepeat(s, req), w.dial, trace, result)
    ensures Distinct(trace)
    ensures result == Exhausted ==> trace == Plan(s, w, req.headers)
    ensures result == Exhausted ==> forall k: nat :: k < |trace| ==> !Stops(MayRepeat(s, req), w.dial(k))
  {
    hide Plan, Stops, Verdict, PlanTimesOut;
    PlanIsDistinct(s, w, req.headers);
    assert forall i :: 0 <= i < |trace| ==> trace[i] == Plan(s, w, req.headers)[i];
    VerdictIsNotExhausted();
  }

  lemma VerdictIsNotExhausted()
    ensures forall d, o :: Verdict(d, o) != Exhausted
  {}

  /** What an exhausted run has covered, named by where each address came from. */
  lemma ExhaustedMeansEverythingTried(s: Setup, req: Request, w: World, trace: seq<Dial>, ip: Ip, sni: string)
    requires Follows(Plan(s, w, req.headers), PlanTimesOut(s, w), MayRepeat(s, req), w.dial, trace, Exhausted)
    ensures w.aliasIps.Some?
    ensures ip in FirstAddresses(s, req.headers, w.aliasIps.value) && sni in SniCandidates(s) ==> Dial(Some(sni), ip) in trace
    ensures InitialFlags(s).host ==> w.hostIps.Some?
    ensures InitialFlags(s).host && ip in w.hostIps.value ==> ip in w.aliasIps.value || (exists d :: d in trace && d.ip == ip)
  {
    hide Stops, Verdict, FirstAddresses, NewIps;
    VerdictIsNotExhausted();
    assert !PlanTimesOut(s, w) && trace == Plan(s, w, req.headers);
    var ips := w.aliasIps.value;
    var addrs := FirstAddresses(s, req.headers, ips);
    var first := BySni(SniCandidates(s), addrs);
    BySniFacts(SniCandidates(s), addrs);
    var f, tried := InitialFlags(s), Tried(ips, addrs);
    var later := Later(s, w, f, tried);
    assert forall d :: d in first || d in later ==> d in trace;
    if f.host && ip in w.hostIps.value && ip !in ips {
      NewIpsFacts(ips, addrs);
      var novel := NewIps(tried, w.hostIps.value);
      NewIpsFacts(tried, w.hostIps.value);
      WithSniFacts(Some(SniPrimary(s)), novel);
      if ip in tried {
        assert Dial(Some(SniPrimary(s)), ip) in first;
      } else {
        assert Dial(Some(SniPrimary(s)), ip) in WithSni(Some(SniPrimary(s)), novel);
      }
    }
  }

  lemma PrefixMember(early: seq<Dial>, later: seq<Dial>, trace: seq<Dial>, k: nat)
    requires trace <= early + later && k < |trace| && k < |early|
    ensures trace[k] in early
  {
    assert trace[k] == (early + later)[k] == early[k];
  }

  /** The host's own addresses, and all later ones, come only after every address of the alias was tried in vain. */
  lemma AliasAddressesFirst(s: Setup, req: Request, w: World, trace: seq<Dial>, result: Result, k: nat)
    requires Follows(Plan(s, w, req.headers), PlanTimesOut(s, w), MayRepeat(s, req), w.dial, trace, result)
    requires k < |trace| && w.aliasIps.Some? && trace[k].ip !in Tried(w.aliasIps.value, FirstAddresses(s, req.headers, w.aliasIps.value))
    ensures var addrs := FirstAddresses(s, req.headers, w.aliasIps.value);
            NoSniStage(s, addrs) + BySni(SniCandidates(s), addrs) <= trace[..k]
    ensures forall j: nat :: j < k ==> !Stops(MayRepeat(s, req), w.dial(j))
  {
    hide Stops, Verdict, FirstAddresses, NewIps, Later;
    var ips := w.aliasIps.value;
    var addrs := FirstAddresses(s, req.headers, ips);
    var early := NoSniStage(s, addrs) + BySni(SniCandidates(s), addrs);
    WithSniFacts(None, addrs);
    BySniFacts(SniCandidates(s), addrs);
    NewIpsFacts(ips, addrs);
    assert forall d :: d in early ==> d.ip in addrs;
    if k < |early| {
      PrefixMember(early, Later(s, w, InitialFlags(s), Tried(ips, addrs)), trace, k);
    }
    assert trace[..k] == Plan(s, w, req.headers)[..k];
  }

  // ---------------------------------------------------------------- a request that must not be repeated

  /** Whether the request may have reached the upstream in an attempt that ended like this. */
  predicate MayBeWritten(o: Outcome) {
    o.WriteFailed? || o.NoResponse? || o.Answer? || (o.OutOfTime? && o.written)
  }

  function Writes(dial: nat -> Outcome, n: nat): nat {
    if n == 0 then 0 else Writes(dial, n - 1) + if MayBeWritten(dial(n - 1)) then 1 else 0
  }

  lemma {:induction false} NoWritesBeforeStop(dial: nat -> Outcome, n: nat)
    requires Unstopped(false, dial, n)
    ensures Writes(dial, n) == 0
  {
    if n > 0 {
      NoWritesBeforeStop(dial, n - 1);
      assert !Stops(false, dial(n - 1));
    }
  }

  /** Methods that are raced are exactly safe ones, so what may not be repeated is never raced. */
  lemma RacedIsRepeatable(s: Setup, req: Request)
    ensures HedgePath(s, req) ==> MayRepeat(s, req)
  {
    if RaceSafe(req.verb) {
      assert Upper(req.verb) !in {"POST", "PATCH"} by {
        RaceSafeIsNotPost(Upper(req.verb));
      }
    }
  }

  lemma RaceSafeIsNotPost(verb: string)
    requires verb in {"GET", "HEAD", "OPTIONS", "TRACE"}
    ensures verb !in {"POST", "PATCH"}
  {
    assert verb[0] != 'P';
  }

  /**
   A request that may not be repeated is written on at most one connection of its dial run, whatever
   the outcomes; and it is never raced.
   */
  lemma WrittenAtMostOnce(s: Setup, req: Request, w: World, trace: seq<Dial>, result: Result)
    requires !MayRepeat(s, req)
    ensures !HedgePath(s, req)
    ensures Follows(Plan(s, w, req.headers), PlanTimesOut(s, w), MayRepeat(s, req), w.dial, trace, result)
            ==> Writes(w.dial, |trace|) <= 1
  {
    hide Plan, PlanTimesOut, Verdict, MayRepeat, HedgePath, Stops;
    RacedIsRepeatable(s, req);
    if Follows(Plan(s, w, req.headers), PlanTimesOut(s, w), MayRepeat(s, req), w.dial, trace, result) && trace != [] {
      NoWritesBeforeStop(w.dial, |trace| - 1);
    }
  }

  // ---------------------------------------------------------------- reusing an idle connection

  /** How the exchange on an idle connection ends: a head, with or without a first body byte, or nothing. */
  datatype Reuse = NoIdleConnection | Head(head: R.ResponseHead, byteArrived: bool) | Failed

  /** Whether the answer on the idle connection is the one the client gets. */
  predicate Serves(repeat: bool, verb: string, head: R.ResponseHead, byteArrived: bool) {
    && !(repeat && Upstream.RetryableStatus(head.status))
    && ((Upstream.NeedsProbe(head, verb) && byteArrived) || !Upstream.ResponseHasBody(head, verb))
  }

  /** Whether the dial run follows the attempt on the idle connection. */
  predicate DialsAfter(repeat: bool, verb: string, reuse: Reuse) {
    match reuse
    case NoIdleConnection => true
    case Head(head, byteArrived) => !Serves(repeat, verb, head, byteArrived)
    case Failed => repeat
  }

  /**
   When an idle connection was tried, dialling goes on unless its answer is handed to the client - an answer
   without a body, or one whose body started, that is no gateway error a repeatable request could avoid - or a
   request that must not be repeated may have reached the upstream.
   */
  lemma DialsAfterReuse(repeat: bool, verb: string, reuse: Reuse)
    ensures DialsAfter(repeat, verb, NoIdleConnection)
    ensures DialsAfter(repeat, verb, Failed) <==> repeat
    ensures reuse.Head? ==>
              var status, bodyless := reuse.head.status, !Upstream.ResponseHasBody(reuse.head, verb);
              var gateway := status in {500, 502, 503, 504};
              (DialsAfter(repeat, verb, reuse) <==> (repeat && gateway) || (!bodyless && (gateway || !reuse.byteArrived)))
  {
    hide Upstream.ResponseHasBody;
  }

  function AllWrites(repeat: bool, verb: string, reuse: Reuse, dial: nat -> Outcome, n: nat): nat {
    (if reuse == NoIdleConnection then 0 else 1) + (if DialsAfter(repeat, verb, reuse) then Writes(dial, n) else 0)
  }

  /** A head with a body that the probe does not vouch for: no byte came, or its gateway status skipped the probe. */
  predicate Unvouched(verb: string, reuse: Reuse) {
    reuse.Head? && Upstream.ResponseHasBody(reuse.head, verb)
    && (!reuse.byteArrived || Upstream.RetryableStatus(reuse.head.status))
  }

  /** The first attempt of the plan that gets a connection may get the request written. */
  ghost predicate PlanWrites(plan: seq<Dial>, dial: nat -> Outcome) {
    exists k: nat :: k < |plan| && Unstopped(false, dial, k) && MayBeWritten(dial(k))
  }

  /** A run that may not repeat the request writes it exactly when its plan and the outcomes say so. */
  lemma RunWritesIff(plan: seq<Dial>, timesOut: bool, dial: nat -> Outcome, trace: seq<Dial>, result: Result)
    requires Follows(plan, timesOut, false, dial, trace, result)
    ensures Writes(dial, |trace|) <= 1
    ensures Writes(dial, |trace|) == 1 <==> PlanWrites(plan, dial)
    ensures Writes(dial, |trace|) == 1 <==> trace != [] && dial(|trace| - 1) !in {ConnectFailed, OutOfTime(false)}
  {
    hide Verdict;
    if trace != [] {
      NoWritesBeforeStop(dial, |trace| - 1);
    }
    if k: nat :| k < |plan| && Unstopped(false, dial, k) && MayBeWritten(dial(k)) {
      StopsHere(plan, timesOut, dial, trace, result, k);
    }
  }

  lemma StopsHere(plan: seq<Dial>, timesOut: bool, dial: nat -> Outcome, trace: seq<Dial>, result: Result, k: nat)
    requires Follows(plan, timesOut, false, dial, trace, result)
    requires k < |plan| && Unstopped(false, dial, k) && Stops(false, dial(k))
    ensures |trace| == k + 1
  {
    hide Verdict;
    assert k + 1 < |trace| ==> !Stops(false, dial(k));
  }

  /**
   Counting the idle connection too, a request that may not be repeated is written more than once
   exactly when the idle connection answered with an unvouched body and the first attempt that then
   gets a connection gets the request written.
   */
  lemma WrittenTwiceIffUnvouched(s: Setup, req: Request, w: World, reuse: Reuse, trace: seq<Dial>, result: Result)
    requires !MayRepeat(s, req)
    requires Follows(Plan(s, w, req.headers), PlanTimesOut(s, w), false, w.dial, trace, result)
    ensures AllWrites(false, req.verb, reuse, w.dial, |trace|) <= 1
       <==> !(Unvouched(req.verb, reuse) && PlanWrites(Plan(s, w, req.headers), w.dial))
  {
    hide Plan, PlanTimesOut, Follows, MayRepeat, Writes, PlanWrites, Upstream.ResponseHasBody, Upstream.RetryableStatus;
    RunWritesIff(Plan(s, w, req.headers), PlanTimesOut(s, w), w.dial, trace, result);
  }

  /** Whatever the world does, every run writes the request at most once in all. */
  ghost predicate NeverTwice(s: Setup, req: Request, reuse: Reuse) {
    forall w: World, trace: seq<Dial>, result: Result ::
      Follows(Plan(s, w, req.headers), PlanTimesOut(s, w), false, w.dial, trace, result)
      ==> AllWrites(false, req.verb, reuse, w.dial, |trace|) <= 1
  }

  /** The guard that decides it: a request that may not be repeated is safe in every world exactly if its body is vouched for. */
  lemma NeverTwiceIffVouched(s: Setup, req: Request, reuse: Reuse)
    requires !MayRepeat(s, req)
    ensures NeverTwice(s, req, reuse) <==> !Unvouched(req.verb, reuse)
  {
    hide Plan, PlanTimesOut, Follows, MayRepeat, AllWrites, PlanWrites, Unvouched;
    if Unvouched(req.verb, reuse) {
      var w, trace, result := SomeRunWrites(s, req);
      WrittenTwiceIffUnvouched(s, req, w, reuse, trace, result);
    } else {
      forall w: World, trace: seq<Dial>, result: Result
        | Follows(Plan(s, w, req.headers), PlanTimesOut(s, w), false, w.dial, trace, result)
        ensures AllWrites(false, req.verb, reuse, w.dial, |trace|) <= 1
      {
        WrittenTwiceIffUnvouched(s, req, w, reuse, trace, result);
      }
    }
  }

  /** Every setup has a world whose first attempt is answered. */
  lemma SomeRunWrites(s: Setup, req: Request) returns (w: World, trace: seq<Dial>, result: Result)
    ensures Follows(Plan(s, w, req.headers), PlanTimesOut(s, w), false, w.dial, trace, result)
    ensures PlanWrites(Plan(s, w, req.headers), w.dial)
  {
    hide FirstAddresses, Later, NoSniStage, PlanTimesOut, Tried;
    var ip := V4(1, 2, 3, 4);
    w := World(Some([ip]), None, None, None, k => Answer(200));
    var plan := Plan(s, w, req.headers);
    SomeFirstAddress(s, req.headers, ip);
    SomeAttempt(SniCandidates(s), FirstAddresses(s, req.headers, [ip]));
    trace, result := plan[..1], Adopted(plan[0], 200);
    assert Unstopped(false, w.dial, 0) && MayBeWritten(w.dial(0));
  }

  lemma SomeFirstAddress(s: Setup, headers: seq<Header>, ip: Ip)
    ensures FirstAddresses(s, headers, [ip]) != []
  {
    hide Stateful, GithubFallback, NewIps, Without;
    NewIpsFacts([], s.preferred + [ip]);
    assert ip in s.preferred + [ip];
  }

  lemma SomeAttempt(snis: seq<string>, ips: seq<Ip>)
    requires snis != [] && ips != []
    ensures BySni(snis, ips) != []
  {
    assert WithSni(Some(snis[0]), ips) != [];
  }

  /** A form post answered with a gateway error on an idle connection, then posted again on a new one. */
  lemma PostWrittenTwice()
    ensures var s := Setup("a.com", "a.com", false, false, None, false, [], None);
            var req := Request("POST", "/form", [], "");
            var w := World(Some([V4(1, 2, 3, 4)]), None, None, None, k => Answer(200));
            var trace := [Dial(Some("a.com"), V4(1, 2, 3, 4))];
            !MayRepeat(s, req)
            && Follows(Plan(s, w, req.headers), PlanTimesOut(s, w), false, w.dial, trace, Adopted(trace[0], 200))
            && AllWrites(false, "POST", Head(R.ResponseHead(503, "", []), true), w.dial, |trace|) == 2
  {
    var s := Setup("a.com", "a.com", false, false, None, false, [], None);
    var ip := V4(1, 2, 3, 4);
    var w := World(Some([ip]), None, None, None, k => Answer(200));
    assert [] + [ip] == [ip] && [ip][1..] == [];
    assert NewIps([], [ip]) == [ip] + NewIps([ip], []);
    assert !Stateful([]);
    assert FirstAddresses(s, [], [ip]) == [ip];
    assert SniCandidates(s) == ["a.com"] && ["a.com"][1..] == [];
    var d := Dial(Some("a.com"), ip);
    assert WithSni(Some("a.com"), []) == [] && [d] + [] == [d];
    assert WithSni(Some("a.com"), [ip]) == [d];
    assert BySni(["a.com"], [ip]) == [d];
    assert Plan(s, w, []) == [d];
    assert Writes(w.dial, 1) == 1;
    assert ContentLength([]) == None && Lower("POST")[0] == 'p';
  }
}
