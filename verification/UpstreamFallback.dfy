/**
 The upstream phase of one request: which endpoints are dialled, in which order, and when the run
 stops. Dial outcomes and DNS answers are an arbitrary `World`.
 */
module UpstreamFallback {
  import opened Sequences
  import opened Text
  import opened Http1
  import Upstream

  datatype Ip = V4(a: nat, b: nat, c: nat, d: nat) | V6(segments: seq<nat>)

  const UNSPECIFIED := V4(0, 0, 0, 0)

  const GITHUB_WEB_FALLBACK_IPS := [
    V4(20, 27, 177, 113), V4(20, 200, 245, 247), V4(20, 233, 83, 145), V4(20, 205, 243, 166),
    V4(20, 201, 28, 151), V4(20, 207, 73, 82), V4(20, 248, 137, 48), V4(20, 26, 156, 215),
    V4(140, 82, 113, 4), V4(140, 82, 121, 4), V4(140, 82, 112, 4), V4(140, 82, 114, 4)]

  // ---------------------------------------------------------------- the request

  /** Whether a written request may be sent again to another endpoint. */
  predicate RetryableResponse(verb: string, path: string) {
    Upper(verb) !in {"POST", "PATCH"}
    || "/git-upload-pack" <= path || "/git-receive-pack" <= path || Contains(path, "/info/refs")
  }

  predicate RaceSafe(verb: string) {
    Upper(verb) in {"GET", "HEAD", "OPTIONS", "TRACE"}
  }

  /** An authenticated request, by its cookies. */
  predicate Stateful(headers: seq<Header>) {
    Announces(headers, "cookie", "logged_in=yes") || Announces(headers, "cookie", "user_session=")
  }

  // ---------------------------------------------------------------- the surroundings

  datatype Setup = Setup(
    host: string, connectHost: string, accelerated: bool, agentOn: bool, fakeName: Option<string>,
    noSniConnector: bool, preferred: seq<Ip>, lastGood: Option<Ip>)

  /** How one endpoint attempt ends; OutOfTime is the overall budget running out in its middle. */
  datatype Outcome = ConnectFailed | WriteFailed | NoResponse | Answer(status: nat) | OutOfTime(written: bool)

  /** Everything outside: DNS answers (None when the budget runs out in the lookup) and dial outcomes. */
  datatype World = World(
    aliasIps: Option<seq<Ip>>, hostIps: Option<seq<Ip>>,
    aliasAlternatives: Option<seq<seq<Ip>>>, hostAlternatives: Option<seq<seq<Ip>>>,
    dial: nat -> Outcome)

  /** One attempt: the name shown to the upstream, if any, and the address dialled. */
  datatype Dial = Dial(sni: Option<string>, ip: Ip)

  datatype Result =
    | Adopted(dialled: Dial, status: nat)
    | Unanswered
    | Exhausted
    | OutOfBudget

  // ---------------------------------------------------------------- address lists

  /** The members of `ips` not seen before, each once, in order. */
  function NewIps(known: seq<Ip>, ips: seq<Ip>): seq<Ip>
    decreases |ips|
  {
    if ips == [] then []
    else if ips[0] in known then NewIps(known, ips[1..])
    else [ips[0]] + NewIps(known + [ips[0]], ips[1..])
  }

  function Concat(lists: seq<seq<Ip>>): seq<Ip> {
    if lists == [] then [] else lists[0] + Concat(lists[1..])
  }

  function Without(ips: seq<Ip>, ip: Ip): seq<Ip> {
    if ips == [] then [] else (if ips[0] == ip then [] else [ips[0]]) + Without(ips[1..], ip)
  }

  function GithubFallback(host: string): seq<Ip> {
    if host == "github.com" || EndsWith(host, ".github.com") then GITHUB_WEB_FALLBACK_IPS else []
  }

  function SniPrimary(s: Setup): string {
    if s.fakeName.Some? then s.fakeName.value else s.host
  }

  function SniCandidates(s: Setup): seq<string> {
    if s.connectHost == SniPrimary(s) then [SniPrimary(s)] else [SniPrimary(s), s.connectHost]
  }

  /** The endpoints offered first, in order. */
  function FirstAddresses(s: Setup, headers: seq<Header>, ips: seq<Ip>): seq<Ip> {
    var offered := NewIps([], s.preferred + ips);
    var ordered := if s.accelerated && s.lastGood.Some? then [s.lastGood.value] + Without(offered, s.lastGood.value) else offered;
    var addrs := if s.agentOn then [UNSPECIFIED] else ordered;
    if Stateful(headers) && s.accelerated && !s.agentOn then addrs + NewIps(addrs, GithubFallback(s.host)) else addrs
  }

  function Tried(ips: seq<Ip>, addrs: seq<Ip>): seq<Ip> {
    ips + NewIps(ips, addrs)
  }

  // ---------------------------------------------------------------- the plan

  function WithSni(sni: Option<string>, ips: seq<Ip>): seq<Dial> {
    if ips == [] then [] else [Dial(sni, ips[0])] + WithSni(sni, ips[1..])
  }

  /** Every address under the first name, then every address under the next. */
  function BySni(snis: seq<string>, ips: seq<Ip>): seq<Dial> {
    if snis == [] then [] else WithSni(Some(snis[0]), ips) + BySni(snis[1..], ips)
  }

  function WithIp(snis: seq<string>, ip: Ip): seq<Dial> {
    if snis == [] then [] else [Dial(Some(snis[0]), ip)] + WithIp(snis[1..], ip)
  }

  /** Every name at the first address, then every name at the next. */
  function ByIp(snis: seq<string>, ips: seq<Ip>): seq<Dial> {
    if ips == [] then [] else WithIp(snis, ips[0]) + ByIp(snis, ips[1..])
  }

  /** The one-shot fallbacks still open. */
  datatype Flags = Flags(host: bool, aliasAlternatives: bool, hostAlternatives: bool) {
    function Open(): nat {
      (if host then 1 else 0) + (if aliasAlternatives then 1 else 0) + (if hostAlternatives then 1 else 0)
    }
  }

  function InitialFlags(s: Setup): Flags {
    Flags(!s.agentOn && s.connectHost != s.host, !s.agentOn && s.accelerated,
          !s.agentOn && s.accelerated && s.connectHost != s.host)
  }

  /** The attempts the open fallbacks will still add, when `tried` are the addresses known by then. */
  function Later(s: Setup, w: World, f: Flags, tried: seq<Ip>): seq<Dial>
    decreases f.Open()
  {
    if f.host then
      if w.hostIps == None then []
      else
        var novel := NewIps(tried, w.hostIps.value);
        WithSni(Some(SniPrimary(s)), novel) + Later(s, w, f.(host := false), tried + novel)
    else if f.aliasAlternatives then
      if w.aliasAlternatives == None then []
      else
        var novel := NewIps(tried, Concat(w.aliasAlternatives.value));
        ByIp(SniCandidates(s), novel) + Later(s, w, f.(aliasAlternatives := false), tried + novel)
    else if f.hostAlternatives then
      if w.hostAlternatives == None then []
      else WithSni(Some(SniPrimary(s)), NewIps(tried, Concat(w.hostAlternatives.value)))
    else []
  }

  /** Whether the budget runs out in one of the lookups the open fallbacks make. */
  predicate LookupTimesOut(w: World, f: Flags) {
    || (f.host && w.hostIps == None)
    || (f.aliasAlternatives && w.aliasAlternatives == None)
    || (f.hostAlternatives && w.hostAlternatives == None)
  }

  function NoSniStage(s: Setup, addrs: seq<Ip>): seq<Dial> {
    if s.accelerated && s.fakeName == None && s.noSniConnector then WithSni(None, addrs) else []
  }

  /** Every attempt of a run that nothing stops, in order. */
  function Plan(s: Setup, w: World, headers: seq<Header>): seq<Dial> {
    if w.aliasIps == None then []
    else
      var addrs := FirstAddresses(s, headers, w.aliasIps.value);
      NoSniStage(s, addrs) + BySni(SniCandidates(s), addrs) + Later(s, w, InitialFlags(s), Tried(w.aliasIps.value, addrs))
  }

  predicate PlanTimesOut(s: Setup, w: World) {
    w.aliasIps == None || LookupTimesOut(w, InitialFlags(s))
  }

  // ---------------------------------------------------------------- when a run stops

  /** Whether a request may be repeated after it was written, for this host. */
  predicate MayRepeat(s: Setup, req: Request) {
    s.accelerated && RetryableResponse(req.verb, req.path)
  }

  /** The outcome after which no other endpoint is tried. */
  predicate Stops(repeat: bool, o: Outcome) {
    match o
    case ConnectFailed => false
    case WriteFailed => !repeat
    case NoResponse => !repeat
    case Answer(status) => !(repeat && Upstream.RetryableStatus(status))
    case OutOfTime(_) => true
  }

  /** What the outcome of the last attempt means for the run. */
  function Verdict(d: Dial, o: Outcome): Result {
    match o
    case Answer(status) => Adopted(d, status)
    case OutOfTime(_) => OutOfBudget
    case _ => Unanswered
  }

  /** The run a plan gives: it follows the plan and stops at the first outcome that stops it. */
  ghost predicate Follows(plan: seq<Dial>, timesOut: bool, repeat: bool, dial: nat -> Outcome,
                          trace: seq<Dial>, result: Result)
  {
    && trace <= plan
    && (forall k: nat :: k + 1 < |trace| ==> !Stops(repeat, dial(k)))
    && if trace != [] && Stops(repeat, dial(|trace| - 1))
       then result == Verdict(trace[|trace| - 1], dial(|trace| - 1))
       else trace == plan && result == if timesOut then OutOfBudget else Exhausted
  }

  /** A run that dials the plan of this request. */
  ghost predicate Dialled(s: Setup, req: Request, w: World, trace: seq<Dial>, result: Result) {
    Follows(Plan(s, w, req.headers), PlanTimesOut(s, w), MayRepeat(s, req), w.dial, trace, result)
  }

  /** Requests that are raced instead of dialled one by one. */
  predicate HedgePath(s: Setup, req: Request) {
    s.accelerated && !s.agentOn && !Stateful(req.headers) && RaceSafe(req.verb)
  }

  // ---------------------------------------------------------------- collecting addresses

  /** Append the addresses not known yet, as the candidate and fallback loops do. */
  method CollectNew(known: seq<Ip>, ips: seq<Ip>) returns (novel: seq<Ip>)
    ensures novel == NewIps(known, ips)
  {
    novel := [];
    assert known + [] == known;
    for i := 0 to |ips|
      invariant novel + NewIps(known + novel, ips[i..]) == NewIps(known, ips)
    {
      assert ips[i..][1..] == ips[i + 1..];
      if ips[i] !in known && ips[i] !in novel {
        assert known + novel + [ips[i]] == known + (novel + [ips[i]]);
        assert novel + ([ips[i]] + NewIps(known + (novel + [ips[i]]), ips[i + 1..]))
            == novel + [ips[i]] + NewIps(known + (novel + [ips[i]]), ips[i + 1..]);
        novel := novel + [ips[i]];
      }
    }
  }

  lemma {:induction false} NewIpsConcat(known: seq<Ip>, a: seq<Ip>, b: seq<Ip>)
    ensures NewIps(known, a + b) == NewIps(known, a) + NewIps(known + NewIps(known, a), b)
    decreases |a|
  {
    if a == [] {
      assert a + b == b && known + [] == known;
    } else {
      assert (a + b)[1..] == a[1..] + b;
      if a[0] in known {
        NewIpsConcat(known, a[1..], b);
      } else {
        NewIpsConcat(known + [a[0]], a[1..], b);
        assert known + [a[0]] + NewIps(known + [a[0]], a[1..]) == known + ([a[0]] + NewIps(known + [a[0]], a[1..]));
      }
    }
  }

  /** The distinct answers of several resolvers that are not excluded. */
  method ResolveAlternatives(answers: seq<seq<Ip>>, exclude: seq<Ip>) returns (out: seq<Ip>)
    ensures out == NewIps(exclude, Concat(answers))
  {
    hide NewIps, Concat;
    out := [];
    AnswersFrom(exclude, [], answers, 0);
    assert answers[0..] == answers && exclude + [] == exclude;
    for i := 0 to |answers|
      invariant out + NewIps(exclude + out, Concat(answers[i..])) == NewIps(exclude, Concat(answers))
    {
      AnswersFrom(exclude, out, answers, i);
      var novel := CollectNew(exclude + out, answers[i]);
      out := out + novel;
    }
    NoAnswersLeft(exclude, out, answers);
  }

  /** What the next resolver adds. */
  lemma AnswersFrom(exclude: seq<Ip>, out: seq<Ip>, answers: seq<seq<Ip>>, i: nat)
    requires i <= |answers|
    ensures i < |answers| ==>
      var novel := NewIps(exclude + out, answers[i]);
      out + NewIps(exclude + out, Concat(answers[i..]))
        == out + novel + NewIps(exclude + (out + novel), Concat(answers[i + 1..]))
    ensures [] + NewIps(exclude, Concat(answers)) == NewIps(exclude, Concat(answers))
  {
    if i < |answers| {
      var novel, rest := NewIps(exclude + out, answers[i]), Concat(answers[i + 1..]);
      assert answers[i..][1..] == answers[i + 1..];
      assert Concat(answers[i..]) == answers[i] + rest;
      hide NewIps, Concat;
      NewIpsConcat(exclude + out, answers[i], rest);
      Associate(exclude, out, novel);
      Associate(out, novel, NewIps(exclude + out + novel, rest));
    }
  }

  lemma NoAnswersLeft(exclude: seq<Ip>, out: seq<Ip>, answers: seq<seq<Ip>>)
    ensures out + NewIps(exclude + out, Concat(answers[|answers|..])) == out
  {}

  /** The first addresses: configured, then resolved, the last good one in front. */
  method OrderAddresses(s: Setup, headers: seq<Header>, ips: seq<Ip>) returns (addrs: seq<Ip>)
    ensures addrs == FirstAddresses(s, headers, ips)
  {
    addrs := CollectNew([], s.preferred + ips);
    if s.accelerated && s.lastGood.Some? {
      var good := s.lastGood.value;
      addrs := [good] + Without(addrs, good);
    }
    if s.agentOn {
      addrs := [UNSPECIFIED];
    }
    if Stateful(headers) && s.accelerated && !s.agentOn {
      var more := CollectNew(addrs, GithubFallback(s.host));
      addrs := addrs + more;
    }
  }

  // ---------------------------------------------------------------- the run

  /** Nothing has stopped the run within `n` attempts. */
  ghost predicate Unstopped(repeat: bool, dial: nat -> Outcome, n: nat) {
    forall k: nat :: k < n ==> !Stops(repeat, dial(k))
  }

  method NoSniRun(s: Setup, w: World, repeat: bool, addrs: seq<Ip>) returns (stopped: Option<Result>, trace: seq<Dial>)
    ensures trace <= NoSniStage(s, addrs)
    ensures stopped == None ==> trace == NoSniStage(s, addrs) && Unstopped(repeat, w.dial, |trace|)
    ensures stopped.Some? ==> trace != [] && Unstopped(repeat, w.dial, |trace| - 1) && Stops(repeat, w.dial(|trace| - 1))
                              && stopped.value == Verdict(trace[|trace| - 1], w.dial(|trace| - 1))
  {
    trace := [];
    stopped := None;
    if s.accelerated && s.fakeName == None && s.noSniConnector {
      for i := 0 to |addrs|
        invariant |trace| == i && trace + WithSni(None, addrs[i..]) == WithSni(None, addrs)
        invariant Unstopped(repeat, w.dial, i)
      {
        var outcome := w.dial(i);
        assert addrs[i..][1..] == addrs[i + 1..];
        assert trace + ([Dial(None, addrs[i])] + WithSni(None, addrs[i + 1..]))
            == trace + [Dial(None, addrs[i])] + WithSni(None, addrs[i + 1..]);
        trace := trace + [Dial(None, addrs[i])];
        if Stops(repeat, outcome) {
          return Some(Verdict(trace[i], outcome)), trace;
        }
      }
    }
  }

  /** What one turn through the fallbacks leaves of the plan. */
  ghost predicate Opened(s: Setup, w: World, f: Flags, tried: seq<Ip>, more: seq<Dial>, f': Flags, tried': seq<Ip>) {
    && Later(s, w, f, tried) == more + Later(s, w, f', tried')
    && (LookupTimesOut(w, f') <==> LookupTimesOut(w, f))
    && f'.Open() <= f.Open()
  }

  /**
   Close fallbacks in order until one adds attempts or none is left: first the host's own addresses,
   then other resolvers' answers for the alias, then those for the host.
   */
  method OpenFallbacks(s: Setup, w: World, f: Flags, tried: seq<Ip>)
    returns (timedOut: bool, more: seq<Dial>, f': Flags, tried': seq<Ip>)
    ensures timedOut ==> Later(s, w, f, tried) == [] && LookupTimesOut(w, f)
    ensures !timedOut ==> Opened(s, w, f, tried, more, f', tried')
    ensures !timedOut ==> if more == [] then f'.Open() == 0 else f'.Open() < f.Open()
  {
    hide NewIps, Concat, WithSni, ByIp;
    timedOut, more, f', tried' := false, [], f, tried;
    assert [] + Later(s, w, f, tried) == Later(s, w, f, tried);
    if f'.host {
      if w.hostIps == None {
        return true, [], f', tried';
      }
      f' := f'.(host := false);
      var novel := CollectNew(tried', w.hostIps.value);
      more := ExpandWithSni(SniPrimary(s), novel);
      tried' := tried' + novel;
      if novel != [] {
        return;
      }
      assert [] + Later(s, w, f', tried') == Later(s, w, f', tried');
    }
    if f'.aliasAlternatives {
      if w.aliasAlternatives == None {
        return true, [], f', tried';
      }
      f' := f'.(aliasAlternatives := false);
      var novel := ResolveAlternatives(w.aliasAlternatives.value, tried');
      more := ExpandByIp(SniCandidates(s), novel);
      tried' := tried' + novel;
      if novel != [] {
        return;
      }
      assert [] + Later(s, w, f', tried') == Later(s, w, f', tried');
    }
    if f'.hostAlternatives {
      if w.hostAlternatives == None {
        return true, [], f', tried';
      }
      f' := f'.(hostAlternatives := false);
      var novel := ResolveAlternatives(w.hostAlternatives.value, tried');
      more := ExpandWithSni(SniPrimary(s), novel);
      tried' := tried' + novel;
      assert more + [] == more;
    }
  }

  /** The attempts known so far and those the open fallbacks will add make up the plan. */
  ghost predicate OnPlan(s: Setup, w: World, plan: seq<Dial>, before: seq<Dial>, attempts: seq<Dial>, f: Flags, tried: seq<Ip>) {
    && plan == before + attempts + Later(s, w, f, tried)
    && (LookupTimesOut(w, f) <==> LookupTimesOut(w, InitialFlags(s)))
  }

  /**
   The SNI loop: attempts in order; when they are used up, one fallback after the other. It ends
   because every turn uses up an attempt or closes a fallback.
   */
  method SniRun(s: Setup, w: World, repeat: bool, before: seq<Dial>, addrs: seq<Ip>, tried: seq<Ip>, ghost plan: seq<Dial>)
    returns (result: Result, trace: seq<Dial>)
    requires Unstopped(repeat, w.dial, |before|)
    requires plan == before + BySni(SniCandidates(s), addrs) + Later(s, w, InitialFlags(s), tried)
    ensures Follows(plan, LookupTimesOut(w, InitialFlags(s)), repeat, w.dial, trace, result)
  {
    hide Stops, Verdict, Later, LookupTimesOut, SniCandidates, BySni, WithSni, Follows;
    var attempts := ExpandBySni(SniCandidates(s), addrs);
    var triedIps := tried;
    var f := InitialFlags(s);
    var index := 0;
    trace := before;
    while true
      invariant 0 <= index <= |attempts| && trace == before + attempts[..index]
      invariant OnPlan(s, w, plan, before, attempts, f, triedIps)
      invariant Unstopped(repeat, w.dial, |trace|)
      decreases f.Open(), |attempts| - index
    {
      if index < |attempts| {
        var d := attempts[index];
        var outcome := w.dial(|trace|);
        TakeOne(before, attempts, index);
        index := index + 1;
        trace := trace + [d];
        TraceOnPlan(plan, before, attempts, index, Later(s, w, f, triedIps));
        if Stops(repeat, outcome) {
          FollowsToStop(plan, LookupTimesOut(w, InitialFlags(s)), repeat, w.dial, trace);
          return Verdict(d, outcome), trace;
        }
        continue;
      }
      assert attempts[..index] == attempts;
      var timedOut, more, f', tried' := OpenFallbacks(s, w, f, triedIps);
      if timedOut {
        NothingMore(before, attempts);
        FollowsToEnd(plan, true, repeat, w.dial);
        return OutOfBudget, trace;
      }
      Extend(before, attempts, more, Later(s, w, f', tried'));
      f, triedIps, attempts := f', tried', attempts + more;
      if more == [] {
        NothingMore([], attempts);
        break;
      }
    }
    NothingLeft(s, w, f, triedIps);
    NothingMore(before, attempts);
    FollowsToEnd(plan, false, repeat, w.dial);
    result := Exhausted;
  }

  lemma FollowsToStop(plan: seq<Dial>, timesOut: bool, repeat: bool, dial: nat -> Outcome, trace: seq<Dial>)
    requires trace <= plan && trace != [] && Unstopped(repeat, dial, |trace| - 1) && Stops(repeat, dial(|trace| - 1))
    ensures Follows(plan, timesOut, repeat, dial, trace, Verdict(trace[|trace| - 1], dial(|trace| - 1)))
  {}

  lemma FollowsToEnd(plan: seq<Dial>, timesOut: bool, repeat: bool, dial: nat -> Outcome)
    requires Unstopped(repeat, dial, |plan|)
    ensures Follows(plan, timesOut, repeat, dial, plan, if timesOut then OutOfBudget else Exhausted)
  {}

  lemma NothingMore<T>(a: seq<T>, b: seq<T>)
    ensures a + b + [] == a + b && b + [] == b && b[..|b|] == b
  {}

  lemma TakeOne(before: seq<Dial>, attempts: seq<Dial>, index: nat)
    requires index < |attempts|
    ensures before + attempts[..index] + [attempts[index]] == before + attempts[..index + 1]
  {}

  lemma NothingLeft(s: Setup, w: World, f: Flags, tried: seq<Ip>)
    requires f.Open() == 0
    ensures Later(s, w, f, tried) == [] && !LookupTimesOut(w, f)
  {}

  lemma Extend(before: seq<Dial>, attempts: seq<Dial>, more: seq<Dial>, rest: seq<Dial>)
    ensures before + attempts + (more + rest) == before + (attempts + more) + rest
    ensures (attempts + more)[..|attempts|] == attempts
  {}

  lemma TraceOnPlan(plan: seq<Dial>, before: seq<Dial>, attempts: seq<Dial>, n: nat, rest: seq<Dial>)
    requires plan == before + attempts + rest && n <= |attempts|
    ensures before + attempts[..n] <= plan
  {
    assert attempts == attempts[..n] + attempts[n..];
  }

  method ExpandWithSni(sni: string, ips: seq<Ip>) returns (out: seq<Dial>)
    ensures out == WithSni(Some(sni), ips)
    ensures |out| == |ips| && (ips == [] ==> out == [])
  {
    out := [];
    for i := 0 to |ips|
      invariant |out| == i && out + WithSni(Some(sni), ips[i..]) == WithSni(Some(sni), ips)
    {
      assert ips[i..][1..] == ips[i + 1..];
      assert out + ([Dial(Some(sni), ips[i])] + WithSni(Some(sni), ips[i + 1..]))
          == out + [Dial(Some(sni), ips[i])] + WithSni(Some(sni), ips[i + 1..]);
      out := out + [Dial(Some(sni), ips[i])];
    }
  }

  method ExpandBySni(snis: seq<string>, ips: seq<Ip>) returns (out: seq<Dial>)
    ensures out == BySni(snis, ips)
  {
    out := [];
    for i := 0 to |snis|
      invariant out + BySni(snis[i..], ips) == BySni(snis, ips)
    {
      assert snis[i..][1..] == snis[i + 1..];
      var part := ExpandWithSni(snis[i], ips);
      assert out + (part + BySni(snis[i + 1..], ips)) == out + part + BySni(snis[i + 1..], ips);
      out := out + part;
    }
  }

  method ExpandWithIp(snis: seq<string>, ip: Ip) returns (out: seq<Dial>)
    ensures out == WithIp(snis, ip) && |out| == |snis|
  {
    out := [];
    for j := 0 to |snis|
      invariant |out| == j && out + WithIp(snis[j..], ip) == WithIp(snis, ip)
    {
      assert snis[j..][1..] == snis[j + 1..];
      assert out + ([Dial(Some(snis[j]), ip)] + WithIp(snis[j + 1..], ip))
          == out + [Dial(Some(snis[j]), ip)] + WithIp(snis[j + 1..], ip);
      out := out + [Dial(Some(snis[j]), ip)];
    }
  }

  method ExpandByIp(snis: seq<string>, ips: seq<Ip>) returns (out: seq<Dial>)
    ensures out == ByIp(snis, ips)
    ensures snis != [] && ips != [] ==> out != []
    ensures ips == [] ==> out == []
  {
    hide WithIp, ByIp;
    out := [];
    assert ips[0..] == ips;
    for i := 0 to |ips|
      invariant out + ByIp(snis, ips[i..]) == ByIp(snis, ips)
      invariant snis != [] && i > 0 ==> out != []
      invariant i == 0 ==> out == []
    {
      var part := ExpandWithIp(snis, ips[i]);
      ByNextIp(snis, ips, i, out);
      out := out + part;
    }
    ByNoIp(snis, ips, out);
  }

  lemma ByNextIp(snis: seq<string>, ips: seq<Ip>, i: nat, out: seq<Dial>)
    requires i < |ips|
    ensures out + ByIp(snis, ips[i..]) == out + WithIp(snis, ips[i]) + ByIp(snis, ips[i + 1..])
  {
    hide WithIp;
    assert ips[i..][1..] == ips[i + 1..];
    Associate(out, WithIp(snis, ips[i]), ByIp(snis, ips[i + 1..]));
  }

  lemma ByNoIp(snis: seq<string>, ips: seq<Ip>, out: seq<Dial>)
    ensures out + ByIp(snis, ips[|ips|..]) == out
  {}

  /** The dial run of a request that is not raced. */
  method DialRun(s: Setup, req: Request, w: World) returns (result: Result, trace: seq<Dial>)
    requires !HedgePath(s, req)
    ensures Dialled(s, req, w, trace, result)
  {
    hide Stops, Verdict, FirstAddresses, Tried, Later;
    if w.aliasIps == None {
      return OutOfBudget, [];
    }
    var ips := w.aliasIps.value;
    var repeat := MayRepeat(s, req);
    var addrs := OrderAddresses(s, req.headers, ips);
    var novel := CollectNew(ips, addrs);
    var tried := ips + novel;
    assert tried == Tried(ips, addrs) by { TriedIs(ips, addrs); }
    var stopped, before := NoSniRun(s, w, repeat, addrs);
    ghost var plan := Plan(s, w, req.headers);
    assert plan == NoSniStage(s, addrs) + BySni(SniCandidates(s), addrs) + Later(s, w, InitialFlags(s), tried);
    if stopped.Some? {
      return stopped.value, before;
    }
    result, trace := SniRun(s, w, repeat, before, addrs, tried, plan);
  }

  lemma TriedIs(ips: seq<Ip>, addrs: seq<Ip>)
    ensures Tried(ips, addrs) == ips + NewIps(ips, addrs)
  {}
}
