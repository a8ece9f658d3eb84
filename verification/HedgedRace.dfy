/**
 The hedged race for one request: candidates are started on a timer, all published edges at once after
 a while, and the first usable answer wins. Timers, task completions and the deadline may come in any
 order the clocks allow.
 */
module HedgedRace {
  import opened Sequences
  import opened Text
  import opened Http1
  import opened UpstreamFallback
  import opened FallbackLaws
  import Upstream

  // Milliseconds since the race began.
  const HEDGE_DELAY := 600
  const HEDGE_FALLBACK_AFTER := 1500
  const HEDGE_BUDGET := 32_000
  const TICK_TOLERANCE := 5

  /** How many candidates there are. Tasks are numbered: the initial ones first, then the fallback ones. */
  datatype Field = Field(initial: nat, fallback: nat)

  datatype TaskEnd = Crashed | AttemptFailed | Answered(status: nat)

  predicate Good(end: TaskEnd) {
    end.Answered? && !Upstream.RetryableStatus(end.status)
  }

  datatype Event = Deadline | Tick | FallbackTimer | Joined(task: nat, end: TaskEnd)

  datatype Step = Step(at: nat, event: Event)

  datatype Race = Race(
    next: nat, fallbackStarted: bool, running: set<nat>, started: seq<nat>, finished: map<nat, TaskEnd>,
    clock: nat, tickDue: nat)

  function Start(f: Field): Race {
    Race(0, f.fallback == 0, {}, [], map[], 0, 0)
  }

  /** The loop condition: something is still to be started or awaited. */
  predicate Going(f: Field, r: Race) {
    r.next < f.initial || r.running != {} || !r.fallbackStarted
  }

  /** The branches of the select that may fire, and when. */
  predicate Enabled(f: Field, r: Race, s: Step) {
    && r.clock <= s.at
    && match s.event
       case Deadline => HEDGE_BUDGET <= s.at
       case Tick => r.next < f.initial && r.tickDue <= s.at
       case FallbackTimer => !r.fallbackStarted && HEDGE_FALLBACK_AFTER <= s.at
       case Joined(task, _) => task in r.running
  }

  predicate Ends(s: Step) {
    s.event == Deadline || (s.event.Joined? && Good(s.event.end))
  }

  function Fallbacks(f: Field): seq<nat> {
    seq(f.fallback, i requires 0 <= i => f.initial + i)
  }

  function Members(tasks: seq<nat>): set<nat> {
    set t | t in tasks
  }

  /** When the interval ticks next: a missed tick delays all later ones. */
  function NextTick(due: nat, at: nat): nat {
    if at > due + TICK_TOLERANCE then at + HEDGE_DELAY else due + HEDGE_DELAY
  }

  function Apply(f: Field, r: Race, s: Step): Race {
    match s.event
    case Deadline => r.(clock := s.at)
    case Tick =>
      r.(next := r.next + 1, running := r.running + {r.next}, started := r.started + [r.next],
         clock := s.at, tickDue := NextTick(r.tickDue, s.at))
    case FallbackTimer =>
      r.(fallbackStarted := true, running := r.running + Members(Fallbacks(f)),
         started := r.started + Fallbacks(f), clock := s.at)
    case Joined(task, end) =>
      r.(running := r.running - {task}, finished := r.finished[task := end], clock := s.at)
  }

  /** Nothing in these steps has ended the race. */
  predicate Open(steps: seq<Step>) {
    forall k :: 0 <= k < |steps| ==> !Ends(steps[k])
  }

  /** The steps of a run from `r`: only the last one may end the race. */
  predicate Run(f: Field, r: Race, steps: seq<Step>)
    decreases |steps|
  {
    if steps == [] then true
    else Going(f, r) && Enabled(f, r, steps[0])
         && if Ends(steps[0]) then |steps| == 1 else Run(f, Apply(f, r, steps[0]), steps[1..])
  }

  function After(f: Field, r: Race, steps: seq<Step>): Race
    decreases |steps|
  {
    if steps == [] then r else After(f, Apply(f, r, steps[0]), steps[1..])
  }

  // ---------------------------------------------------------------- what every run keeps

  ghost predicate Starts(f: Field, r: Race) {
    && r.next <= f.initial
    && Distinct(r.started)
    && |r.started| == r.next + (if r.fallbackStarted then f.fallback else 0)
    && forall t: nat :: t in r.started <==> t < r.next || (r.fallbackStarted && f.initial <= t < f.initial + f.fallback)
  }

  ghost predicate Tracks(r: Race) {
    && r.running !! r.finished.Keys
    && (forall t: nat :: t in r.started <==> t in r.running || t in r.finished)
    && (forall t :: t in r.finished ==> !Good(r.finished[t]))
  }

  predicate Timed(f: Field, r: Race) {
    && HEDGE_DELAY * r.next <= r.tickDue
    && (r.next > 0 ==> HEDGE_DELAY * (r.next - 1) <= r.clock)
    && (r.fallbackStarted && f.fallback > 0 ==> HEDGE_FALLBACK_AFTER <= r.clock)
  }

  /** Starts not made, plus tasks not finished: every step that does not end the race takes one away. */
  function ToDo(f: Field, r: Race): nat
    requires r.next <= f.initial
  {
    2 * (f.initial - r.next) + (if r.fallbackStarted then 0 else f.fallback + 1) + |r.running|
  }

  lemma FallbacksAreNew(f: Field)
    ensures Distinct(Fallbacks(f)) && |Fallbacks(f)| == f.fallback
    ensures forall t: nat :: t in Fallbacks(f) <==> f.initial <= t < f.initial + f.fallback
  {
    forall t: nat | f.initial <= t < f.initial + f.fallback ensures t in Fallbacks(f) {
      assert Fallbacks(f)[t - f.initial] == t;
    }
  }

  lemma StartsKept(f: Field, r: Race, s: Step)
    requires Starts(f, r) && Enabled(f, r, s)
    ensures Starts(f, Apply(f, r, s))
  {
    match s.event {
      case Tick => DistinctConcat(r.started, [r.next]);
      case FallbackTimer =>
        FallbacksAreNew(f);
        DistinctConcat(r.started, Fallbacks(f));
      case _ =>
    }
  }

  lemma TracksKept(f: Field, r: Race, s: Step)
    requires Starts(f, r) && Tracks(r) && Enabled(f, r, s) && !Ends(s)
    ensures Tracks(Apply(f, r, s))
  {
    FallbacksAreNew(f);
  }

  lemma TimedKept(f: Field, r: Race, s: Step)
    requires Timed(f, r) && Enabled(f, r, s)
    ensures Timed(f, Apply(f, r, s))
  {}

  lemma ToDoFalls(f: Field, r: Race, s: Step)
    requires Starts(f, r) && Tracks(r) && Enabled(f, r, s) && !Ends(s)
    ensures Apply(f, r, s).next <= f.initial
    ensures ToDo(f, Apply(f, r, s)) == ToDo(f, r) - 1
  {
    hide Starts, Tracks;
    assert r.next <= f.initial by { NextInRange(f, r); }
    match s.event {
      case Tick => NextIsFresh(f, r);
      case FallbackTimer => FallbackSize(f, r);
      case _ =>
    }
  }

  lemma NextInRange(f: Field, r: Race)
    requires Starts(f, r)
    ensures r.next <= f.initial
  {}

  lemma NextIsFresh(f: Field, r: Race)
    requires Starts(f, r) && Tracks(r) && r.next < f.initial
    ensures r.next !in r.running
  {}

  lemma FallbackSize(f: Field, r: Race)
    requires Starts(f, r) && Tracks(r) && !r.fallbackStarted
    ensures |r.running + Members(Fallbacks(f))| == |r.running| + f.fallback
  {
    FallbacksAreNew(f);
    var all := Members(Fallbacks(f));
    assert forall t :: t in r.running ==> t in r.started;
    assert r.running !! all;
    SizeOfDistinct(Fallbacks(f));
  }

  lemma {:induction false} SizeOfDistinct(s: seq<nat>)
    requires Distinct(s)
    ensures |Members(s)| == |s|
  {
    if s == [] {
      assert Members(s) == {};
    } else {
      var rest := s[1..];
      SizeOfDistinct(rest);
      assert s == [s[0]] + rest && s[0] !in rest;
      assert Members(s) == {s[0]} + Members(rest);
    }
  }

  ghost predicate Sound(f: Field, r: Race) {
    Starts(f, r) && Tracks(r) && Timed(f, r)
  }

  /** The invariant over a whole run, whatever the interleaving, up to the step that ends it. */
  lemma {:induction false} SoundAfter(f: Field, r: Race, steps: seq<Step>)
    requires Sound(f, r) && Run(f, r, steps)
    ensures Starts(f, After(f, r, steps)) && Timed(f, After(f, r, steps))
    ensures Open(steps) ==> Tracks(After(f, r, steps))
    ensures |steps| <= ToDo(f, r) + 1
    ensures Open(steps) ==> |steps| + ToDo(f, After(f, r, steps)) == ToDo(f, r)
    decreases |steps|
  {
    hide Starts, Tracks, Timed, Enabled, Ends, ToDo, Apply;
    NextInRange(f, r);
    if steps != [] {
      var r' := Apply(f, r, steps[0]);
      StartsKept(f, r, steps[0]);
      TimedKept(f, r, steps[0]);
      NextInRange(f, r');
      if Ends(steps[0]) {
        assert steps[1..] == [];
      } else {
        TracksKept(f, r, steps[0]);
        ToDoFalls(f, r, steps[0]);
        SoundAfter(f, r', steps[1..]);
        assert forall k :: 0 <= k < |steps[1..]| ==> steps[1..][k] == steps[k + 1];
        NextInRange(f, After(f, r, steps));
      }
    } else {
      assert After(f, r, steps) == r;
    }
  }

  /** Only the last step of a run may end it, and the run up to there is itself a run. */
  lemma {:induction false} OnlyLastEnds(f: Field, r: Race, steps: seq<Step>)
    requires Run(f, r, steps) && steps != []
    ensures var before := steps[..|steps| - 1];
            && Run(f, r, before)
            && Open(before)
            && Going(f, After(f, r, before)) && Enabled(f, After(f, r, before), steps[|steps| - 1])
            && After(f, r, steps) == Apply(f, After(f, r, before), steps[|steps| - 1])
    decreases |steps|
  {
    hide Going, Enabled, Ends, Apply;
    var before := steps[..|steps| - 1];
    if |steps| == 1 {
      assert before == [] && steps[1..] == [];
    } else {
      assert !Ends(steps[0]);
      OnlyLastEnds(f, Apply(f, r, steps[0]), steps[1..]);
      assert before[1..] == steps[1..][..|steps[1..]| - 1];
      assert forall k :: 0 < k < |before| ==> before[k] == before[1..][k - 1];
    }
  }

  /** Every recorded end was a completion in the run. */
  lemma {:induction false} FinishedWereJoined(f: Field, r: Race, steps: seq<Step>, task: nat)
    requires task in After(f, r, steps).finished && task !in r.finished
    ensures exists k :: 0 <= k < |steps| && steps[k].event == Joined(task, After(f, r, steps).finished[task])
    decreases |steps|
  {
    var last := steps[|steps| - 1];
    var before := steps[..|steps| - 1];
    AfterLast(f, r, steps);
    if last.event.Joined? && last.event.task == task {
      assert steps[|steps| - 1].event == Joined(task, After(f, r, steps).finished[task]);
    } else {
      FinishedWereJoined(f, r, before, task);
    }
  }

  lemma {:induction false} AfterLast(f: Field, r: Race, steps: seq<Step>)
    requires steps != []
    ensures After(f, r, steps) == Apply(f, After(f, r, steps[..|steps| - 1]), steps[|steps| - 1])
    decreases |steps|
  {
    hide Apply;
    if |steps| == 1 {
      assert steps[..0] == [] && steps[1..] == [];
    } else {
      AfterLast(f, Apply(f, r, steps[0]), steps[1..]);
      assert steps[1..][..|steps[1..]| - 1] == steps[..|steps| - 1][1..];
    }
  }

  // ---------------------------------------------------------------- the promises of the race

  lemma StartIsSound(f: Field)
    ensures Sound(f, Start(f)) && ToDo(f, Start(f)) <= 2 * f.initial + f.fallback + 1
  {}

  /** Under every interleaving, each candidate is started at most once, and no earlier than the timers allow. */
  lemma StartedAtMostOnce(f: Field, steps: seq<Step>)
    requires Run(f, Start(f), steps)
    ensures var r := After(f, Start(f), steps);
            && Distinct(r.started)
            && (forall t :: t in r.started ==> t < f.initial + f.fallback)
            && (r.clock < HEDGE_FALLBACK_AFTER ==> HEDGE_DELAY * (|r.started| - 1) <= r.clock)
            && |steps| <= 2 * f.initial + f.fallback + 2
  {
    StartIsSound(f);
    SoundAfter(f, Start(f), steps);
  }

  /** The answer returned is usable, comes from a started candidate, and is the first usable one to arrive. */
  lemma WinnerIsFirstUsable(f: Field, steps: seq<Step>)
    requires Run(f, Start(f), steps) && steps != [] && steps[|steps| - 1].event.Joined?
    requires Ends(steps[|steps| - 1])
    ensures var last := steps[|steps| - 1].event;
            && last.end.Answered? && last.end.status !in {500, 502, 503, 504}
            && last.task in After(f, Start(f), steps[..|steps| - 1]).started
            && forall k :: 0 <= k < |steps| - 1 ==> !(steps[k].event.Joined? && Good(steps[k].event.end))
  {
    var before := steps[..|steps| - 1];
    OnlyLastEnds(f, Start(f), steps);
    StartIsSound(f);
    SoundAfter(f, Start(f), before);
    forall k | 0 <= k < |steps| - 1
      ensures !(steps[k].event.Joined? && Good(steps[k].event.end))
    {
      assert before[k] == steps[k] && !Ends(before[k]);
    }
  }

  /** Giving up without reaching the deadline means that every candidate was started, has finished, and was no use. */
  lemma GivesUpWhenAllFailed(f: Field, steps: seq<Step>, task: nat)
    requires Run(f, Start(f), steps) && !Going(f, After(f, Start(f), steps))
    requires Open(steps)
    requires task < f.initial + f.fallback
    ensures exists k :: 0 <= k < |steps| && steps[k].event.Joined? && steps[k].event.task == task && !Good(steps[k].event.end)
    ensures |steps| == ToDo(f, Start(f))
  {
    var r := After(f, Start(f), steps);
    StartIsSound(f);
    SoundAfter(f, Start(f), steps);
    assert task in r.started && task in r.finished;
    FinishedWereJoined(f, Start(f), steps, task);
    assert |steps| + ToDo(f, r) == ToDo(f, Start(f)) && ToDo(f, r) == 0;
  }

  /**
   How a race can go on, in milliseconds since it began: the deadline from 32000 on, the next candidate when it
   is due, the published edges once from 1500 on, and the end of any task that runs.
   */
  lemma NextStepIff(f: Field, steps: seq<Step>, s: Step)
    requires Run(f, Start(f), steps) && Open(steps)
    ensures var r := After(f, Start(f), steps);
            Run(f, Start(f), steps + [s]) <==>
              && (r.next < f.initial || r.running != {} || !r.fallbackStarted) && r.clock <= s.at
              && match s.event
                 case Deadline => s.at >= 32_000
                 case Tick => r.next < f.initial && s.at >= r.tickDue
                 case FallbackTimer => !r.fallbackStarted && s.at >= 1500
                 case Joined(task, _) => task in r.running
  {
    StepIff(f, Start(f), steps, s);
  }

  lemma {:induction false} StepIff(f: Field, r: Race, steps: seq<Step>, s: Step)
    requires Run(f, r, steps) && Open(steps)
    ensures Run(f, r, steps + [s]) <==> Going(f, After(f, r, steps)) && Enabled(f, After(f, r, steps), s)
    decreases |steps|
  {
    hide Going, Enabled, Apply;
    if steps == [] {
      assert steps + [s] == [s] && [s][1..] == [];
    } else {
      assert (steps + [s])[1..] == steps[1..] + [s];
      assert !Ends(steps[0]);
      assert forall k :: 0 <= k < |steps[1..]| ==> steps[1..][k] == steps[k + 1];
      StepIff(f, Apply(f, r, steps[0]), steps[1..], s);
    }
  }

  /** The first candidate is due at once and each next one 600 ms later, as long as none started more than 5 ms late. */
  lemma {:induction false} Rhythm(f: Field, r: Race, steps: seq<Step>)
    requires Run(f, r, steps) && r.tickDue == 600 * r.next
    requires forall k :: 0 <= k < |steps| && steps[k].event.Tick? ==> steps[k].at <= After(f, r, steps[..k]).tickDue + 5
    ensures After(f, r, steps).tickDue == 600 * After(f, r, steps).next
    decreases |steps|
  {
    hide Going, Enabled;
    if steps != [] {
      assert steps[..0] == [];
      var r' := Apply(f, r, steps[0]);
      if Ends(steps[0]) {
        assert steps[1..] == [];
      } else {
        forall k | 0 <= k < |steps[1..]| && steps[1..][k].event.Tick?
          ensures steps[1..][k].at <= After(f, r', steps[1..][..k]).tickDue + 5
        {
          assert steps[..k + 1][1..] == steps[1..][..k] && steps[..k + 1][0] == steps[0];
          assert steps[1..][k] == steps[k + 1];
        }
        Rhythm(f, r', steps[1..]);
      }
    }
  }

  lemma StartsOnTime(f: Field)
    ensures Start(f).next == 0 && Start(f).tickDue == 0 && Start(f).clock == 0 && Start(f).running == {}
    ensures Start(f).fallbackStarted <==> f.fallback == 0
  {}

  /** A candidate that starts later than that delays the next one to 600 ms after its start. */
  lemma LateStart(f: Field, r: Race, s: Step)
    requires s.event.Tick? && s.at > r.tickDue + 5
    ensures Apply(f, r, s).tickDue == s.at + 600
  {}

  /** A primary that answers before the first hedge is due costs one request. */
  lemma HealthyPrimaryCostsOneRequest(f: Field, steps: seq<Step>)
    requires Run(f, Start(f), steps) && steps != []
    requires steps[|steps| - 1].event.Joined? && Ends(steps[|steps| - 1]) && steps[|steps| - 1].at < HEDGE_DELAY
    ensures After(f, Start(f), steps).started == [0] && steps[|steps| - 1].event.task == 0
  {
    var before := steps[..|steps| - 1];
    var r := After(f, Start(f), before);
    StartedAtMostOnce(f, steps);
    WinnerIsFirstUsable(f, steps);
    OnlyLastEnds(f, Start(f), steps);
    StartIsSound(f);
    SoundAfter(f, Start(f), before);
    assert |r.started| == 1 && r.next == 1 && 0 in r.started;
    assert r.started[0] == 0;
  }

  // ---------------------------------------------------------------- the candidates

  /** At each address the connection without a name first, then every name. */
  function AtAddress(bare: bool, snis: seq<string>, ip: Ip): seq<Dial> {
    (if bare then [Dial(None, ip)] else []) + WithIp(snis, ip)
  }

  function Candidates(bare: bool, snis: seq<string>, ips: seq<Ip>): seq<Dial> {
    if ips == [] then [] else AtAddress(bare, snis, ips[0]) + Candidates(bare, snis, ips[1..])
  }

  predicate Bare(s: Setup) {
    s.accelerated && s.fakeName == None && s.noSniConnector
  }

  function Unknown(ips: seq<Ip>, tried: seq<Ip>): seq<Ip> {
    if ips == [] then [] else (if ips[0] in tried then [] else [ips[0]]) + Unknown(ips[1..], tried)
  }

  function InitialCandidates(s: Setup, addrs: seq<Ip>): seq<Dial> {
    Candidates(Bare(s), SniCandidates(s), addrs)
  }

  function FallbackCandidates(s: Setup, tried: seq<Ip>): seq<Dial> {
    Candidates(Bare(s), SniCandidates(s), Unknown(GithubFallback(s.host), tried))
  }

  method CollectCandidates(s: Setup, addrs: seq<Ip>, tried: seq<Ip>) returns (initial: seq<Dial>, fallback: seq<Dial>)
    ensures initial == InitialCandidates(s, addrs) && fallback == FallbackCandidates(s, tried)
  {
    hide GithubFallback, SniCandidates, Candidates, Bare, Unknown;
    initial := Spread(Bare(s), SniCandidates(s), addrs);
    var edges := DropTried(GithubFallback(s.host), tried);
    fallback := Spread(Bare(s), SniCandidates(s), edges);
  }

  method DropTried(ips: seq<Ip>, tried: seq<Ip>) returns (out: seq<Ip>)
    ensures out == Unknown(ips, tried)
  {
    hide Unknown;
    out := [];
    assert ips[0..] == ips;
    for i := 0 to |ips|
      invariant out + Unknown(ips[i..], tried) == Unknown(ips, tried)
    {
      NextUnknown(ips, tried, i, out);
      if ips[i] !in tried {
        out := out + [ips[i]];
      }
    }
    NoUnknown(ips, tried, out);
  }

  lemma NextUnknown(ips: seq<Ip>, tried: seq<Ip>, i: nat, out: seq<Ip>)
    requires i < |ips|
    ensures ips[i] in tried ==> Unknown(ips[i..], tried) == Unknown(ips[i + 1..], tried)
    ensures ips[i] !in tried ==> out + Unknown(ips[i..], tried) == out + [ips[i]] + Unknown(ips[i + 1..], tried)
  {
    assert ips[i..][1..] == ips[i + 1..];
    Associate(out, [ips[i]], Unknown(ips[i + 1..], tried));
  }

  lemma NoUnknown(ips: seq<Ip>, tried: seq<Ip>, out: seq<Ip>)
    ensures out + Unknown(ips[|ips|..], tried) == out
  {}

  method Spread(bare: bool, snis: seq<string>, ips: seq<Ip>) returns (out: seq<Dial>)
    ensures out == Candidates(bare, snis, ips)
  {
    hide AtAddress, WithIp, Candidates;
    out := [];
    assert ips[0..] == ips;
    for i := 0 to |ips|
      invariant out + Candidates(bare, snis, ips[i..]) == Candidates(bare, snis, ips)
    {
      var part := SpreadAt(bare, snis, ips[i]);
      NextAddress(bare, snis, ips, i);
      Associate(out, part, Candidates(bare, snis, ips[i + 1..]));
      out := out + part;
    }
    NoAddress(bare, snis, ips);
    assert out + [] == out;
  }

  lemma NextAddress(bare: bool, snis: seq<string>, ips: seq<Ip>, i: nat)
    requires i < |ips|
    ensures Candidates(bare, snis, ips[i..]) == AtAddress(bare, snis, ips[i]) + Candidates(bare, snis, ips[i + 1..])
  {
    assert ips[i..][1..] == ips[i + 1..];
  }

  lemma NoAddress(bare: bool, snis: seq<string>, ips: seq<Ip>)
    ensures Candidates(bare, snis, ips[|ips|..]) == []
  {}

  method SpreadAt(bare: bool, snis: seq<string>, ip: Ip) returns (out: seq<Dial>)
    ensures out == AtAddress(bare, snis, ip)
  {
    var named := ExpandWithIp(snis, ip);
    out := (if bare then [Dial(None, ip)] else []) + named;
  }

  lemma {:induction false} CandidatesFacts(bare: bool, snis: seq<string>, ips: seq<Ip>)
    requires Distinct(snis) && Distinct(ips)
    ensures Distinct(Candidates(bare, snis, ips))
    ensures forall d :: d in Candidates(bare, snis, ips) ==> d.ip in ips
  {
    hide WithIp;
    if ips != [] {
      assert ips[0] !in ips[1..];
      CandidatesFacts(bare, snis, ips[1..]);
      WithIpFacts(snis, ips[0]);
      DistinctConcat(if bare then [Dial(None, ips[0])] else [], WithIp(snis, ips[0]));
      assert forall d :: d in AtAddress(bare, snis, ips[0]) ==> d.ip == ips[0];
      DistinctConcat(AtAddress(bare, snis, ips[0]), Candidates(bare, snis, ips[1..]));
    }
  }

  lemma {:induction false} UnknownFacts(ips: seq<Ip>, tried: seq<Ip>)
    requires Distinct(ips)
    ensures Distinct(Unknown(ips, tried))
    ensures forall ip :: ip in Unknown(ips, tried) <==> ip in ips && ip !in tried
  {
    if ips != [] {
      assert ips == [ips[0]] + ips[1..] && ips[0] !in ips[1..];
      UnknownFacts(ips[1..], tried);
      DistinctConcat(if ips[0] in tried then [] else [ips[0]], Unknown(ips[1..], tried));
    }
  }

  lemma PublishedEdgesDistinct(host: string)
    ensures Distinct(GithubFallback(host))
  {}

  /** No (name, address) pair is a candidate twice. */
  lemma CandidatesAreDistinct(s: Setup, headers: seq<Header>, ips: seq<Ip>)
    ensures var addrs := FirstAddresses(s, headers, ips);
            Distinct(InitialCandidates(s, addrs) + FallbackCandidates(s, Tried(ips, addrs)))
  {
    hide FirstAddresses, GithubFallback, SniCandidates, Candidates, NewIps;
    var addrs := FirstAddresses(s, headers, ips);
    var tried := Tried(ips, addrs);
    FirstAddressesDistinct(s, headers, ips);
    SniCandidatesDistinct(s);
    PublishedEdgesDistinct(s.host);
    UnknownFacts(GithubFallback(s.host), tried);
    NewIpsFacts(ips, addrs);
    CandidatesFacts(Bare(s), SniCandidates(s), addrs);
    CandidatesFacts(Bare(s), SniCandidates(s), Unknown(GithubFallback(s.host), tried));
    DistinctConcat(InitialCandidates(s, addrs), FallbackCandidates(s, tried));
  }

  /** The dials behind the started task numbers. */
  function Dials(candidates: seq<Dial>, started: seq<nat>): seq<Dial>
    requires forall t :: t in started ==> t < |candidates|
  {
    seq(|started|, i requires 0 <= i < |started| => assert started[i] in started; candidates[started[i]])
  }

  /** Over every run of the race, no (name, address) pair is dialled twice. */
  lemma NoPairRacedTwice(s: Setup, headers: seq<Header>, ips: seq<Ip>, steps: seq<Step>)
    requires var addrs := FirstAddresses(s, headers, ips);
             var f := Field(|InitialCandidates(s, addrs)|, |FallbackCandidates(s, Tried(ips, addrs))|);
             Run(f, Start(f), steps)
    ensures var addrs := FirstAddresses(s, headers, ips);
            var initial, fallback := InitialCandidates(s, addrs), FallbackCandidates(s, Tried(ips, addrs));
            var f := Field(|initial|, |fallback|);
            var started := After(f, Start(f), steps).started;
            (forall t :: t in started ==> t < |initial + fallback|) && Distinct(Dials(initial + fallback, started))
  {
    hide InitialCandidates, FallbackCandidates, FirstAddresses, Tried, Run, After;
    var addrs := FirstAddresses(s, headers, ips);
    var all := InitialCandidates(s, addrs) + FallbackCandidates(s, Tried(ips, addrs));
    var f := Field(|InitialCandidates(s, addrs)|, |FallbackCandidates(s, Tried(ips, addrs))|);
    CandidatesAreDistinct(s, headers, ips);
    StartedAtMostOnce(f, steps);
    var started := After(f, Start(f), steps).started;
    DialsDistinct(all, started);
  }

  lemma DialsDistinct(all: seq<Dial>, started: seq<nat>)
    requires Distinct(all) && Distinct(started) && forall t :: t in started ==> t < |all|
    ensures Distinct(Dials(all, started))
  {
    var dials := Dials(all, started);
    forall i, j | 0 <= i < j < |started| ensures dials[i] != dials[j] {
      assert started[i] in started && started[j] in started && started[i] != started[j];
    }
  }

  // ---------------------------------------------------------------- the race itself

  datatype Verdict = Won(task: nat, status: nat) | GaveUp(deadline: bool)

  predicate Decides(f: Field, steps: seq<Step>, v: Verdict) {
    match v
    case Won(task, status) => steps != [] && steps[|steps| - 1].event == Joined(task, Answered(status)) && Ends(steps[|steps| - 1])
    case GaveUp(true) => steps != [] && steps[|steps| - 1].event == Deadline
    case GaveUp(false) => !Going(f, After(f, Start(f), steps)) && Open(steps)
  }

  lemma {:induction false} OneMore(f: Field, r: Race, steps: seq<Step>, s: Step)
    requires Run(f, r, steps) && Open(steps)
    requires Going(f, After(f, r, steps)) && Enabled(f, After(f, r, steps), s)
    ensures Run(f, r, steps + [s]) && After(f, r, steps + [s]) == Apply(f, After(f, r, steps), s)
    decreases |steps|
  {
    hide Going, Enabled, Ends, Apply;
    if steps == [] {
      assert steps + [s] == [s] && [s][1..] == [];
    } else {
      assert (steps + [s])[1..] == steps[1..] + [s];
      OneMore(f, Apply(f, r, steps[0]), steps[1..], s);
    }
  }

  /** What happens next, given what has happened: any event that is armed and due, at any time from now on. */
  ghost predicate Possible(f: Field, nextStep: seq<Step> -> Step) {
    forall steps :: Open(steps) && Run(f, Start(f), steps) && Going(f, After(f, Start(f), steps))
      ==> Enabled(f, After(f, Start(f), steps), nextStep(steps))
  }


  /** The select loop under any schedule. It ends, and its run and verdict are the ones the schedule dictates. */
  method HedgedAttempts(f: Field, nextStep: seq<Step> -> Step) returns (verdict: Verdict, steps: seq<Step>)
    requires Possible(f, nextStep)
    ensures Run(f, Start(f), steps) && Decides(f, steps, verdict)
    ensures forall k :: 0 <= k < |steps| ==> steps[k] == nextStep(steps[..k])
  {
    hide Run, After, Apply, Ends, Starts, Tracks, Timed;
    var next, fallbackStarted := 0, f.fallback == 0;
    var running: set<nat> := {};
    steps := [];
    ghost var race := Start(f);
    StartIsSound(f);
    EmptyRun(f, race);
    while next < f.initial || running != {} || !fallbackStarted
      invariant race.next == next && race.fallbackStarted == fallbackStarted && race.running == running
      invariant race == After(f, Start(f), steps) && Run(f, Start(f), steps) && Open(steps)
      invariant forall k :: 0 <= k < |steps| ==> steps[k] == nextStep(steps[..k])
      invariant Starts(f, race) && Tracks(race) && race.next <= f.initial
      decreases ToDo(f, race)
    {
      var step := nextStep(steps);
      assert Enabled(f, race, step);
      OneMore(f, Start(f), steps, step);
      History(steps, step);
      match step.event {
        case Deadline =>
          steps := steps + [step];
          return GaveUp(true), steps;
        case Tick =>
          TickIs(f, race, step);
          next, running := next + 1, running + {next};
        case FallbackTimer =>
          FallbackTimerIs(f, race, step);
          var tasks := Fallbacks(f);
          fallbackStarted, running := true, running + Members(tasks);
        case Joined(task, end) =>
          if end.Answered? && !Upstream.RetryableStatus(end.status) {
            EndsWhenGood(step);
            steps := steps + [step];
            return Won(task, end.status), steps;
          }
          JoinedIs(f, race, step);
          running := running - {task};
      }
      StartsKept(f, race, step);
      TracksKept(f, race, step);
      ToDoFalls(f, race, step);
      race := Apply(f, race, step);
      steps := steps + [step];
    }
    verdict := GaveUp(false);
  }

  lemma EmptyRun(f: Field, r: Race)
    ensures Run(f, r, []) && After(f, r, []) == r
  {}

  lemma EndsWhenGood(s: Step)
    requires s.event.Joined? && s.event.end.Answered? && !Upstream.RetryableStatus(s.event.end.status)
    ensures Ends(s)
  {}

  lemma TickIs(f: Field, r: Race, s: Step)
    requires s.event == Tick
    ensures !Ends(s)
    ensures Apply(f, r, s) == r.(next := r.next + 1, running := r.running + {r.next}, started := r.started + [r.next],
                                 clock := s.at, tickDue := NextTick(r.tickDue, s.at))
  {}

  lemma FallbackTimerIs(f: Field, r: Race, s: Step)
    requires s.event == FallbackTimer
    ensures !Ends(s)
    ensures Apply(f, r, s) == r.(fallbackStarted := true, running := r.running + Members(Fallbacks(f)),
                                 started := r.started + Fallbacks(f), clock := s.at)
  {}

  lemma JoinedIs(f: Field, r: Race, s: Step)
    requires s.event.Joined? && !Good(s.event.end)
    ensures !Ends(s)
    ensures Apply(f, r, s) == r.(running := r.running - {s.event.task}, finished := r.finished[s.event.task := s.event.end], clock := s.at)
  {}
}
