/**
 What the upstream phase does, told from its inputs alone: which requests are raced, which outcomes let a dial
 run go on, and which endpoints are offered, under which name and in which order.
 */
module FallbackMeaning {
  import opened Sequences
  import opened Text
  import opened Http1
  import opened UpstreamFallback
  import opened FallbackLaws

  // ---------------------------------------------------------------- which requests

  lemma UpperIsLower(verb: string)
    ensures Lower(Upper(verb)) == Lower(verb)
  {}

  lemma SameUpper(verb: string, name: string)
    requires Upper(name) == name
    ensures Upper(verb) == name <==> Lower(verb) == Lower(name)
  {
    UpperIsLower(verb);
    if Lower(verb) == Lower(name) {
      forall i | 0 <= i < |verb| ensures Upper(verb)[i] == name[i] {
        assert Lower(verb)[i] == Lower(name)[i] && Upper(name)[i] == name[i];
      }
    }
  }

  lemma Verbs(verb: string)
    ensures Upper(verb) == "POST" <==> Lower(verb) == "post"
    ensures Upper(verb) == "PATCH" <==> Lower(verb) == "patch"
    ensures Upper(verb) == "GET" <==> Lower(verb) == "get"
    ensures Upper(verb) == "HEAD" <==> Lower(verb) == "head"
    ensures Upper(verb) == "OPTIONS" <==> Lower(verb) == "options"
    ensures Upper(verb) == "TRACE" <==> Lower(verb) == "trace"
  {
    assert Lower("POST") == "post" && Lower("PATCH") == "patch" && Lower("GET") == "get";
    assert Lower("HEAD") == "head" && Lower("OPTIONS") == "options" && Lower("TRACE") == "trace";
    SameUpper(verb, "POST");
    SameUpper(verb, "PATCH");
    SameUpper(verb, "GET");
    SameUpper(verb, "HEAD");
    SameUpper(verb, "OPTIONS");
    SameUpper(verb, "TRACE");
  }

  /** A form post: a body-carrying method on a path that is not one of Git's. */
  predicate FormPost(req: Request) {
    && Lower(req.verb) in {"post", "patch"}
    && !("/git-upload-pack" <= req.path) && !("/git-receive-pack" <= req.path)
    && forall i :: 0 <= i <= |req.path| ==> !("/info/refs" <= req.path[i..])
  }

  /** A cookie that tells an authenticated request. */
  predicate SessionCookie(h: Header) {
    Lower(h.name) == "cookie"
    && exists i :: 0 <= i <= |h.value| && ("logged_in=yes" <= Lower(h.value)[i..] || "user_session=" <= Lower(h.value)[i..])
  }

  lemma MayRepeatIff(s: Setup, req: Request)
    ensures MayRepeat(s, req) <==> s.accelerated && !FormPost(req)
  {
    hide Upper, Contains;
    Verbs(req.verb);
    ContainsAt(req.path, "/info/refs");
  }

  lemma StatefulIff(headers: seq<Header>)
    ensures Stateful(headers) <==> exists h :: h in headers && SessionCookie(h)
  {
    hide Lower, Contains;
    forall h | h in headers
      ensures SessionCookie(h) <==>
                Named(h, "cookie") && (Contains(Lower(h.value), "logged_in=yes") || Contains(Lower(h.value), "user_session="))
    {
      ContainsAt(Lower(h.value), "logged_in=yes");
      ContainsAt(Lower(h.value), "user_session=");
    }
  }

  /** Raced are safe requests without a session to an accelerated host that no second proxy stands in front of. */
  lemma RacedIff(s: Setup, req: Request)
    ensures HedgePath(s, req) <==>
              && s.accelerated && !s.agentOn && Lower(req.verb) in {"get", "head", "options", "trace"}
              && forall h :: h in req.headers ==> !SessionCookie(h)
  {
    hide Upper, Lower, Stateful, SessionCookie;
    Verbs(req.verb);
    StatefulIff(req.headers);
  }

  // ---------------------------------------------------------------- which outcomes let a run go on

  /** Whether a lookup that the run has to make exceeds the budget. */
  predicate LookupFails(s: Setup, w: World) {
    || w.aliasIps == None
    || (!s.agentOn && s.connectHost != s.host && w.hostIps == None)
    || (!s.agentOn && s.accelerated && w.aliasAlternatives == None)
    || (!s.agentOn && s.accelerated && s.connectHost != s.host && w.hostAlternatives == None)
  }

  /** How a run ends whose last attempt it does not go on from, or whose plan is used up. */
  predicate RunEnds(s: Setup, w: World, plan: seq<Dial>, trace: seq<Dial>, result: Result, over: bool) {
    if over then trace == plan && result == if LookupFails(s, w) then OutOfBudget else Exhausted
    else
      trace != [] &&
      match w.dial(|trace| - 1)
      case Answer(status) => result == Adopted(trace[|trace| - 1], status)
      case OutOfTime(_) => result == OutOfBudget
      case _ => result == Unanswered
  }

  /**
   A form post, and any request to a host that is not accelerated, is never raced, and its dial run goes on to
   the next planned attempt exactly after a failed connect: nothing is ever sent twice.
   */
  lemma SentOnce(s: Setup, req: Request, w: World, trace: seq<Dial>, result: Result)
    requires Dialled(s, req, w, trace, result) && (!s.accelerated || FormPost(req))
    ensures !HedgePath(s, req) && Writes(w.dial, |trace|) <= 1
    ensures trace <= Plan(s, w, req.headers)
    ensures forall k :: 0 <= k < |trace| ==> (k + 1 < |trace| <==> w.dial(k) == ConnectFailed && k + 1 < |Plan(s, w, req.headers)|)
    ensures RunEnds(s, w, Plan(s, w, req.headers), trace, result, trace == [] || w.dial(|trace| - 1) == ConnectFailed)
  {
    hide Plan, HedgePath, FormPost;
    RacedIff(s, req);
    MayRepeatIff(s, req);
    if FormPost(req) { PostIsNotRaced(req); }
    TimesOutIff(s, w);
    hide MayRepeat;
    RunWritesIff(Plan(s, w, req.headers), PlanTimesOut(s, w), w.dial, trace, result);
  }

  /** The outcomes after which a request that may be repeated goes to the next endpoint. */
  predicate TriesNext(o: Outcome) {
    o in {ConnectFailed, WriteFailed, NoResponse, Answer(500), Answer(502), Answer(503), Answer(504)}
  }

  /**
   Any other request to an accelerated host also goes on when writing failed, no response came, or a gateway
   error was answered; every other answer is adopted.
   */
  lemma GoesOnToNext(s: Setup, req: Request, w: World, trace: seq<Dial>, result: Result)
    requires Dialled(s, req, w, trace, result) && s.accelerated && !FormPost(req)
    ensures trace <= Plan(s, w, req.headers)
    ensures forall k :: 0 <= k < |trace| ==> (k + 1 < |trace| <==> TriesNext(w.dial(k)) && k + 1 < |Plan(s, w, req.headers)|)
    ensures RunEnds(s, w, Plan(s, w, req.headers), trace, result, trace == [] || TriesNext(w.dial(|trace| - 1)))
  {
    hide Plan, FormPost;
    MayRepeatIff(s, req);
    TimesOutIff(s, w);
    hide MayRepeat;
  }

  lemma TimesOutIff(s: Setup, w: World)
    ensures PlanTimesOut(s, w) <==> LookupFails(s, w)
  {}

  lemma PostIsNotRaced(req: Request)
    requires FormPost(req)
    ensures Lower(req.verb) !in {"get", "head", "options", "trace"}
  {
    assert "post"[0] == 'p' && "patch"[0] == 'p';
  }
}
