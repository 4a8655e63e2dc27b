/** One request through the whole stack: redirects on the outside, retries inside each hop. */
module RequestRun {
  import opened Wrappers
  import opened Backoff
  import opened RetryPolicy
  import opened Redirect
  import Classifiers

  /** The request that a redirect response leads to, as the redirect driver builds it. */
  datatype NextHop = NextHop(
    status: nat, location: Option<Url>, verb: string, headers: Headers, bodyCanClone: bool)

  /** How one send ends, and what the policies see when they are asked about it. `redirect` is
      `None` for a response that the driver hands to the caller. */
  datatype Reply = Reply(outcome: Outcome, m: Moment, granted: bool, redirect: Option<NextHop>)

  datatype Consultation = Consultation(
    req: Request, outcome: Outcome, m: Moment, counters: Counters, granted: bool,
    verdict: Verdict, sleep: Option<nat>)

  datatype Call = Call(
    urls: seq<Url>, deadline: Option<nat>,
    counters: Counters, clone: Option<Request>, inFlight: Request,
    done: bool, sends: nat, visited: seq<Url>, log: seq<Consultation>)

  /** A send keeps a clone for the retry, if the policy wants one. */
  function Send(config: Config, c: Call, counters: Counters, req: Request): Call {
    c.(counters := counters, clone := CloneOf(config, counters, req), inFlight := req, sends := c.sends + 1)
  }

  /** A hop starts with fresh counters and a request that has been through `on_request`. */
  function StartHop(config: Config, s: Settings, c: Call, req: Request): Call {
    var deadline := Carried(c.deadline, req);
    Send(
      config, c.(deadline := deadline, visited := c.visited + [req.uri]),
      Counters(0, 0), req.(deadline := deadline, headers := Edited(s, c.urls, req.uri, req.headers)))
  }

  function Begin(config: Config, s: Settings, first: Request): Call {
    StartHop(config, s, Call([], None, Counters(0, 0), None, first, false, 0, [], []), first)
  }

  /** The retry layer is done with this reply; the redirect layer looks at it. */
  function FinishHop(config: Config, s: Settings, c: Call, r: Reply): Call {
    if r.outcome.Failure? || r.redirect.None? then c.(done := true)
    else
      var next := r.redirect.value;
      var urls := History(c.urls, c.inFlight.uri, next.location);
      if Answered(s, next.status, next.location, urls).Followed? then
        StartHop(
          config, s, c.(urls := urls),
          Request(next.verb, next.location.value, next.headers, next.bodyCanClone, None))
      else c.(urls := urls, done := true)
  }

  function Step(config: Config, s: Settings, c: Call, r: Reply): Call {
    if c.done then c
    else if c.clone.None? then FinishHop(config, s, c, r)
    else
      var req := c.clone.value;
      var v := Judge(config, c.counters, req, r.outcome, r.m);
      var sleep := Sleep(config, v, r.granted);
      var asked := c.(log := c.log + [Consultation(req, r.outcome, r.m, c.counters, r.granted, v, sleep)]);
      if sleep.None? then FinishHop(config, s, asked, r)
      else Send(config, asked, Count(c.counters, v, sleep), req)
  }

  /** Every schedule of replies is a run; replies after the end change nothing. */
  function Run(config: Config, s: Settings, first: Request, replies: seq<Reply>): Call {
    if replies == [] then Begin(config, s, first)
    else Step(config, s, Run(config, s, first, replies[..|replies| - 1]), replies[|replies| - 1])
  }

  // ----- invariant

  function MaxFollows(policy: PolicyKind): nat
    requires !policy.Custom?
  {
    if policy.Limit? then policy.max else 0
  }

  /** What a consultation may decide for a request with this deadline. */
  predicate Proper(config: Config, deadline: Option<nat>, k: Consultation) {
    && k.req.deadline == deadline
    && !k.verdict.MaxHit?
    && Fair(deadline, Delay(config.backoff, k.counters.application, k.m.rand), k.outcome, k.m, k.verdict)
    && Sorted(config, k.counters.total, k.req, k.outcome, k.verdict)
    && (k.sleep.Some?
        <==> k.verdict.Ready? && (k.verdict.kind.TransientTransport? || !config.budgeted || k.granted))
    && (k.sleep.Some? ==> k.sleep.value == k.verdict.delay)
  }

  predicate Inv(config: Config, first: Request, c: Call) {
    && c.inFlight.deadline == first.deadline == c.deadline
    && c.counters.application <= c.counters.total <= config.maxRetries
    && (c.clone.Some? ==> c.clone.value == c.inFlight)
    && (c.clone.Some?
        <==> config.inScope(c.inFlight) && c.inFlight.bodyCanClone && c.counters.total < config.maxRetries)
    && c.visited != [] && c.visited[|c.visited| - 1] == c.inFlight.uri
    && c.urls <= c.visited && |c.urls| >= |c.visited| - 1
    && (!c.done ==> |c.urls| == |c.visited| - 1)
    && c.sends <= (|c.visited| - 1) * (config.maxRetries + 1) + c.counters.total + 1
    && forall i :: 0 <= i < |c.log| ==> Proper(config, first.deadline, c.log[i])
  }

  lemma JudgeIsProper(config: Config, c: Counters, req: Request, outcome: Outcome, m: Moment, granted: bool)
    requires c.total < config.maxRetries
    ensures var v := Judge(config, c, req, outcome, m);
            Proper(config, req.deadline, Consultation(req, outcome, m, c, granted, v, Sleep(config, v, granted)))
  {
  }

  lemma FinishKeepsInv(config: Config, s: Settings, first: Request, c: Call, r: Reply)
    requires Inv(config, first, c) && !c.done
    ensures Inv(config, first, FinishHop(config, s, c, r))
  {
    hide Fair, Sorted, Edited;
    var hops := |c.visited|;
    assert hops * (config.maxRetries + 1) == (hops - 1) * (config.maxRetries + 1) + config.maxRetries + 1;
    assert c.visited[..hops - 1] + [c.inFlight.uri] == c.visited;
  }

  lemma StepKeepsInv(config: Config, s: Settings, first: Request, c: Call, r: Reply)
    requires Inv(config, first, c)
    ensures Inv(config, first, Step(config, s, c, r))
  {
    if !c.done && c.clone.None? {
      FinishKeepsInv(config, s, first, c, r);
    } else if !c.done {
      var req := c.clone.value;
      JudgeIsProper(config, c.counters, req, r.outcome, r.m, r.granted);
      var v := Judge(config, c.counters, req, r.outcome, r.m);
      var sleep := Sleep(config, v, r.granted);
      var asked := c.(log := c.log + [Consultation(req, r.outcome, r.m, c.counters, r.granted, v, sleep)]);
      assert Inv(config, first, asked);
      if sleep.None? {
        FinishKeepsInv(config, s, first, asked, r);
      }
    }
  }

  lemma {:induction false} RunKeepsInv(config: Config, s: Settings, first: Request, replies: seq<Reply>)
    ensures Inv(config, first, Run(config, s, first, replies))
  {
    if replies != [] {
      var before := replies[..|replies| - 1];
      RunKeepsInv(config, s, first, before);
      StepKeepsInv(config, s, first, Run(config, s, first, before), replies[|replies| - 1]);
    }
  }

  // ----- how long a request can go on

  predicate Bounded(s: Settings, c: Call, n: nat)
    requires !s.policy.Custom?
  {
    && |c.visited| - 1 <= MaxFollows(s.policy)
    && (!c.done ==> c.sends == n + 1)
  }

  lemma {:induction false} RunIsBounded(config: Config, s: Settings, first: Request, replies: seq<Reply>)
    requires !s.policy.Custom?
    ensures Bounded(s, Run(config, s, first, replies), |replies|)
  {
    if replies != [] {
      var n := |replies| - 1;
      RunIsBounded(config, s, first, replies[..n]);
      RunKeepsInv(config, s, first, replies[..n]);
      StepIsBounded(config, s, first, Run(config, s, first, replies[..n]), replies[n], n);
    }
  }

  lemma StepIsBounded(config: Config, s: Settings, first: Request, c: Call, r: Reply, n: nat)
    requires !s.policy.Custom? && Bounded(s, c, n) && Inv(config, first, c)
    ensures Bounded(s, Step(config, s, c, r), n + 1)
  {
  }

  lemma SendsAreBounded(config: Config, s: Settings, first: Request, c: Call, n: nat)
    requires !s.policy.Custom? && Bounded(s, c, n) && Inv(config, first, c)
    ensures var most := (MaxFollows(s.policy) + 1) * (config.maxRetries + 1);
            c.sends <= most && (n >= most ==> c.done)
  {
    HopsTimesSends(|c.visited| - 1, MaxFollows(s.policy), config.maxRetries + 1);
  }

  lemma HopsTimesSends(hops: nat, max: nat, perHop: nat)
    requires hops <= max
    ensures hops * perHop + perHop <= (max + 1) * perHop
  {
  }

  /** With at most R redirects and K retries, every schedule of replies ends within (R + 1) * (K + 1)
      sends; at most R redirects are followed, and the history given to the redirect policy is
      the list of URLs requested before the current one. */
  lemma RequestTerminates(config: Config, s: Settings, first: Request, replies: seq<Reply>)
    requires !s.policy.Custom?
    ensures var c := Run(config, s, first, replies);
            var most := (MaxFollows(s.policy) + 1) * (config.maxRetries + 1);
            && c.sends <= most
            && (|replies| >= most ==> c.done)
            && |c.visited| - 1 <= MaxFollows(s.policy)
            && c.visited != [] && c.visited[0] == first.uri
            && c.urls <= c.visited && |c.visited| - 1 <= |c.urls|
            && (!c.done ==> c.urls == c.visited[..|c.visited| - 1])
            && c.counters.application <= c.counters.total <= config.maxRetries
  {
    RunKeepsInv(config, s, first, replies);
    RunIsBounded(config, s, first, replies);
    StartsAtFirst(config, s, first, replies);
    SendsAreBounded(config, s, first, Run(config, s, first, replies), |replies|);
  }

  lemma {:induction false} StartsAtFirst(config: Config, s: Settings, first: Request, replies: seq<Reply>)
    ensures var c := Run(config, s, first, replies); c.visited != [] && c.visited[0] == first.uri
  {
    hide Step, CloneOf, Edited;
    if replies != [] {
      var before := replies[..|replies| - 1];
      StartsAtFirst(config, s, first, before);
      StepIsAllowed(config, s, Run(config, s, first, before), replies[|replies| - 1]);
    }
  }

  /** Whatever the policy, no hop after the first leaves HTTP, or HTTPS if only that is allowed. */
  lemma {:induction false} HopsAreAllowed(config: Config, s: Settings, first: Request, replies: seq<Reply>)
    ensures var c := Run(config, s, first, replies);
            forall i :: 1 <= i < |c.visited| ==> IsAllowed(s, c.visited[i])
  {
    if replies != [] {
      var before := Run(config, s, first, replies[..|replies| - 1]);
      HopsAreAllowed(config, s, first, replies[..|replies| - 1]);
      StartsAtFirst(config, s, first, replies[..|replies| - 1]);
      StepIsAllowed(config, s, before, replies[|replies| - 1]);
    }
  }

  lemma StepIsAllowed(config: Config, s: Settings, c: Call, r: Reply)
    ensures var after := Step(config, s, c, r).visited;
            after == c.visited || (|after| == |c.visited| + 1 && c.visited <= after && IsAllowed(s, after[|c.visited|]))
  {
    hide Judge, Sleep, Count, CloneOf, Carried;
  }

  /** What is being sent towards a foreign URL carries no credentials. */
  predicate SendsHome(c: Call) {
    !c.done && c.urls != [] && Foreign(c.urls[|c.urls| - 1], c.inFlight.uri) ==> HasNoCredentials(c.inFlight.headers)
  }

  /** No request, be it the first of its hop or a retry, takes credentials to a URL of another host, scheme or port
      than that of the URL that redirected to it, whatever headers the driver puts on it. */
  lemma {:induction false} SensitiveHeadersStay(config: Config, s: Settings, first: Request, replies: seq<Reply>)
    ensures SendsHome(Run(config, s, first, replies))
  {
    if replies != [] {
      var before := replies[..|replies| - 1];
      SensitiveHeadersStay(config, s, first, before);
      RunKeepsInv(config, s, first, before);
      StepSendsHome(config, s, first, Run(config, s, first, before), replies[|replies| - 1]);
    }
  }

  lemma HopSendsHome(config: Config, s: Settings, c: Call, req: Request)
    ensures SendsHome(StartHop(config, s, c, req))
  {
    hide Edited, Foreign, HasNoCredentials, SameCredentials;
    EditedKeepsToOrigin(s, c.urls, req.uri, req.headers);
  }

  lemma FinishSendsHome(config: Config, s: Settings, c: Call, r: Reply)
    ensures SendsHome(FinishHop(config, s, c, r))
  {
    hide StartHop;
    if r.redirect.Some? && r.redirect.value.location.Some? {
      var next := r.redirect.value;
      HopSendsHome(
        config, s, c.(urls := History(c.urls, c.inFlight.uri, next.location)),
        Request(next.verb, next.location.value, next.headers, next.bodyCanClone, None));
    }
  }

  lemma StepSendsHome(config: Config, s: Settings, first: Request, c: Call, r: Reply)
    requires Inv(config, first, c) && SendsHome(c)
    ensures SendsHome(Step(config, s, c, r))
  {
    hide Judge, Sleep, Count, FinishHop, Proper;
    if !c.done {
      FinishSendsHome(config, s, c, r);
      if c.clone.Some? {
        var req := c.clone.value;
        var v := Judge(config, c.counters, req, r.outcome, r.m);
        FinishSendsHome(
          config, s,
          c.(log := c.log + [Consultation(req, r.outcome, r.m, c.counters, r.granted, v, Sleep(config, v, r.granted))]), r);
      }
    }
  }

  // ----- how a request goes on

  function Granted(log: seq<Consultation>): nat {
    if log == [] then 0 else Granted(log[..|log| - 1]) + if log[|log| - 1].sleep.Some? then 1 else 0
  }

  /** Every send is the first of a hop or the outcome of a granted retry, and every granted retry is sent. */
  lemma {:induction false} SendsAreAccounted(config: Config, s: Settings, first: Request, replies: seq<Reply>)
    ensures var c := Run(config, s, first, replies); c.sends == |c.visited| + Granted(c.log)
  {
    if replies != [] {
      var n := |replies| - 1;
      SendsAreAccounted(config, s, first, replies[..n]);
      StepAccounts(config, s, Run(config, s, first, replies[..n]), replies[n]);
    }
  }

  lemma StepAccounts(config: Config, s: Settings, c: Call, r: Reply)
    requires c.sends == |c.visited| + Granted(c.log)
    ensures var after := Step(config, s, c, r); after.sends == |after.visited| + Granted(after.log)
  {
    hide Judge, Sleep, Count, CloneOf, Carried, Edited, Answered;
    if !c.done && c.clone.Some? {
      var v := Judge(config, c.counters, c.clone.value, r.outcome, r.m);
      var k := Consultation(c.clone.value, r.outcome, r.m, c.counters, r.granted, v, Sleep(config, v, r.granted));
      assert (c.log + [k])[..|c.log|] == c.log;
    }
  }

  /** The redirect policy wants the reply followed. */
  predicate IsFollowed(s: Settings, c: Call, r: Reply) {
    && r.outcome.Response? && r.redirect.Some? && r.redirect.value.location.Some?
    && Answered(s, r.redirect.value.status, r.redirect.value.location, c.urls + [c.inFlight.uri]).Followed?
  }

  /** The next hop has been sent, to where the redirect points and with what the driver sends there, but for
      the credentials. */
  predicate Hops(c: Call, next: NextHop, after: Call)
    requires next.location.Some?
  {
    && after.inFlight.uri == next.location.value && after.inFlight.verb == next.verb
    && after.inFlight.bodyCanClone == next.bodyCanClone && after.counters == Counters(0, 0)
    && after.urls == c.urls + [c.inFlight.uri] && after.visited == c.visited + [next.location.value]
    && KeepsToOrigin(after.urls, next.location.value, next.headers, after.inFlight.headers)
  }

  /** How any run goes on with the next reply. The retry policy is asked exactly about attempts of which it has
      wanted a clone. A granted retry sends the same request once more. Otherwise a redirect is followed if the
      redirect policy wants that; or else the request is done. */
  lemma GoesOn(config: Config, s: Settings, first: Request, replies: seq<Reply>, r: Reply)
    requires !Run(config, s, first, replies).done
    ensures var (c, after) := (Run(config, s, first, replies), Run(config, s, first, replies + [r]));
            var asked := config.inScope(c.inFlight) && c.inFlight.bodyCanClone && c.counters.total < config.maxRetries;
            var retried := Granted(after.log) > Granted(c.log);
            && |after.log| == |c.log| + (if asked then 1 else 0)
            && (retried ==> after.inFlight == c.inFlight && after.visited == c.visited)
            && (!retried && IsFollowed(s, c, r) ==> Hops(c, r.redirect.value, after))
            && (after.done <==> !retried && !IsFollowed(s, c, r))
  {
    hide Step, IsFollowed, Hops;
    RunKeepsInv(config, s, first, replies);
    assert (replies + [r])[..|replies|] == replies;
    StepGoesOn(config, s, Run(config, s, first, replies), r);
  }

  lemma StepGoesOn(config: Config, s: Settings, c: Call, r: Reply)
    requires !c.done && (c.clone.Some? ==> c.clone.value == c.inFlight)
    ensures var after := Step(config, s, c, r);
            var retried := Granted(after.log) > Granted(c.log);
            && |after.log| == |c.log| + (if c.clone.Some? then 1 else 0)
            && (retried ==> after.inFlight == c.inFlight && after.visited == c.visited)
            && (!retried && IsFollowed(s, c, r) ==> Hops(c, r.redirect.value, after))
            && (after.done <==> !retried && !IsFollowed(s, c, r))
  {
    hide Judge, Sleep, Count, CloneOf, Carried, Edited, KeepsToOrigin, Check;
    if r.redirect.Some? && r.redirect.value.location.Some? {
      var next := r.redirect.value;
      EditedKeepsToOrigin(s, c.urls + [c.inFlight.uri], next.location.value, next.headers);
    }
    if c.clone.Some? {
      var v := Judge(config, c.counters, c.clone.value, r.outcome, r.m);
      var k := Consultation(c.clone.value, r.outcome, r.m, c.counters, r.granted, v, Sleep(config, v, r.granted));
      assert (c.log + [k])[..|c.log|] == c.log;
    }
  }

  /** Through any mix of redirects and retries, every consultation sees the deadline of the first
      request: no granted sleep reaches it, none is shorter than the backoff or than what the
      server asked for, and a retry is given up for the deadline only when it would be reached. */
  lemma DeadlineSafety(config: Config, s: Settings, first: Request, replies: seq<Reply>)
    ensures var c := Run(config, s, first, replies);
            && c.inFlight.deadline == first.deadline
            && forall i :: 0 <= i < |c.log| ==> Proper(config, first.deadline, c.log[i])
  {
    RunKeepsInv(config, s, first, replies);
  }

  // ----- the bound is reached

  const HOME := Url("https", "", "example.com", "", "/", "")

  /** Retries everything at once, `retries` times. */
  function Eager(retries: nat): Config {
    Config(Exponential(0), Classifiers.Dyn((r: Classifiers.ReqRep) => true), retries, false, (r: Request) => true, false)
  }

  const MOVED := Reply(
    Response(302, None), Moment(0, 0, 0), false, Some(NextHop(302, Some(HOME), "GET", map[], true)))

  const GET_HOME := Request("GET", HOME, map[], true, None)

  function Copies(n: nat): (s: seq<Reply>)
    ensures |s| == n
  {
    if n == 0 then [] else Copies(n - 1) + [MOVED]
  }

  predicate AtPosition(retries: nat, c: Call, hop: nat, retry: nat) {
    && !c.done && c.sends == hop * (retries + 1) + retry + 1
    && |c.urls| == hop && c.counters.total == retry
    && c.inFlight == GET_HOME && c.deadline == None
    && c.clone == if retry < retries then Some(GET_HOME) else None
  }

  lemma EagerRetries(retries: nat, c: Counters)
    requires c.total < retries
    ensures Judge(Eager(retries), c, GET_HOME, MOVED.outcome, MOVED.m) == Ready(Application, 0)
  {
  }

  lemma RetryMovesOn(retries: nat, s: Settings, c: Call, hop: nat, retry: nat)
    requires AtPosition(retries, c, hop, retry) && retry < retries
    ensures AtPosition(retries, Step(Eager(retries), s, c, MOVED), hop, retry + 1)
  {
    EagerRetries(retries, c.counters);
  }

  lemma RedirectMovesOn(retries: nat, max: nat, c: Call, hop: nat)
    requires AtPosition(retries, c, hop, retries) && hop < max
    ensures AtPosition(retries, Step(Eager(retries), Settings(Limit(max), true, false), c, MOVED), hop + 1, 0)
  {
    assert (hop + 1) * (retries + 1) == hop * (retries + 1) + retries + 1;
  }

  function Worst(retries: nat, max: nat, n: nat): Call {
    Run(Eager(retries), Settings(Limit(max), true, false), GET_HOME, Copies(n))
  }

  lemma WorstStep(retries: nat, max: nat, n: nat)
    requires n > 0
    ensures Worst(retries, max, n) == Step(Eager(retries), Settings(Limit(max), true, false), Worst(retries, max, n - 1), MOVED)
  {
    assert Copies(n)[..n - 1] == Copies(n - 1);
  }

  lemma WorstStart(retries: nat, max: nat)
    ensures AtPosition(retries, Worst(retries, max, 0), 0, 0)
  {
  }

  /** A server that always redirects, seen by a policy that always retries: reply `n` belongs to
      hop `n / (retries + 1)`. */
  lemma {:induction false} WorstCase(retries: nat, max: nat, hop: nat, retry: nat)
    requires hop <= max && retry <= retries
    ensures AtPosition(retries, Worst(retries, max, hop * (retries + 1) + retry), hop, retry)
    decreases hop, retry
  {
    hide AtPosition, Step, Worst, Eager;
    var n := hop * (retries + 1) + retry;
    if retry > 0 {
      WorstCase(retries, max, hop, retry - 1);
      WorstStep(retries, max, n);
      RetryMovesOn(retries, Settings(Limit(max), true, false), Worst(retries, max, n - 1), hop, retry - 1);
    } else if hop > 0 {
      assert n - 1 == (hop - 1) * (retries + 1) + retries;
      WorstCase(retries, max, hop - 1, retries);
      WorstStep(retries, max, n);
      RedirectMovesOn(retries, max, Worst(retries, max, n - 1), hop - 1);
    } else {
      WorstStart(retries, max);
    }
  }

  /** For every R and K some request makes (R + 1) * (K + 1) sends. */
  lemma BoundIsReached(retries: nat, max: nat)
    ensures exists config: Config, s: Settings, first: Request, replies: seq<Reply> ::
              && config.maxRetries == retries && s == Settings(Limit(max), true, false)
              && Run(config, s, first, replies).sends == (max + 1) * (retries + 1)
  {
    WorstCase(retries, max, max, retries);
    var n := max * (retries + 1) + retries;
    assert n + 1 == (max + 1) * (retries + 1);
    assert Run(Eager(retries), Settings(Limit(max), true, false), GET_HOME, Copies(n)).sends == (max + 1) * (retries + 1);
  }
}
