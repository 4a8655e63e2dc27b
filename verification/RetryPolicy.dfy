/** The retry policy of one logical call: when to retry, how long to wait first, and what that
    costs the shared budget. */
module RetryPolicy {
  import opened Wrappers
  import opened Backoff
  import opened Budgets
  import opened Classifiers
  import RetryAfter

  /** `deadline` is the extension the client inserts; instants are nanoseconds. */
  datatype Request = Request(
    verb: string, uri: Url, headers: Headers,
    bodyCanClone: bool, deadline: Option<nat>)

  /** `transient` is the verdict of the transport-error inspection, which is not modelled. */
  datatype Outcome = Response(status: nat, retryAfter: Option<Bytes>) | Failure(transient: bool)

  /** The clocks and the random number that one decision reads. */
  datatype Moment = Moment(now: nat, wall: nat, rand: random)

  datatype Config = Config(
    backoff: Backoff, classifier: Classifier, maxRetries: nat,
    retryTransient: bool, inScope: Request -> bool, budgeted: bool)

  datatype Counters = Counters(total: nat, application: nat)

  datatype RetryKind = Application | TransientTransport

  function Kind(config: Config, req: Request, outcome: Outcome): Option<RetryKind> {
    if config.retryTransient && outcome.Failure? && outcome.transient then Some(TransientTransport)
    else
      if Classify(config.classifier, Seen(req, outcome)) then Some(Application) else None
  }

  /** What the classifier is shown. */
  function Seen(req: Request, outcome: Outcome): ReqRep {
    ReqRep(req.verb, req.uri, req.headers, if outcome.Response? then Some(outcome.status) else None)
  }

  /** What the server asked for with `Retry-After`. */
  function Asked(outcome: Outcome, m: Moment): Option<nat> {
    if outcome.Response? then RetryAfter.Parse(outcome.retryAfter, m.wall) else None
  }

  /** How long to wait, or `None` when that would outlive the request. */
  function Wait(config: Config, application: nat, req: Request, outcome: Outcome, m: Moment): Option<nat> {
    var backoff := Delay(config.backoff, application, m.rand);
    var asked := Asked(outcome, m);
    var delay := if asked.Some? then Max(backoff, asked.value) else backoff;
    if delay == 0 || req.deadline.None? then Some(delay)
    else if req.deadline.value < m.now then None
    else if delay < req.deadline.value - m.now then Some(delay)
    else None
  }

  /** What a call of `retry` comes to before the budget is asked. */
  datatype Verdict = NotRetryable | MaxHit | PastDeadline | Ready(kind: RetryKind, delay: nat)

  function Judge(config: Config, c: Counters, req: Request, outcome: Outcome, m: Moment): Verdict {
    var kind := Kind(config, req, outcome);
    if kind.None? then NotRetryable
    else if c.total >= config.maxRetries then MaxHit
    else if kind.value.TransientTransport? then Ready(TransientTransport, 0)
    else
      var wait := Wait(config, c.application, req, outcome, m);
      if wait.None? then PastDeadline else Ready(Application, wait.value)
  }

  /** How long a verdict makes an attempt wait, from the header of the response, the clocks and the deadline: an
      application retry waits for the larger of backoff and `Retry-After`, unless that is not nothing and
      would reach the deadline, and only then is the deadline the reason to give up. */
  predicate Fair(deadline: Option<nat>, backoff: nat, outcome: Outcome, m: Moment, v: Verdict) {
    var owed :=
      if outcome.Response? && RetryAfter.Parse(outcome.retryAfter, m.wall).Some?
      then Max(backoff, RetryAfter.Parse(outcome.retryAfter, m.wall).value) else backoff;
    var late := owed > 0 && deadline.Some? && deadline.value <= m.now + owed;
    && (v.Ready? && v.kind.TransientTransport? ==> v.delay == 0)
    && (v.Ready? && v.kind.Application? ==> v.delay == owed && !late)
    && (v.PastDeadline? ==> late)
  }

  /** What a verdict makes of an attempt: a transient transport failure comes first, if it may be retried; then
      what the classifier says of the request and of the status, failures having none; then the limit. */
  predicate Sorted(config: Config, total: nat, req: Request, outcome: Outcome, v: Verdict) {
    var transient := config.retryTransient && outcome == Failure(true);
    var matched :=
      Classify(
        config.classifier,
        ReqRep(req.verb, req.uri, req.headers, if outcome.Failure? then None else Some(outcome.status)));
    && (v.NotRetryable? <==> !transient && !matched)
    && (v.MaxHit? <==> (transient || matched) && total >= config.maxRetries)
    && (v.Ready? && v.kind.TransientTransport? <==> transient && total < config.maxRetries)
    && (v.PastDeadline? || (v.Ready? && v.kind.Application?) <==> !transient && matched && total < config.maxRetries)
  }

  /** `granted` is the answer of the budget, where it is asked. */
  function Sleep(config: Config, v: Verdict, granted: bool): Option<nat> {
    if v.Ready? && (v.kind.TransientTransport? || !config.budgeted || granted) then Some(v.delay) else None
  }

  function Count(c: Counters, v: Verdict, sleep: Option<nat>): Counters {
    if sleep.None? || !v.Ready? then c
    else Counters(c.total + 1, c.application + if v.kind.Application? then 1 else 0)
  }

  function Charge(config: Config, v: Verdict, l: Ledger, authority: string, granted: bool): Ledger
    requires Sound(l)
  {
    if !config.budgeted then l
    else if v.NotRetryable? then AfterDeposit(l, authority)
    else if v.Ready? && v.kind.Application? then AfterWithdraw(l, authority, granted)
    else l
  }

  function CloneOf(config: Config, c: Counters, req: Request): Option<Request> {
    if config.inScope(req) && c.total < config.maxRetries && req.bodyCanClone then Some(req) else None
  }

  /** The policy object that a call works with; clones share the budgets. */
  class Policy {
    const config: Config
    const budgets: HostBudgets
    var totalRetryCnt: nat
    var applicationRetryCnt: nat

    constructor (config: Config, budgets: HostBudgets)
      ensures this.config == config && this.budgets == budgets && Counts() == Counters(0, 0)
    {
      this.config, this.budgets := config, budgets;
      totalRetryCnt, applicationRetryCnt := 0, 0;
    }

    function Counts(): Counters
      reads this
    {
      Counters(totalRetryCnt, applicationRetryCnt)
    }

    /** A clone keeps everything that `retry` looks at. Having one, `retry` cannot run into the limit on
        retries; lacking one for that limit, it could do nothing else with a retryable outcome. */
    method CloneRequest(req: Request) returns (clone: Option<Request>)
      ensures clone == CloneOf(config, Counts(), req)
      ensures clone.Some? ==> clone.value == req && config.inScope(req) && req.bodyCanClone
      ensures clone.Some? ==> forall outcome, m :: !Judge(config, Counts(), req, outcome, m).MaxHit?
      ensures clone.None? && config.inScope(req) && req.bodyCanClone ==>
                forall outcome, m ::
                  var v := Judge(config, Counts(), req, outcome, m); v.MaxHit? || v.NotRetryable?
    {
      if !config.inScope(req) {
        return None;
      }
      if totalRetryCnt >= config.maxRetries {
        return None;
      }
      if !req.bodyCanClone {
        return None;
      }
      clone := Some(Request(req.verb, req.uri, req.headers, req.bodyCanClone, req.deadline));
    }

    /** The checks that come before the budget. */
    method Decide(req: Request, outcome: Outcome, m: Moment) returns (v: Verdict)
      ensures v == Judge(config, Counts(), req, outcome, m)
      ensures Fair(req.deadline, Delay(config.backoff, applicationRetryCnt, m.rand), outcome, m, v)
      ensures Sorted(config, totalRetryCnt, req, outcome, v)
    {
      var kind := Kind(config, req, outcome);
      if kind.None? {
        return NotRetryable;
      }
      if totalRetryCnt >= config.maxRetries {
        return MaxHit;
      }
      match kind.value
      case Application =>
        var wait := Wait(config, applicationRetryCnt, req, outcome, m);
        if wait.None? {
          return PastDeadline;
        }
        return Ready(Application, wait.value);
      case TransientTransport =>
        return Ready(TransientTransport, 0);
    }

    /** The budget, and the counters if the retry goes ahead. */
    method Proceed(v: Verdict, authority: string) returns (sleep: Option<nat>, ghost granted: bool)
      requires budgets.Valid()
      modifies this, budgets, budgets.made
      ensures budgets.Valid()
      ensures sleep == Sleep(config, v, granted)
      ensures Counts() == Count(old(Counts()), v, sleep)
      ensures budgets.ledger == Charge(config, v, old(budgets.ledger), authority, granted)
    {
      hide AfterDeposit, AfterWithdraw;
      sleep, granted := None, false;
      match v
      case NotRetryable =>
        if config.budgeted {
          budgets.Deposit(authority);
        }
      case MaxHit =>
      case PastDeadline =>
      case Ready(kind, delay) =>
        var withinBudget := true;
        if kind.Application? && config.budgeted {
          withinBudget := budgets.Withdraw(authority);
          granted := withinBudget;
        }
        if withinBudget {
          totalRetryCnt := totalRetryCnt + 1;
          if kind.Application? {
            applicationRetryCnt := applicationRetryCnt + 1;
          }
          sleep := Some(delay);
        }
    }

    /** A retry goes ahead exactly if it is ready and, where that is asked, the budget grants it; only then
        it counts. */
    method Retry(req: Request, outcome: Outcome, m: Moment)
      returns (sleep: Option<nat>, ghost v: Verdict, ghost granted: bool)
      requires budgets.Valid()
      modifies this, budgets, budgets.made
      ensures budgets.Valid()
      ensures v == Judge(config, old(Counts()), req, outcome, m)
      ensures Fair(req.deadline, Delay(config.backoff, old(applicationRetryCnt), m.rand), outcome, m, v)
      ensures Sorted(config, old(totalRetryCnt), req, outcome, v)
      ensures sleep.Some? <==> v.Ready? && (v.kind.TransientTransport? || !config.budgeted || granted)
      ensures sleep.Some? ==> sleep.value == v.delay
      ensures totalRetryCnt == old(totalRetryCnt) + if sleep.Some? then 1 else 0
      ensures applicationRetryCnt
              == old(applicationRetryCnt) + if sleep.Some? && v.kind.Application? then 1 else 0
      ensures budgets.ledger == Charge(config, v, old(budgets.ledger), req.uri.Authority(), granted)
    {
      hide Judge, Fair, Sorted, Charge;
      var verdict := Decide(req, outcome, m);
      v := verdict;
      sleep, granted := Proceed(verdict, req.uri.Authority());
    }
  }
}
