/** Any number of calls over the budgets of one policy. The map of budgets is locked only for a lookup:
    between looking a budget up and using it, other calls may do anything, even empty the map. */
module SharedBudget {
  import opened Budgets
  import opened RetryPolicy
  import opened Wrappers

  /** What a call is about to do with the budget it has looked up for an authority. */
  datatype Pending = Pending(id: nat, authority: string, verdict: Verdict)

  datatype Caller = Caller(counters: Counters, pending: Option<Pending>)

  /** `owners[id]` is the authority that budget `id` was made for. */
  datatype World = World(ledger: Ledger, owners: seq<string>, calls: seq<Caller>)

  /** A new logical call clones the policy. A call of `retry` is a `Look`, which decides and looks up a
      budget if it needs one, and then a `Use` of that budget. */
  datatype Event =
    | Start
    | Look(call: nat, req: Request, outcome: Outcome, m: Moment)
    | Use(call: nat, granted: bool)

  predicate UsesBudget(config: Config, v: Verdict) {
    config.budgeted && (v.NotRetryable? || (v.Ready? && v.kind.Application?))
  }

  predicate Looks(w: World, e: Event) {
    e.Look? && e.call < |w.calls| && w.calls[e.call].pending.None?
  }

  predicate Uses(w: World, e: Event) {
    e.Use? && e.call < |w.calls| && w.calls[e.call].pending.Some?
  }

  function VerdictOf(config: Config, w: World, e: Event): Verdict
    requires Looks(w, e)
  {
    Judge(config, w.calls[e.call].counters, e.req, e.outcome, e.m)
  }

  function LookedUp(w: World, call: nat, authority: string, v: Verdict): World
    requires call < |w.calls|
  {
    var p := Pending(BudgetOf(w.ledger, authority), authority, v);
    World(
      AfterGet(w.ledger, authority),
      if authority in w.ledger.hosts then w.owners else w.owners + [authority],
      w.calls[call := w.calls[call].(pending := Some(p))])
  }

  function Used(config: Config, w: World, call: nat, p: Pending, granted: bool): World
    requires call < |w.calls| && p.id < |w.ledger.tokens|
  {
    var withdrawn := if p.verdict.NotRetryable? || !granted then 0 else 1;
    var deposited := if p.verdict.NotRetryable? then 1 else 0;
    var c := Count(w.calls[call].counters, p.verdict, Sleep(config, p.verdict, granted));
    World(Spent(w.ledger, p.id, withdrawn, deposited), w.owners, w.calls[call := Caller(c, None)])
  }

  /** Without a budget `retry` is done at once. */
  function Counted(config: Config, w: World, call: nat, v: Verdict): World
    requires call < |w.calls|
  {
    w.(calls := w.calls[call := Caller(Count(w.calls[call].counters, v, Sleep(config, v, false)), None)])
  }

  /** An event that cannot happen changes nothing: a call is not consulted again before it is done. */
  function Next(config: Config, w: World, e: Event): World
    requires Inv(config, w)
  {
    if e.Start? then w.(calls := w.calls + [Caller(Counters(0, 0), None)])
    else if Looks(w, e) then
      var v := VerdictOf(config, w, e);
      if UsesBudget(config, v) then LookedUp(w, e.call, e.req.uri.Authority(), v) else Counted(config, w, e.call, v)
    else if Uses(w, e) then Used(config, w, e.call, w.calls[e.call].pending.value, e.granted)
    else w
  }

  // ----- invariant

  predicate OwnersOk(w: World) {
    && |w.owners| == |w.ledger.tokens|
    && forall a :: a in w.ledger.hosts ==> w.ledger.hosts[a] < |w.owners| && w.owners[w.ledger.hosts[a]] == a
  }

  /** What a call holds was made for the authority it looked up. */
  predicate PendingOk(config: Config, owners: seq<string>, p: Pending) {
    p.id < |owners| && owners[p.id] == p.authority && UsesBudget(config, p.verdict)
  }

  predicate Inv(config: Config, w: World) {
    && Sound(w.ledger) && OwnersOk(w)
    && (forall i :: 0 <= i < |w.calls| && w.calls[i].pending.Some? ==>
          PendingOk(config, w.owners, w.calls[i].pending.value))
  }

  lemma NextKeepsInv(config: Config, w: World, e: Event)
    requires Inv(config, w)
    ensures Inv(config, Next(config, w, e)) && w.owners <= Next(config, w, e).owners
  {
    if Looks(w, e) && UsesBudget(config, VerdictOf(config, w, e)) {
      LookKeepsInv(config, w, e.call, e.req.uri.Authority(), VerdictOf(config, w, e));
    }
  }

  lemma LookKeepsInv(config: Config, w: World, call: nat, authority: string, v: Verdict)
    requires Inv(config, w) && call < |w.calls| && UsesBudget(config, v)
    ensures Inv(config, LookedUp(w, call, authority, v))
  {
    GetKeepsSound(w.ledger, authority);
    assert OwnersOk(LookedUp(w, call, authority, v));
  }

  function Run(config: Config, w: World, events: seq<Event>): (r: World)
    requires Inv(config, w)
    ensures Inv(config, r) && w.owners <= r.owners
  {
    if events == [] then w
    else
      var before := Run(config, w, events[..|events| - 1]);
      NextKeepsInv(config, before, events[|events| - 1]);
      Next(config, before, events[|events| - 1])
  }

  const INITIAL := World(EMPTY_LEDGER, [], [])

  // ----- conservation

  function Withdrawn(tokens: seq<Tokens>): nat {
    if tokens == [] then 0 else Withdrawn(tokens[..|tokens| - 1]) + tokens[|tokens| - 1].withdrawn
  }

  function Deposited(tokens: seq<Tokens>): nat {
    if tokens == [] then 0 else Deposited(tokens[..|tokens| - 1]) + tokens[|tokens| - 1].deposited
  }

  function ApplicationRetries(calls: seq<Caller>): nat {
    if calls == [] then 0 else ApplicationRetries(calls[..|calls| - 1]) + calls[|calls| - 1].counters.application
  }

  function Owes(c: Caller): nat {
    if c.pending.Some? && c.pending.value.verdict.NotRetryable? then 1 else 0
  }

  /** Deposits that calls are about to make. */
  function Owed(calls: seq<Caller>): nat {
    if calls == [] then 0 else Owed(calls[..|calls| - 1]) + Owes(calls[|calls| - 1])
  }

  predicate Succeeds(config: Config, w: World, e: Event) {
    Looks(w, e) && VerdictOf(config, w, e).NotRetryable?
  }

  /** Consultations that found nothing to retry. */
  function Successes(config: Config, w: World, events: seq<Event>): nat
    requires Inv(config, w)
  {
    if events == [] then 0
    else
      var n := |events| - 1;
      Successes(config, w, events[..n]) + if Succeeds(config, Run(config, w, events[..n]), events[n]) then 1 else 0
  }

  lemma {:induction false} TokensUpdated(tokens: seq<Tokens>, id: nat, t: Tokens)
    requires id < |tokens|
    ensures Withdrawn(tokens[id := t]) == Withdrawn(tokens) - tokens[id].withdrawn + t.withdrawn
    ensures Deposited(tokens[id := t]) == Deposited(tokens) - tokens[id].deposited + t.deposited
  {
    var n := |tokens| - 1;
    if id == n {
      assert tokens[id := t][..n] == tokens[..n];
    } else {
      TokensUpdated(tokens[..n], id, t);
      assert tokens[id := t][..n] == tokens[..n][id := t];
    }
  }

  lemma {:induction false} CallsUpdated(calls: seq<Caller>, i: nat, c: Caller)
    requires i < |calls|
    ensures ApplicationRetries(calls[i := c])
            == ApplicationRetries(calls) - calls[i].counters.application + c.counters.application
    ensures Owed(calls[i := c]) == Owed(calls) - Owes(calls[i]) + Owes(c)
  {
    var n := |calls| - 1;
    if i == n {
      assert calls[i := c][..n] == calls[..n];
    } else {
      CallsUpdated(calls[..n], i, c);
      assert calls[i := c][..n] == calls[..n][i := c];
    }
  }

  lemma GetKeepsSums(l: Ledger, authority: string)
    ensures Withdrawn(AfterGet(l, authority).tokens) == Withdrawn(l.tokens)
    ensures Deposited(AfterGet(l, authority).tokens) == Deposited(l.tokens)
  {
    if authority !in l.hosts {
      assert AfterGet(l, authority).tokens[..|l.tokens|] == l.tokens;
    }
  }

  /** Successful withdrawals are exactly the application retries made, and deposits exactly the
      consultations with nothing to retry, but for those that a call is just about to make: transport
      retries, refusals for the deadline, for the limit or for want of budget leave every budget as it was. */
  lemma {:induction false} BudgetConservation(config: Config, events: seq<Event>)
    ensures var w := Run(config, INITIAL, events);
            && (config.budgeted ==> Withdrawn(w.ledger.tokens) == ApplicationRetries(w.calls))
            && (config.budgeted ==> Deposited(w.ledger.tokens) + Owed(w.calls) == Successes(config, INITIAL, events))
            && (!config.budgeted ==> w.ledger == EMPTY_LEDGER)
  {
    if events != [] {
      var n := |events| - 1;
      BudgetConservation(config, events[..n]);
      ConservationStep(config, Run(config, INITIAL, events[..n]), events[n]);
    }
  }

  /** What a step adds to the sums. */
  predicate Conserves(config: Config, w: World, w': World, successes: nat) {
    && (!config.budgeted ==> w'.ledger == w.ledger)
    && (config.budgeted ==>
          && Withdrawn(w'.ledger.tokens) - Withdrawn(w.ledger.tokens)
             == ApplicationRetries(w'.calls) - ApplicationRetries(w.calls)
          && Deposited(w'.ledger.tokens) + Owed(w'.calls) == Deposited(w.ledger.tokens) + Owed(w.calls) + successes)
  }

  lemma ConservationStep(config: Config, w: World, e: Event)
    requires Inv(config, w)
    ensures Conserves(config, w, Next(config, w, e), if Succeeds(config, w, e) then 1 else 0)
  {
    if e.Start? {
      assert Next(config, w, e).calls[..|w.calls|] == w.calls;
    } else if Looks(w, e) {
      LookConserves(config, w, e.call, e.req.uri.Authority(), VerdictOf(config, w, e));
    } else if Uses(w, e) {
      UseConserves(config, w, e.call, w.calls[e.call].pending.value, e.granted);
    }
  }

  lemma LookConserves(config: Config, w: World, call: nat, authority: string, v: Verdict)
    requires call < |w.calls| && w.calls[call].pending.None?
    ensures Conserves(
              config, w, if UsesBudget(config, v) then LookedUp(w, call, authority, v) else Counted(config, w, call, v),
              if v.NotRetryable? then 1 else 0)
  {
    var w' := if UsesBudget(config, v) then LookedUp(w, call, authority, v) else Counted(config, w, call, v);
    GetKeepsSums(w.ledger, authority);
    CallsUpdated(w.calls, call, w'.calls[call]);
  }

  lemma UseConserves(config: Config, w: World, call: nat, p: Pending, granted: bool)
    requires call < |w.calls| && w.calls[call].pending == Some(p)
    requires p.id < |w.ledger.tokens| && UsesBudget(config, p.verdict)
    ensures Conserves(config, w, Used(config, w, call, p, granted), 0)
  {
    var w' := Used(config, w, call, p, granted);
    TokensUpdated(w.ledger.tokens, p.id, w'.ledger.tokens[p.id]);
    CallsUpdated(w.calls, call, w'.calls[call]);
  }

  // ----- which budget an authority has

  predicate Concerns(e: Event, authority: string) {
    e.Look? && e.req.uri.Authority() == authority
  }

  /** No lookup in this run empties the map. */
  predicate NoResets(config: Config, w: World, events: seq<Event>)
    requires Inv(config, w)
  {
    forall i :: 0 <= i < |events| && events[i].Look? ==>
      !Resets(Run(config, w, events[..i]).ledger, events[i].req.uri.Authority())
  }

  lemma NoResetsPrefix(config: Config, w: World, events: seq<Event>)
    requires Inv(config, w) && events != [] && NoResets(config, w, events)
    ensures NoResets(config, w, events[..|events| - 1])
  {
    var prefix := events[..|events| - 1];
    forall i | 0 <= i < |prefix| && prefix[i].Look?
      ensures !Resets(Run(config, w, prefix[..i]).ledger, prefix[i].req.uri.Authority())
    {
      assert prefix[..i] == events[..i];
    }
  }

  /** While the map is not emptied, an authority keeps the budget object it has. */
  lemma {:induction false} SameBudgetBetweenResets(config: Config, w: World, events: seq<Event>, authority: string)
    requires Inv(config, w) && authority in w.ledger.hosts
    requires NoResets(config, w, events)
    ensures var hosts := Run(config, w, events).ledger.hosts;
            authority in hosts && hosts[authority] == w.ledger.hosts[authority]
  {
    if events != [] {
      var n := |events| - 1;
      NoResetsPrefix(config, w, events);
      SameBudgetBetweenResets(config, w, events[..n], authority);
      KeepsHost(config, Run(config, w, events[..n]), events[n], authority);
    }
  }

  lemma KeepsHost(config: Config, w: World, e: Event, authority: string)
    requires Inv(config, w) && authority in w.ledger.hosts
    requires e.Look? ==> !Resets(w.ledger, e.req.uri.Authority())
    ensures var hosts := Next(config, w, e).ledger.hosts;
            authority in hosts && hosts[authority] == w.ledger.hosts[authority]
  {
    hide Sound, Judge;
  }

  predicate NobodyHolds(calls: seq<Caller>, authority: string) {
    forall i :: 0 <= i < |calls| && calls[i].pending.Some? ==> calls[i].pending.value.authority != authority
  }

  /** Whatever happens to the other authorities, the tokens of a budget change only through calls that have
      looked it up for its own authority; and nobody else is ever given that budget. */
  lemma {:induction false} HostsAreIsolated(config: Config, w: World, events: seq<Event>, authority: string, id: nat)
    requires Inv(config, w) && id < |w.owners| && w.owners[id] == authority
    requires NobodyHolds(w.calls, authority)
    requires forall i :: 0 <= i < |events| ==> !Concerns(events[i], authority)
    ensures var r := Run(config, w, events);
            && r.ledger.tokens[id] == w.ledger.tokens[id] && NobodyHolds(r.calls, authority)
            && (forall a :: a in r.ledger.hosts && r.ledger.hosts[a] == id ==> a == authority)
  {
    if events != [] {
      var n := |events| - 1;
      HostsAreIsolated(config, w, events[..n], authority, id);
      IsolationStep(config, Run(config, w, events[..n]), events[n], authority, id);
    }
  }

  lemma IsolationStep(config: Config, w: World, e: Event, authority: string, id: nat)
    requires Inv(config, w) && id < |w.owners| && w.owners[id] == authority
    requires NobodyHolds(w.calls, authority) && !Concerns(e, authority)
    ensures var r := Next(config, w, e);
            id < |r.ledger.tokens| && r.ledger.tokens[id] == w.ledger.tokens[id] && NobodyHolds(r.calls, authority)
  {
    hide Sound, Judge;
  }

  // ----- a lookup and its use

  predicate IsBy(e: Event, call: nat) {
    !e.Start? && e.call == call
  }

  lemma {:induction false} CallWaits(config: Config, w: World, events: seq<Event>, call: nat)
    requires Inv(config, w) && call < |w.calls|
    requires forall i :: 0 <= i < |events| ==> !IsBy(events[i], call)
    ensures var r := Run(config, w, events); call < |r.calls| && r.calls[call] == w.calls[call]
  {
    if events != [] {
      var n := |events| - 1;
      CallWaits(config, w, events[..n], call);
      OtherCallsStay(config, Run(config, w, events[..n]), events[n], call);
    }
  }

  lemma OtherCallsStay(config: Config, w: World, e: Event, call: nat)
    requires Inv(config, w) && call < |w.calls| && !IsBy(e, call)
    ensures var calls := Next(config, w, e).calls; call < |calls| && calls[call] == w.calls[call]
  {
    hide Inv, Judge, AfterGet;
  }

  /** However the map has changed meanwhile, a call uses the budget it looked up, and no other. */
  lemma UseAfterOthers(config: Config, w: World, events: seq<Event>, call: nat, granted: bool)
    requires Inv(config, w) && call < |w.calls| && w.calls[call].pending.Some?
    requires forall i :: 0 <= i < |events| ==> !IsBy(events[i], call)
    ensures var (p, before) := (w.calls[call].pending.value, Run(config, w, events));
            var after := Next(config, before, Use(call, granted));
            && p.id < |before.ledger.tokens|
            && after.ledger.hosts == before.ledger.hosts
            && after.ledger.tokens
               == before.ledger.tokens[p.id :=
                    var t := before.ledger.tokens[p.id];
                    if p.verdict.NotRetryable? then t.(deposited := t.deposited + 1)
                    else t.(withdrawn := t.withdrawn + if granted then 1 else 0)]
  {
    hide Inv, Next, Run, Used;
    CallWaits(config, w, events, call);
    UseOfHeld(config, Run(config, w, events), call, granted);
    UsedTokens(config, Run(config, w, events), call, w.calls[call].pending.value, granted);
  }

  lemma UsedTokens(config: Config, w: World, call: nat, p: Pending, granted: bool)
    requires call < |w.calls| && p.id < |w.ledger.tokens|
    ensures var (t, l) := (w.ledger.tokens[p.id], Used(config, w, call, p, granted).ledger);
            && l.hosts == w.ledger.hosts
            && l.tokens
               == w.ledger.tokens[p.id :=
                    if p.verdict.NotRetryable? then t.(deposited := t.deposited + 1)
                    else t.(withdrawn := t.withdrawn + if granted then 1 else 0)]
  {
  }

  lemma UseOfHeld(config: Config, w: World, call: nat, granted: bool)
    requires Inv(config, w) && call < |w.calls| && w.calls[call].pending.Some?
    ensures var p := w.calls[call].pending.value;
            p.id < |w.ledger.tokens| && Next(config, w, Use(call, granted)) == Used(config, w, call, p, granted)
  {
    hide Used;
  }

  /** With nothing in between, a lookup and its use are one `retry`. */
  lemma UndisturbedIsRetry(
    config: Config, w: World, call: nat, req: Request, outcome: Outcome, m: Moment, granted: bool)
    requires Inv(config, w) && call < |w.calls| && w.calls[call].pending.None?
    ensures var c := w.calls[call].counters;
            var v := Judge(config, c, req, outcome, m);
            var r := Run(config, w, [Look(call, req, outcome, m), Use(call, granted)]);
            && r.ledger == Charge(config, v, w.ledger, req.uri.Authority(), granted)
            && r.calls == w.calls[call := Caller(Count(c, v, Sleep(config, v, granted)), None)]
  {
    hide Judge, Inv, Next, Used, Charge, Count, Sleep, Run, LookedUp, Counted;
    var look, use := Look(call, req, outcome, m), Use(call, granted);
    var v := Judge(config, w.calls[call].counters, req, outcome, m);
    TwoSteps(config, w, look, use);
    NextKeepsInv(config, w, look);
    LookStep(config, w, call, req, outcome, m);
    if UsesBudget(config, v) {
      UseAtOnce(config, w, call, req.uri.Authority(), v, granted);
      UseOfHeld(config, LookedUp(w, call, req.uri.Authority(), v), call, granted);
    } else {
      NothingToUse(config, w, call, req.uri.Authority(), v, granted);
    }
  }

  lemma TwoSteps(config: Config, w: World, first: Event, second: Event)
    requires Inv(config, w)
    ensures Inv(config, Next(config, w, first))
    ensures Run(config, w, [first, second]) == Next(config, Next(config, w, first), second)
  {
    hide Inv, Next;
    NextKeepsInv(config, w, first);
    assert [first, second][..1] == [first] && [first][..0] == [];
    assert Run(config, w, [first]) == Next(config, w, first);
  }

  lemma LookStep(config: Config, w: World, call: nat, req: Request, outcome: Outcome, m: Moment)
    requires Inv(config, w) && call < |w.calls| && w.calls[call].pending.None?
    ensures var v := Judge(config, w.calls[call].counters, req, outcome, m);
            Next(config, w, Look(call, req, outcome, m))
            == if UsesBudget(config, v) then LookedUp(w, call, req.uri.Authority(), v) else Counted(config, w, call, v)
  {
    hide Judge, LookedUp, Counted, Inv;
  }

  lemma UseAtOnce(config: Config, w: World, call: nat, authority: string, v: Verdict, granted: bool)
    requires Inv(config, w) && call < |w.calls| && UsesBudget(config, v)
    ensures var (looked, p) := (LookedUp(w, call, authority, v), Pending(BudgetOf(w.ledger, authority), authority, v));
            var c := w.calls[call].counters;
            && call < |looked.calls| && looked.calls[call].pending == Some(p) && p.id < |looked.ledger.tokens|
            && Used(config, looked, call, p, granted).ledger == Charge(config, v, w.ledger, authority, granted)
            && Used(config, looked, call, p, granted).calls
               == w.calls[call := Caller(Count(c, v, Sleep(config, v, granted)), None)]
  {
    hide Count, Sleep;
    GetKeepsSound(w.ledger, authority);
  }

  lemma NothingToUse(config: Config, w: World, call: nat, authority: string, v: Verdict, granted: bool)
    requires Inv(config, w) && call < |w.calls| && !UsesBudget(config, v)
    requires Inv(config, Counted(config, w, call, v))
    ensures var c := w.calls[call].counters;
            var r := Next(config, Counted(config, w, call, v), Use(call, granted));
            && r.ledger == Charge(config, v, w.ledger, authority, granted)
            && r.calls == w.calls[call := Caller(Count(c, v, Sleep(config, v, granted)), None)]
  {
    hide Inv;
  }
}
