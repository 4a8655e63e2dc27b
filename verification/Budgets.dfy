/** Retry budgets, one per authority, shared by every request that uses a policy. */
module Budgets {

  const MAX_HOSTS := 512

  /** What has happened to one budget so far. */
  datatype Tokens = Tokens(withdrawn: nat, deposited: nat)

  /** The shared map and its budgets as values: `tokens[id]` is the record of budget `id`, also
      after the map has forgotten it. */
  datatype Ledger = Ledger(hosts: map<string, nat>, tokens: seq<Tokens>)

  const EMPTY_LEDGER := Ledger(map[], [])

  /** True when looking up this authority forgets all the others. */
  predicate Resets(l: Ledger, authority: string) {
    authority !in l.hosts && |l.hosts| >= MAX_HOSTS
  }

  function Cleared(l: Ledger): Ledger {
    l.(hosts := map[])
  }

  function Inserted(l: Ledger, authority: string): Ledger {
    Ledger(l.hosts[authority := |l.tokens|], l.tokens + [Tokens(0, 0)])
  }

  function AfterGet(l: Ledger, authority: string): Ledger {
    if authority in l.hosts then l
    else Inserted(if |l.hosts| >= MAX_HOSTS then Cleared(l) else l, authority)
  }

  function BudgetOf(l: Ledger, authority: string): nat {
    if authority in l.hosts then l.hosts[authority] else |l.tokens|
  }

  /** A budget is used, whether or not the map still holds it. */
  function Spent(l: Ledger, id: nat, withdrawn: nat, deposited: nat): Ledger
    requires id < |l.tokens|
  {
    var t := l.tokens[id];
    l.(tokens := l.tokens[id := Tokens(t.withdrawn + withdrawn, t.deposited + deposited)])
  }

  function AfterUse(l: Ledger, authority: string, withdrawn: nat, deposited: nat): Ledger
    requires Sound(l)
  {
    Spent(AfterGet(l, authority), BudgetOf(l, authority), withdrawn, deposited)
  }

  function AfterWithdraw(l: Ledger, authority: string, granted: bool): Ledger
    requires Sound(l)
  {
    AfterUse(l, authority, if granted then 1 else 0, 0)
  }

  function AfterDeposit(l: Ledger, authority: string): Ledger
    requires Sound(l)
  {
    AfterUse(l, authority, 0, 1)
  }

  /** At most 512 authorities, none sharing a budget with another. */
  predicate Sound(l: Ledger) {
    && |l.hosts| <= MAX_HOSTS
    && (forall a :: a in l.hosts ==> l.hosts[a] < |l.tokens|)
    && (forall a, b :: a in l.hosts && b in l.hosts && l.hosts[a] == l.hosts[b] ==> a == b)
  }

  lemma InsertKeepsSound(l: Ledger, authority: string)
    requires Sound(l) && authority !in l.hosts && |l.hosts| < MAX_HOSTS
    ensures Sound(Inserted(l, authority))
  {
    assert Inserted(l, authority).hosts.Keys == l.hosts.Keys + {authority};
  }

  lemma GetKeepsSound(l: Ledger, authority: string)
    requires Sound(l)
    ensures Sound(AfterGet(l, authority))
  {
    if Resets(l, authority) {
      InsertKeepsSound(Cleared(l), authority);
    } else if authority !in l.hosts {
      InsertKeepsSound(l, authority);
    }
  }

  /** A lookup leaves the budgets of all other authorities in place, unless it is the first of an authority and 512
      others are there already: then it alone is left. A first lookup makes a budget that has seen nothing. */
  lemma ForgetsOnlyWhenFull(l: Ledger, authority: string, other: string)
    requires Sound(l) && other != authority
    ensures var after := AfterGet(l, authority);
            && authority in after.hosts && after.hosts[authority] == BudgetOf(l, authority) < |after.tokens|
            && l.tokens <= after.tokens
            && (if authority in l.hosts then after == l
                else after.tokens == l.tokens + [Tokens(0, 0)] && after.hosts[authority] == |l.tokens|)
            && (if authority in l.hosts || |l.hosts| < 512 then
                  (other in after.hosts <==> other in l.hosts)
                  && (other in l.hosts ==> after.hosts[other] == l.hosts[other])
                else other !in after.hosts)
  {
  }

  /** One token budget. Whether a withdrawal succeeds is up to its rolling window, which is not
      part of this model; the record says what happened. */
  class TpsBudget {
    ghost const id: nat
    var record: Tokens

    constructor (ghost id: nat)
      ensures this.id == id && record == Tokens(0, 0)
    {
      this.id := id;
      record := Tokens(0, 0);
    }

    method Deposit()
      modifies this
      ensures record == old(record).(deposited := old(record).deposited + 1)
    {
      record := record.(deposited := record.deposited + 1);
    }

    method Withdraw() returns (ok: bool)
      modifies this
      ensures record == old(record).(withdrawn := old(record).withdrawn + if ok then 1 else 0)
    {
      ok := *;
      if ok {
        record := record.(withdrawn := record.withdrawn + 1);
      }
    }
  }

  class HostBudgets {
    var hosts: map<string, TpsBudget>
    ghost var made: seq<TpsBudget>
    ghost var ledger: Ledger

    ghost predicate Valid()
      reads this, made
    {
      && Sound(ledger)
      && |made| == |ledger.tokens|
      && (forall i :: 0 <= i < |made| ==> made[i].id == i && made[i].record == ledger.tokens[i])
      && hosts.Keys == ledger.hosts.Keys
      && (forall a :: a in hosts ==> hosts[a] == made[ledger.hosts[a]])
    }

    constructor ()
      ensures Valid() && ledger == EMPTY_LEDGER && made == []
    {
      hosts, made, ledger := map[], [], EMPTY_LEDGER;
    }

    method Get(authority: string) returns (budget: TpsBudget)
      requires Valid()
      modifies this
      ensures Valid() && ledger == AfterGet(old(ledger), authority)
      ensures authority in hosts && budget == hosts[authority]
      ensures Made(budget) && budget.id == BudgetOf(old(ledger), authority)
      ensures old(made) <= made && forall i :: |old(made)| <= i < |made| ==> fresh(made[i])
    {
      if authority in hosts {
        return hosts[authority];
      }
      assert |hosts| == |hosts.Keys| && |ledger.hosts| == |ledger.hosts.Keys|;
      if |hosts| >= MAX_HOSTS {
        hosts, ledger := map[], Cleared(ledger);
      }
      budget := new TpsBudget(|made|);
      Insert(authority, budget);
    }

    /** Adds a new budget for an authority the map does not hold. */
    method Insert(authority: string, budget: TpsBudget)
      requires Valid() && authority !in hosts && |ledger.hosts| < MAX_HOSTS
      requires budget.id == |made| && budget.record == Tokens(0, 0)
      modifies this
      ensures Valid() && ledger == Inserted(old(ledger), authority)
      ensures made == old(made) + [budget]
    {
      InsertKeepsSound(ledger, authority);
      hosts := hosts[authority := budget];
      made := made + [budget];
      ledger := Inserted(ledger, authority);
    }

    /** A budget obtained from the map, now or before a reset. */
    ghost predicate Made(budget: TpsBudget)
      reads this
    {
      budget.id < |made| && made[budget.id] == budget
    }

    /** What a call does with the budget it has looked up, after the map has been let go. */
    method DepositTo(budget: TpsBudget)
      requires Valid() && Made(budget)
      modifies this`ledger, budget
      ensures Valid() && ledger == Spent(old(ledger), budget.id, 0, 1)
    {
      budget.Deposit();
      ledger := Spent(ledger, budget.id, 0, 1);
    }

    method WithdrawFrom(budget: TpsBudget) returns (ok: bool)
      requires Valid() && Made(budget)
      modifies this`ledger, budget
      ensures Valid() && ledger == Spent(old(ledger), budget.id, if ok then 1 else 0, 0)
    {
      ok := budget.Withdraw();
      ledger := Spent(ledger, budget.id, if ok then 1 else 0, 0);
    }

    method Deposit(authority: string)
      requires Valid()
      modifies this, made
      ensures Valid() && ledger == AfterDeposit(old(ledger), authority)
      ensures old(made) <= made && forall i :: |old(made)| <= i < |made| ==> fresh(made[i])
    {
      var budget := Get(authority);
      DepositTo(budget);
    }

    method Withdraw(authority: string) returns (ok: bool)
      requires Valid()
      modifies this, made
      ensures Valid() && ledger == AfterWithdraw(old(ledger), authority, ok)
      ensures old(made) <= made && forall i :: |old(made)| <= i < |made| ==> fresh(made[i])
    {
      var budget := Get(authority);
      ok := WithdrawFrom(budget);
    }
  }
}
