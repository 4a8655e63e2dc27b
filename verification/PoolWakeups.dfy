/** Safety of the pool protocol over every run: one attempt per key, and no waiter forgotten. */
module PoolWakeups {
  import opened Wrappers
  import opened Pool
  import opened PoolProtocol

  // ----- the invariant

  predicate WaitsOn(task: Task, ch: nat) {
    task.Waiting? && task.ch == ch
  }

  function Subscribers(tasks: seq<Task>, ch: nat): nat {
    if tasks == [] then 0
    else Subscribers(tasks[..|tasks| - 1], ch) + if WaitsOn(tasks[|tasks| - 1], ch) then 1 else 0
  }

  /** What a closed channel holds for those still subscribed to it. */
  function Delivery(a: Attempt): Option<nat> {
    if a.Succeeded? then Some(a.client) else None
  }

  predicate Channels(p: State, attempts: seq<Attempt>) {
    && |attempts| == |p.chans|
    && (forall k :: k in p.connecting ==> Named(p, k) && p.chans[p.connecting[k]].open)
    && (forall k1, k2 :: k1 in p.connecting && k2 in p.connecting && p.connecting[k1] == p.connecting[k2] ==> k1 == k2)
    && (forall ch :: 0 <= ch < |p.chans| ==>
          && (p.chans[ch].open <==> attempts[ch].InFlight?)
          && (p.chans[ch].open ==> p.chans[ch].value.None?))
  }

  predicate TaskOk(p: State, attempts: seq<Attempt>, task: Task)
    requires |attempts| == |p.chans|
  {
    match task
    case Waiting(key, ch) =>
      && ch < |p.chans|
      && (if p.chans[ch].open then key in p.connecting && p.connecting[key] == ch
          else p.chans[ch].value == Delivery(attempts[ch]))
    case Served(key, ch, client) => ch < |attempts| && attempts[ch] == Succeeded(client)
    case Failed(key, ch) => ch < |attempts| && attempts[ch].Abandoned?
    case _ => Holds(task) ==> task.key in p.connecting && p.connecting[task.key] == task.ch
  }

  predicate TasksOk(w: World)
    requires |w.attempts| == |w.pool.chans|
  {
    forall t :: 0 <= t < |w.tasks| ==> TaskOk(w.pool, w.attempts, w.tasks[t])
  }

  predicate HoldsKey(w: World, t: nat, key: Key) {
    t < |w.tasks| && Holds(w.tasks[t]) && w.tasks[t].key == key
  }

  /** The keys of `connecting` are exactly the keys of the live locks, one lock per key. */
  ghost predicate OneLockPerKey(w: World) {
    && (forall t1: nat, t2: nat, k :: HoldsKey(w, t1, k) && HoldsKey(w, t2, k) ==> t1 == t2)
    && (forall k :: k in w.pool.connecting <==> exists t: nat :: HoldsKey(w, t, k))
  }

  predicate Counted(w: World) {
    forall ch :: 0 <= ch < |w.pool.chans| ==> w.pool.chans[ch].receivers == Subscribers(w.tasks, ch)
  }

  ghost predicate Inv(w: World) {
    Channels(w.pool, w.attempts) && TasksOk(w) && OneLockPerKey(w) && Counted(w)
  }

  // ----- counting subscribers

  lemma {:induction false} SubscribersUpdated(tasks: seq<Task>, t: nat, task: Task, ch: nat)
    requires t < |tasks|
    ensures Subscribers(tasks[t := task], ch)
            == Subscribers(tasks, ch) - (if WaitsOn(tasks[t], ch) then 1 else 0) + if WaitsOn(task, ch) then 1 else 0
  {
    var n := |tasks| - 1;
    if t == n {
      assert tasks[t := task][..n] == tasks[..n];
    } else {
      SubscribersUpdated(tasks[..n], t, task, ch);
      assert tasks[t := task][..n] == tasks[..n][t := task];
    }
  }

  lemma {:induction false} WaiterIsCounted(tasks: seq<Task>, t: nat, ch: nat)
    requires t < |tasks| && WaitsOn(tasks[t], ch)
    ensures Subscribers(tasks, ch) > 0
  {
    if t < |tasks| - 1 {
      WaiterIsCounted(tasks[..|tasks| - 1], t, ch);
    }
  }

  lemma {:induction false} NobodyWaits(tasks: seq<Task>, ch: nat)
    requires forall t :: 0 <= t < |tasks| ==> !WaitsOn(tasks[t], ch)
    ensures Subscribers(tasks, ch) == 0
  {
    if tasks != [] {
      NobodyWaits(tasks[..|tasks| - 1], ch);
    }
  }

  /** A task that does not wait becomes another that does not. */
  lemma CountedStays(w: World, w': World, t: nat, task: Task)
    requires Counted(w) && t < |w.tasks|
    requires w'.tasks == w.tasks[t := task] && !w.tasks[t].Waiting? && !task.Waiting?
    requires |w'.pool.chans| == |w.pool.chans|
    requires forall ch :: 0 <= ch < |w.pool.chans| ==> w'.pool.chans[ch].receivers == w.pool.chans[ch].receivers
    ensures Counted(w')
  {
    forall ch | 0 <= ch < |w'.pool.chans| ensures w'.pool.chans[ch].receivers == Subscribers(w'.tasks, ch) {
      SubscribersUpdated(w.tasks, t, task, ch);
    }
  }

  // ----- holders of locks

  lemma HolderStays(w: World, w': World, t: nat, task: Task)
    requires OneLockPerKey(w) && t < |w.tasks|
    requires w'.tasks == w.tasks[t := task] && w'.pool.connecting == w.pool.connecting
    requires Holds(task) == Holds(w.tasks[t]) && task.key == w.tasks[t].key
    ensures OneLockPerKey(w')
  {
    assert forall i: nat, k :: HoldsKey(w', i, k) <==> HoldsKey(w, i, k);
  }

  lemma HolderAdded(w: World, w': World, t: nat, task: Task)
    requires OneLockPerKey(w) && t < |w.tasks| && !Holds(w.tasks[t]) && Holds(task)
    requires task.key !in w.pool.connecting
    requires w'.tasks == w.tasks[t := task]
    requires w'.pool.connecting.Keys == w.pool.connecting.Keys + {task.key}
    ensures OneLockPerKey(w')
  {
    assert HoldsKey(w', t, task.key);
    assert forall i: nat, k :: HoldsKey(w', i, k) <==> HoldsKey(w, i, k) || (i == t && k == task.key);
  }

  lemma HolderRemoved(w: World, w': World, t: nat, task: Task)
    requires OneLockPerKey(w) && t < |w.tasks| && Holds(w.tasks[t]) && !Holds(task)
    requires w'.tasks == w.tasks[t := task]
    requires w'.pool.connecting.Keys == w.pool.connecting.Keys - {w.tasks[t].key}
    ensures OneLockPerKey(w')
  {
    var key := w.tasks[t].key;
    assert HoldsKey(w, t, key);
    assert forall i: nat, k :: HoldsKey(w', i, k) <==> HoldsKey(w, i, k) && i != t;
    forall k ensures k in w'.pool.connecting <==> exists i: nat :: HoldsKey(w', i, k) {
      if k in w'.pool.connecting {
        var i: nat :| HoldsKey(w, i, k);
        assert HoldsKey(w', i, k);
      }
    }
  }

  // ----- every step keeps the invariant

  lemma SpawnKeeps(w: World, w': World, key: Key)
    requires Inv(w) && w' == w.(tasks := w.tasks + [Start(key)])
    ensures Inv(w')
  {
    assert forall i: nat, k :: HoldsKey(w', i, k) <==> HoldsKey(w, i, k);
    forall ch | 0 <= ch < |w'.pool.chans| ensures w'.pool.chans[ch].receivers == Subscribers(w'.tasks, ch) {
      assert w'.tasks[..|w.tasks|] == w.tasks;
    }
  }

  /** Steps that leave `connecting` and the channels alone. */
  lemma LocalStepKeeps(w: World, w': World, t: nat, task: Task)
    requires Inv(w) && t < |w.tasks|
    requires w'.tasks == w.tasks[t := task] && w'.attempts == w.attempts
    requires w'.pool.connecting == w.pool.connecting && w'.pool.chans == w.pool.chans
    requires !w.tasks[t].Waiting? && !task.Waiting? && !task.Served? && !task.Failed?
    requires Holds(task) == Holds(w.tasks[t]) && task.key == w.tasks[t].key
    requires Holds(task) ==> task.ch == w.tasks[t].ch
    ensures Inv(w')
  {
    CountedStays(w, w', t, task);
    HolderStays(w, w', t, task);
    assert Channels(w'.pool, w'.attempts);
    forall i | 0 <= i < |w'.tasks| ensures TaskOk(w'.pool, w'.attempts, w'.tasks[i]) {
      assert TaskOk(w.pool, w.attempts, w.tasks[i]);
    }
  }

  lemma SubscribeKeeps(w: World, t: nat)
    requires Inv(w) && Enabled(w, Enter(t)) && Named(w.pool, w.tasks[t].key)
    ensures Inv(DoEnter(w, t))
  {
    var w' := DoEnter(w, t);
    var key := w.tasks[t].key;
    var target := w.pool.connecting[key];
    HolderStays(w, w', t, Waiting(key, target));
    SubscribeKeepsTasks(w, w', t);
    forall ch | 0 <= ch < |w'.pool.chans| ensures w'.pool.chans[ch].receivers == Subscribers(w'.tasks, ch) {
      SubscribersUpdated(w.tasks, t, Waiting(key, target), ch);
    }
  }

  lemma SubscribeKeepsTasks(w: World, w': World, t: nat)
    requires Inv(w) && Enabled(w, Enter(t)) && Named(w.pool, w.tasks[t].key) && w' == DoEnter(w, t)
    ensures Channels(w'.pool, w'.attempts) && TasksOk(w')
  {
    hide Subscribers;
    forall i | 0 <= i < |w'.tasks| ensures TaskOk(w'.pool, w'.attempts, w'.tasks[i]) {
      assert TaskOk(w.pool, w.attempts, w.tasks[i]);
    }
  }

  lemma AcquireKeeps(w: World, t: nat)
    requires Inv(w) && Enabled(w, Enter(t)) && !Named(w.pool, w.tasks[t].key)
    ensures Inv(DoEnter(w, t))
  {
    var w' := DoEnter(w, t);
    var key, n := w.tasks[t].key, |w.pool.chans|;
    HolderAdded(w, w', t, Attempting(key, n));
    AcquireKeepsTasks(w, w', t);
    forall ch | 0 <= ch < |w'.pool.chans| ensures w'.pool.chans[ch].receivers == Subscribers(w'.tasks, ch) {
      SubscribersUpdated(w.tasks, t, Attempting(key, n), ch);
      if ch == n {
        forall i | 0 <= i < |w.tasks| ensures !WaitsOn(w.tasks[i], n) {
          assert TaskOk(w.pool, w.attempts, w.tasks[i]);
        }
        NobodyWaits(w.tasks, n);
      }
    }
  }

  lemma AcquireKeepsTasks(w: World, w': World, t: nat)
    requires Inv(w) && Enabled(w, Enter(t)) && w.tasks[t].key !in w.pool.connecting && w' == DoEnter(w, t)
    ensures Channels(w'.pool, w'.attempts) && TasksOk(w')
  {
    forall i | 0 <= i < |w'.tasks| ensures TaskOk(w'.pool, w'.attempts, w'.tasks[i]) {
      assert TaskOk(w.pool, w.attempts, w.tasks[i]);
    }
  }

  /** A waiter leaves its channel, with what the channel holds or because it is cancelled. */
  lemma LeaveKeeps(w: World, w': World, t: nat, task: Task)
    requires Inv(w) && t < |w.tasks| && w.tasks[t].Waiting?
    requires w' == LeaveChannel(Become(w, t, task), w.tasks[t].ch)
    requires !task.Waiting? && !Holds(task) && task.key == w.tasks[t].key
    requires TaskOk(w.pool, w.attempts, task)
    ensures Inv(w')
  {
    var left := w.tasks[t].ch;
    assert TaskOk(w.pool, w.attempts, w.tasks[t]);
    WaiterIsCounted(w.tasks, t, left);
    HolderStays(w, w', t, task);
    forall ch | 0 <= ch < |w'.pool.chans| ensures w'.pool.chans[ch].receivers == Subscribers(w'.tasks, ch) {
      SubscribersUpdated(w.tasks, t, task, ch);
    }
    forall i | 0 <= i < |w'.tasks| ensures TaskOk(w'.pool, w'.attempts, w'.tasks[i]) {
      assert TaskOk(w.pool, w.attempts, w.tasks[i]);
    }
  }

  /** The holder of a lock ends its attempt: its channel closes, and the key is free again. */
  predicate Releases(w: World, w': World, t: nat, attempt: Attempt) {
    && t < |w.tasks| && Holds(w.tasks[t]) && !attempt.InFlight?
    && var (key, ch) := (w.tasks[t].key, w.tasks[t].ch);
       && w'.tasks == w.tasks[t := if attempt.Succeeded? then Served(key, ch, attempt.client) else Failed(key, ch)]
       && ch < |w.attempts| && w'.attempts == w.attempts[ch := attempt]
       && Named(w.pool, key) && w.pool.connecting[key] == ch
       && var p := Released(w.pool, key, Delivery(attempt));
          w'.pool.connecting == p.connecting && w'.pool.chans == p.chans
  }

  lemma ReleaseKeeps(w: World, w': World, t: nat, attempt: Attempt)
    requires Inv(w) && Releases(w, w', t, attempt)
    ensures Inv(w')
  {
    CountedStays(w, w', t, w'.tasks[t]);
    HolderRemoved(w, w', t, w'.tasks[t]);
    ReleaseKeepsChannels(w, w', t, attempt);
    forall i | 0 <= i < |w'.tasks| ensures TaskOk(w'.pool, w'.attempts, w'.tasks[i]) {
      ReleaseKeepsTask(w, w', t, attempt, i);
    }
  }

  lemma ReleaseKeepsChannels(w: World, w': World, t: nat, attempt: Attempt)
    requires Channels(w.pool, w.attempts) && Releases(w, w', t, attempt)
    ensures Channels(w'.pool, w'.attempts)
  {
  }

  lemma ReleaseKeepsTask(w: World, w': World, t: nat, attempt: Attempt, i: nat)
    requires Inv(w) && Releases(w, w', t, attempt) && i < |w.tasks|
    requires |w'.attempts| == |w'.pool.chans|
    ensures TaskOk(w'.pool, w'.attempts, w'.tasks[i])
  {
    assert TaskOk(w.pool, w.attempts, w.tasks[i]);
    if i != t {
      var other := w.tasks[i];
      if Holds(other) {
        assert HoldsKey(w, i, other.key) && HoldsKey(w, t, w.tasks[t].key);
      } else if WaitsOn(other, w.tasks[t].ch) {
        WaiterIsCounted(w.tasks, i, other.ch);
      }
    }
  }

  lemma ReceiveKeeps(w: World, t: nat)
    requires Inv(w) && Enabled(w, Receive(t))
    ensures Inv(DoReceive(w, t))
  {
    assert TaskOk(w.pool, w.attempts, w.tasks[t]);
    var value := w.pool.chans[w.tasks[t].ch].value;
    var task := if value.Some? then Served(w.tasks[t].key, w.tasks[t].ch, value.value) else Failed(w.tasks[t].key, w.tasks[t].ch);
    LeaveKeeps(w, DoReceive(w, t), t, task);
  }

  lemma NewConnectionKeeps(w: World, t: nat)
    requires Inv(w) && Enabled(w, NewConnection(t))
    ensures Inv(DoNewConnection(w, t))
  {
    assert TaskOk(w.pool, w.attempts, w.tasks[t]);
    ReleaseKeeps(w, DoNewConnection(w, t), t, Succeeded(w.tasks[t].client));
  }

  lemma DropLockKeeps(w: World, t: nat)
    requires Inv(w) && Enabled(w, DropLock(t))
    ensures Inv(DoDropLock(w, t))
  {
    assert TaskOk(w.pool, w.attempts, w.tasks[t]);
    ReleaseKeeps(w, DoDropLock(w, t), t, Abandoned);
  }

  lemma CancelKeeps(w: World, t: nat)
    requires Inv(w) && Enabled(w, Cancel(t))
    ensures Inv(DoCancel(w, t))
  {
    var w' := DoCancel(w, t);
    if w.tasks[t].Waiting? {
      LeaveKeeps(w, w', t, Cancelled(w.tasks[t].key));
    } else {
      LocalStepKeeps(w, w', t, w'.tasks[t]);
    }
  }

  lemma TryPoolKeeps(timeout: Option<nat>, w: World, t: nat)
    requires Inv(w) && Enabled(w, TryPool(t))
    ensures Inv(DoTryPool(timeout, w, t))
  {
    var w' := DoTryPool(timeout, w, t);
    LocalStepKeeps(w, w', t, w'.tasks[t]);
  }

  lemma StepKeepsInv(timeout: Option<nat>, w: World, a: Action)
    requires Inv(w)
    ensures Inv(Next(timeout, w, a))
  {
    if Enabled(w, a) {
      var w' := Next(timeout, w, a);
      match a
      case Spawn(key) => SpawnKeeps(w, w', key);
      case TryPool(t) => TryPoolKeeps(timeout, w, t);
      case Enter(t) => if Named(w.pool, w.tasks[t].key) { SubscribeKeeps(w, t); } else { AcquireKeeps(w, t); }
      case Receive(t) => ReceiveKeeps(w, t);
      case ConnectOk(t) => LocalStepKeeps(w, w', t, w'.tasks[t]);
      case ConnectFail(t) => LocalStepKeeps(w, w', t, w'.tasks[t]);
      case NewConnection(t) => NewConnectionKeeps(w, t);
      case DropLock(t) => DropLockKeeps(w, t);
      case Cancel(t) => CancelKeeps(w, t);
      case CloseDriver(_) => SameButClock(w, w');
      case Tick(_) => SameButClock(w, w');
    }
  }

  lemma SameButClock(w: World, w': World)
    requires Inv(w) && w'.pool == w.pool && w'.tasks == w.tasks && w'.attempts == w.attempts
    ensures Inv(w')
  {
    assert forall i: nat, k :: HoldsKey(w', i, k) <==> HoldsKey(w, i, k);
  }

  lemma {:induction false} RunKeepsInv(timeout: Option<nat>, actions: seq<Action>)
    ensures Inv(Run(timeout, actions))
  {
    if actions != [] {
      var before := actions[..|actions| - 1];
      RunKeepsInv(timeout, before);
      StepKeepsInv(timeout, Run(timeout, before), actions[|actions| - 1]);
    }
  }

  // ----- what every run guarantees

  /** Lock discipline: one live lock per key of `connecting` and none besides, so that no two attempts
      for a key are ever under way, and `new_connection` always finds the key of its lock. */
  lemma LockDiscipline(timeout: Option<nat>, actions: seq<Action>)
    ensures var w := Run(timeout, actions);
            && OneLockPerKey(w)
            && (forall t: nat :: Enabled(w, NewConnection(t)) || Enabled(w, DropLock(t)) ==> Named(w.pool, w.tasks[t].key))
  {
    RunKeepsInv(timeout, actions);
    var w := Run(timeout, actions);
    forall t: nat | Enabled(w, NewConnection(t)) || Enabled(w, DropLock(t)) ensures Named(w.pool, w.tasks[t].key) {
      assert TaskOk(w.pool, w.attempts, w.tasks[t]);
    }
  }

  /** No lost wakeup: a waiter whose channel is unresolved has its sender in `connecting` under its
      own key, and exactly one task holds the lock of that key; a resolved channel holds what the
      attempt came to. */
  lemma NoLostWakeup(timeout: Option<nat>, actions: seq<Action>, t: nat)
    requires var w := Run(timeout, actions); t < |w.tasks| && w.tasks[t].Waiting?
    ensures var w := Run(timeout, actions);
            var (key, ch) := (w.tasks[t].key, w.tasks[t].ch);
            && ch < |w.pool.chans| && ch < |w.attempts|
            && if Resolved(w.pool.chans[ch]) then
                 !w.attempts[ch].InFlight? && w.pool.chans[ch].value == Delivery(w.attempts[ch])
               else
                 && w.attempts[ch].InFlight?
                 && key in w.pool.connecting && w.pool.connecting[key] == ch
                 && exists holder: nat ::
                      && HoldsKey(w, holder, key) && w.tasks[holder].ch == ch
                      && forall other: nat :: HoldsKey(w, other, key) ==> other == holder
  {
    RunKeepsInv(timeout, actions);
    var w := Run(timeout, actions);
    assert TaskOk(w.pool, w.attempts, w.tasks[t]);
    if !Resolved(w.pool.chans[w.tasks[t].ch]) {
      var holder: nat :| HoldsKey(w, holder, w.tasks[t].key);
      assert TaskOk(w.pool, w.attempts, w.tasks[holder]);
    }
  }

  /** Everyone served through one attempt has the same client, and nobody is told of failure by an
      attempt that succeeded, or served by one that failed. */
  lemma OneAttemptOneOutcome(timeout: Option<nat>, actions: seq<Action>, t1: nat, t2: nat)
    requires var w := Run(timeout, actions);
             && t1 < |w.tasks| && t2 < |w.tasks|
             && (w.tasks[t1].Served? || w.tasks[t1].Failed?) && (w.tasks[t2].Served? || w.tasks[t2].Failed?)
             && w.tasks[t1].ch == w.tasks[t2].ch
    ensures var w := Run(timeout, actions);
            && (w.tasks[t1].Served? <==> w.tasks[t2].Served?)
            && (w.tasks[t1].Served? ==> w.tasks[t1].client == w.tasks[t2].client)
  {
    RunKeepsInv(timeout, actions);
    var w := Run(timeout, actions);
    assert TaskOk(w.pool, w.attempts, w.tasks[t1]);
    assert TaskOk(w.pool, w.attempts, w.tasks[t2]);
  }

  /** A waiter on a closed channel receives what the attempt came to. */
  lemma WaiterReceives(timeout: Option<nat>, w: World, i: nat, ch: nat)
    requires Inv(w) && i < |w.tasks| && WaitsOn(w.tasks[i], ch)
    requires ch < |w.attempts| && !w.attempts[ch].InFlight?
    ensures Enabled(w, Receive(i))
    ensures Next(timeout, w, Receive(i)).tasks[i]
            == if w.attempts[ch].Succeeded? then Served(w.tasks[i].key, ch, w.attempts[ch].client)
               else Failed(w.tasks[i].key, ch)
  {
    assert TaskOk(w.pool, w.attempts, w.tasks[i]);
  }

  /** When an attempt succeeds, its holder, each waiter subscribed to it and the idle entry of the key
      get one and the same client. */
  lemma AttemptSucceeds(timeout: Option<nat>, actions: seq<Action>, t: nat)
    requires Enabled(Run(timeout, actions), NewConnection(t))
    ensures var w := Run(timeout, actions);
            var w' := Next(timeout, w, NewConnection(t));
            var Connected(key, ch, client) := w.tasks[t];
            && w'.tasks[t] == Served(key, ch, client)
            && key !in w'.pool.connecting
            && key in w'.pool.idle && w'.pool.idle[key] == Conn(client, w.now)
            && forall i: nat :: i < |w'.tasks| && WaitsOn(w'.tasks[i], ch) ==>
                 && Enabled(w', Receive(i))
                 && Next(timeout, w', Receive(i)).tasks[i] == Served(w'.tasks[i].key, ch, client)
  {
    var w := Run(timeout, actions);
    var w' := Next(timeout, w, NewConnection(t));
    RunKeepsInv(timeout, actions);
    assert TaskOk(w.pool, w.attempts, w.tasks[t]);
    NewConnectionKeeps(w, t);
    var ch := w.tasks[t].ch;
    forall i: nat | i < |w'.tasks| && WaitsOn(w'.tasks[i], ch)
      ensures Enabled(w', Receive(i))
      ensures Next(timeout, w', Receive(i)).tasks[i] == Served(w'.tasks[i].key, ch, w.tasks[t].client)
    {
      WaiterReceives(timeout, w', i, ch);
    }
  }

  /** When the lock is dropped instead, the key is free again and each waiter gets nothing. */
  lemma AttemptIsAbandoned(timeout: Option<nat>, actions: seq<Action>, t: nat)
    requires Enabled(Run(timeout, actions), DropLock(t))
    ensures var w := Run(timeout, actions);
            var w' := Next(timeout, w, DropLock(t));
            var Dropping(key, ch) := w.tasks[t];
            && key !in w'.pool.connecting && w'.pool.idle == w.pool.idle
            && forall i: nat :: i < |w'.tasks| && WaitsOn(w'.tasks[i], ch) ==>
                 && Enabled(w', Receive(i))
                 && Next(timeout, w', Receive(i)).tasks[i] == Failed(w'.tasks[i].key, ch)
  {
    var w := Run(timeout, actions);
    var w' := Next(timeout, w, DropLock(t));
    RunKeepsInv(timeout, actions);
    assert TaskOk(w.pool, w.attempts, w.tasks[t]);
    DropLockKeeps(w, t);
    var ch := w.tasks[t].ch;
    forall i: nat | i < |w'.tasks| && WaitsOn(w'.tasks[i], ch)
      ensures Enabled(w', Receive(i))
      ensures Next(timeout, w', Receive(i)).tasks[i] == Failed(w'.tasks[i].key, ch)
    {
      WaiterReceives(timeout, w', i, ch);
    }
  }

  // ----- progress

  /** Steps left to a task, whatever happens. */
  function Rank(task: Task): nat {
    match task
    case Start(_) => 4
    case Missed(_) => 3
    case Attempting(_, _) => 2
    case Connected(_, _, _) => 1
    case Dropping(_, _) => 1
    case Waiting(_, _) => 1
    case _ => 0
  }

  function TotalRank(tasks: seq<Task>): nat {
    if tasks == [] then 0 else TotalRank(tasks[..|tasks| - 1]) + Rank(tasks[|tasks| - 1])
  }

  lemma {:induction false} RankUpdated(tasks: seq<Task>, t: nat, task: Task)
    requires t < |tasks|
    ensures TotalRank(tasks[t := task]) == TotalRank(tasks) - Rank(tasks[t]) + Rank(task)
  {
    var n := |tasks| - 1;
    if t == n {
      assert tasks[t := task][..n] == tasks[..n];
    } else {
      RankUpdated(tasks[..n], t, task);
      assert tasks[t := task][..n] == tasks[..n][t := task];
    }
  }

  predicate IsTaskStep(a: Action) {
    !a.Spawn? && !a.CloseDriver? && !a.Tick?
  }

  /** The number of task steps that were enabled when they were taken. */
  function StepsTaken(timeout: Option<nat>, actions: seq<Action>): nat {
    if actions == [] then 0
    else
      var n := |actions| - 1;
      StepsTaken(timeout, actions[..n])
      + if IsTaskStep(actions[n]) && Enabled(Run(timeout, actions[..n]), actions[n]) then 1 else 0
  }

  lemma StepLowersRank(timeout: Option<nat>, w: World, a: Action)
    requires Inv(w) && IsTaskStep(a) && Enabled(w, a)
    ensures TotalRank(Next(timeout, w, a).tasks) < TotalRank(w.tasks)
    ensures |Next(timeout, w, a).tasks| == |w.tasks|
  {
    StepMovesOneTask(timeout, w, a);
    RankUpdated(w.tasks, a.t, Next(timeout, w, a).tasks[a.t]);
  }

  /** The step of a task replaces that task by one of lower rank. */
  predicate Lowers(w: World, w': World, t: nat) {
    && t < |w.tasks| == |w'.tasks|
    && w'.tasks == w.tasks[t := w'.tasks[t]]
    && Rank(w'.tasks[t]) < Rank(w.tasks[t])
  }

  lemma StepMovesOneTask(timeout: Option<nat>, w: World, a: Action)
    requires Inv(w) && IsTaskStep(a) && Enabled(w, a)
    ensures Lowers(w, Next(timeout, w, a), a.t)
  {
    if a.NewConnection? {
      assert TaskOk(w.pool, w.attempts, w.tasks[a.t]);
      PublishingLowers(w, a.t);
    } else {
      hide Inv;
      OtherStepsLower(timeout, w, a);
    }
  }

  lemma PublishingLowers(w: World, t: nat)
    requires Enabled(w, NewConnection(t)) && Named(w.pool, w.tasks[t].key)
    ensures Lowers(w, DoNewConnection(w, t), t)
  {
  }

  lemma OtherStepsLower(timeout: Option<nat>, w: World, a: Action)
    requires IsTaskStep(a) && !a.NewConnection? && Enabled(w, a)
    ensures Lowers(w, Next(timeout, w, a), a.t)
  {
  }

  /** No task loops: in every run the tasks take at most four steps each. */
  lemma {:induction false} FourStepsPerTask(timeout: Option<nat>, actions: seq<Action>)
    ensures var w := Run(timeout, actions); StepsTaken(timeout, actions) + TotalRank(w.tasks) <= 4 * |w.tasks|
  {
    if actions != [] {
      var n := |actions| - 1;
      var w, a := Run(timeout, actions[..n]), actions[n];
      FourStepsPerTask(timeout, actions[..n]);
      RunKeepsInv(timeout, actions[..n]);
      if IsTaskStep(a) && Enabled(w, a) {
        StepLowersRank(timeout, w, a);
      } else if a.Spawn? {
        assert Next(timeout, w, a).tasks[..|w.tasks|] == w.tasks;
      }
    }
  }

  /** A lone task that gets to connect: it misses, acquires the lock, connects and publishes. */
  function LoneTask(key: Key, steps: nat): seq<Action> {
    [Spawn(key), TryPool(0), Enter(0), ConnectOk(0), NewConnection(0)][..Min(steps, 4) + 1]
  }

  /** The bound is met: after that run one task has taken four steps. */
  lemma FourStepsAreTaken(timeout: Option<nat>, key: Key)
    ensures var run := LoneTask(key, 4);
            StepsTaken(timeout, run) == 4 && Run(timeout, run).tasks == [Served(key, 0, 0)]
  {
    LoneSteps(timeout, key, 4);
  }

  predicate LoneAt(w: World, key: Key, steps: nat)
    requires steps <= 4
  {
    && w.tasks == [[Start(key), Missed(key), Attempting(key, 0), Connected(key, 0, 0), Served(key, 0, 0)][steps]]
    && (steps <= 1 ==> w.pool == EMPTY)
    && (steps <= 2 ==> w.made == 0)
    && (2 <= steps < 4 ==> Named(w.pool, key))
  }

  lemma LoneStep(timeout: Option<nat>, w: World, key: Key, steps: nat)
    requires 0 < steps <= 4 && LoneAt(w, key, steps - 1)
    ensures var a := LoneTask(key, steps)[steps];
            IsTaskStep(a) && Enabled(w, a) && LoneAt(Next(timeout, w, a), key, steps)
  {
  }

  lemma {:induction false} LoneSteps(timeout: Option<nat>, key: Key, steps: nat)
    requires steps <= 4
    ensures var run := LoneTask(key, steps);
            StepsTaken(timeout, run) == steps && LoneAt(Run(timeout, run), key, steps)
  {
    var run := LoneTask(key, steps);
    if steps > 0 {
      hide LoneAt, Next, Enabled;
      LoneSteps(timeout, key, steps - 1);
      LoneStep(timeout, Run(timeout, LoneTask(key, steps - 1)), key, steps);
      assert run[..steps] == LoneTask(key, steps - 1);
    } else {
      assert run[..0] == [];
    }
  }

  /** No deadlock: while a task is unfinished it can take a step that is no cancellation, or the
      holder of the lock it waits for can. */
  lemma SomeoneCanMove(timeout: Option<nat>, actions: seq<Action>, t: nat)
    requires var w := Run(timeout, actions); t < |w.tasks| && !Finished(w.tasks[t])
    ensures var w := Run(timeout, actions);
            exists a: Action ::
              && IsTaskStep(a) && !a.Cancel? && Enabled(w, a)
              && (a.t == t || (w.tasks[t].Waiting? && HoldsKey(w, a.t, w.tasks[t].key)))
  {
    var w := Run(timeout, actions);
    var mover := t;
    if w.tasks[t].Waiting? {
      NoLostWakeup(timeout, actions, t);
      if !Resolved(w.pool.chans[w.tasks[t].ch]) {
        mover :| HoldsKey(w, mover, w.tasks[t].key);
      }
    }
    var a := match w.tasks[mover]
      case Start(_) => TryPool(mover)
      case Missed(_) => Enter(mover)
      case Waiting(_, _) => Receive(mover)
      case Attempting(_, _) => ConnectOk(mover)
      case Connected(_, _, _) => NewConnection(mover)
      case _ => DropLock(mover);
    assert Enabled(w, a);
  }
}
