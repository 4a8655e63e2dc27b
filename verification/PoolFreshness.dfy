/** Freshness of pooled connections over every run: what `try_pool` may hand out. */
module PoolFreshness {
  import opened Wrappers
  import opened Pool
  import opened PoolProtocol

  /** When the client was last put into the pool or handed out, as far as event `e` tells. */
  predicate Touches(e: Event, client: nat) {
    (e.Inserted? || e.HandedOut?) && e.client == client
  }

  predicate Removes(e: Event, client: nat) {
    e.Removed? && e.client == client
  }

  predicate Gone(e: Event, client: nat) {
    (e.Removed? || e.Closed?) && e.client == client
  }

  /** Event `i` is the last before `j` that touches the client. */
  predicate LastTouch(log: seq<Event>, i: nat, j: nat, client: nat)
    requires i < j <= |log|
  {
    Touches(log[i], client) && forall m :: i < m < j ==> !Touches(log[m], client)
  }

  /** If the event hands out a connection, that connection was neither reported closed nor removed
      from the pool before, and it was last inserted or handed out at most `timeout` ago. */
  predicate FreshAt(log: seq<Event>, j: nat, timeout: Option<nat>)
    requires j < |log|
  {
    log[j].HandedOut? ==>
      && (forall i :: 0 <= i < j ==> !Gone(log[i], log[j].client))
      && (exists i :: 0 <= i < j && LastTouch(log, i, j, log[j].client)
            && (timeout.Some? ==> log[j].at - log[i].at <= timeout.value))
  }

  predicate Fresh(log: seq<Event>, timeout: Option<nat>) {
    forall j :: 0 <= j < |log| ==> FreshAt(log, j, timeout)
  }

  predicate Untouched(log: seq<Event>, client: nat) {
    forall i :: 0 <= i < |log| ==> !Touches(log[i], client) && !Removes(log[i], client)
  }

  predicate NotRemoved(log: seq<Event>, client: nat) {
    forall i :: 0 <= i < |log| ==> !Removes(log[i], client)
  }

  predicate TouchedAt(log: seq<Event>, client: nat, at: nat) {
    exists i :: 0 <= i < |log| && LastTouch(log, i, |log|, client) && log[i].at == at
  }

  predicate IdleOk(w: World) {
    && (forall k :: k in w.pool.idle ==>
          && w.pool.idle[k].client < w.made
          && NotRemoved(w.log, w.pool.idle[k].client)
          && TouchedAt(w.log, w.pool.idle[k].client, w.pool.idle[k].idleSince))
    && (forall k1, k2 :: k1 in w.pool.idle && k2 in w.pool.idle && w.pool.idle[k1].client == w.pool.idle[k2].client ==> k1 == k2)
  }

  /** Clients made but not yet in the pool are all different, and new to it. */
  predicate NewOk(w: World) {
    && (forall t :: 0 <= t < |w.tasks| && w.tasks[t].Connected? ==>
          w.tasks[t].client < w.made && Untouched(w.log, w.tasks[t].client))
    && (forall t1, t2 :: 0 <= t1 < t2 < |w.tasks| && w.tasks[t1].Connected? && w.tasks[t2].Connected? ==>
          w.tasks[t1].client != w.tasks[t2].client)
  }

  predicate LogOk(w: World, timeout: Option<nat>) {
    && Fresh(w.log, timeout)
    && (forall i :: 0 <= i < |w.log| ==> w.log[i].client < w.made)
    && (forall i :: 0 <= i < |w.log| && w.log[i].Closed? ==> w.log[i].client in w.closed)
    && (forall i :: 0 <= i < |w.log| && (w.log[i].Inserted? || w.log[i].HandedOut?) ==> w.log[i].at <= w.now)
  }

  predicate Inv(w: World, timeout: Option<nat>) {
    IdleOk(w) && NewOk(w) && LogOk(w, timeout)
  }

  // ----- appending to the log

  lemma FreshAppend(log: seq<Event>, e: Event, timeout: Option<nat>)
    requires Fresh(log, timeout)
    requires e.HandedOut? ==> FreshAt(log + [e], |log|, timeout)
    ensures Fresh(log + [e], timeout)
  {
    forall j | 0 <= j < |log| + 1 ensures FreshAt(log + [e], j, timeout) {
      if j < |log| {
        assert FreshAt(log, j, timeout);
        if log[j].HandedOut? {
          var c := log[j].client;
          var i :| 0 <= i < j && LastTouch(log, i, j, c) && (timeout.Some? ==> log[j].at - log[i].at <= timeout.value);
          assert LastTouch(log + [e], i, j, c);
        }
      }
    }
  }

  lemma TouchedAppend(log: seq<Event>, e: Event, client: nat, at: nat)
    requires TouchedAt(log, client, at) && !Touches(e, client)
    ensures TouchedAt(log + [e], client, at)
  {
    var i :| 0 <= i < |log| && LastTouch(log, i, |log|, client) && log[i].at == at;
    assert LastTouch(log + [e], i, |log| + 1, client);
  }

  lemma TouchedByLast(log: seq<Event>, e: Event)
    requires e.Inserted? || e.HandedOut?
    ensures TouchedAt(log + [e], e.client, e.at)
  {
    assert LastTouch(log + [e], |log|, |log| + 1, e.client);
  }

  lemma IdleIsTouched(w: World, key: Key)
    requires IdleOk(w) && key in w.pool.idle
    ensures exists i :: 0 <= i < |w.log| && Touches(w.log[i], w.pool.idle[key].client)
  {
    var i :| 0 <= i < |w.log| && LastTouch(w.log, i, |w.log|, w.pool.idle[key].client) && w.log[i].at == w.pool.idle[key].idleSince;
    assert Touches(w.log[i], w.pool.idle[key].client);
  }

  // ----- steps

  lemma HandOutIsFresh(w: World, timeout: Option<nat>, key: Key, conn: Conn)
    requires LogOk(w, timeout) && NotRemoved(w.log, conn.client) && TouchedAt(w.log, conn.client, conn.idleSince)
    requires Usable(conn, timeout, w.now, w.closed)
    ensures FreshAt(w.log + [HandedOut(key, conn.client, w.now)], |w.log|, timeout)
  {
    var e := HandedOut(key, conn.client, w.now);
    var i :| 0 <= i < |w.log| && LastTouch(w.log, i, |w.log|, conn.client) && w.log[i].at == conn.idleSince;
    assert LastTouch(w.log + [e], i, |w.log|, conn.client);
    forall j | 0 <= j < |w.log| ensures !Gone((w.log + [e])[j], conn.client) {
      assert (w.log + [e])[j] == w.log[j];
    }
  }

  /** An idle connection that is usable is handed out. */
  lemma HandOutKeeps(w: World, timeout: Option<nat>, key: Key, w': World)
    requires Inv(w, timeout) && key in w.pool.idle
    requires Usable(w.pool.idle[key], timeout, w.now, w.closed)
    requires w'.pool.idle == w.pool.idle[key := w.pool.idle[key].(idleSince := w.now)]
    requires w'.log == w.log + [HandedOut(key, w.pool.idle[key].client, w.now)]
    requires w'.closed == w.closed && w'.now == w.now && w'.made == w.made
    ensures IdleOk(w') && LogOk(w', timeout)
  {
    hide FreshAt, TouchedAt, Usable;
    var conn := w.pool.idle[key];
    var e := HandedOut(key, conn.client, w.now);
    HandOutIsFresh(w, timeout, key, conn);
    FreshAppend(w.log, e, timeout);
    forall k | k in w'.pool.idle
      ensures TouchedAt(w'.log, w'.pool.idle[k].client, w'.pool.idle[k].idleSince)
    {
      if k == key {
        TouchedByLast(w.log, e);
      } else {
        TouchedAppend(w.log, e, w.pool.idle[k].client, w.pool.idle[k].idleSince);
      }
    }
  }

  /** An entry leaves the pool. */
  lemma RemovalKeeps(w: World, timeout: Option<nat>, key: Key, w': World)
    requires Inv(w, timeout) && key in w.pool.idle
    requires w'.pool.idle == w.pool.idle - {key}
    requires w'.log == w.log + [Removed(key, w.pool.idle[key].client)]
    requires w'.closed == w.closed && w'.now == w.now && w'.made == w.made
    ensures IdleOk(w') && LogOk(w', timeout)
  {
    var e := Removed(key, w.pool.idle[key].client);
    FreshAppend(w.log, e, timeout);
    forall k | k in w'.pool.idle
      ensures TouchedAt(w'.log, w'.pool.idle[k].client, w'.pool.idle[k].idleSince)
    {
      TouchedAppend(w.log, e, w.pool.idle[k].client, w.pool.idle[k].idleSince);
    }
  }

  /** A new connection takes a place that no entry holds. */
  lemma InsertionKeeps(w: World, timeout: Option<nat>, key: Key, client: nat, w': World)
    requires IdleOk(w) && LogOk(w, timeout) && key !in w.pool.idle
    requires client < w.made && Untouched(w.log, client)
    requires w'.pool.idle == w.pool.idle[key := Conn(client, w.now)]
    requires w'.log == w.log + [Inserted(key, client, w.now)]
    requires w'.closed == w.closed && w'.now == w.now && w'.made == w.made
    ensures IdleOk(w') && LogOk(w', timeout)
  {
    var e := Inserted(key, client, w.now);
    FreshAppend(w.log, e, timeout);
    forall k | k in w.pool.idle ensures w.pool.idle[k].client != client {
      IdleIsTouched(w, k);
    }
    forall k | k in w'.pool.idle
      ensures TouchedAt(w'.log, w'.pool.idle[k].client, w'.pool.idle[k].idleSince)
    {
      if k == key {
        TouchedByLast(w.log, e);
      } else {
        TouchedAppend(w.log, e, w.pool.idle[k].client, w.pool.idle[k].idleSince);
      }
    }
  }

  /** Connections made but not published are none of the pool's. */
  lemma NewStaysNew(w: World, w': World, t: nat, task: Task)
    requires NewOk(w) && t < |w.tasks| && !task.Connected? && w'.tasks == w.tasks[t := task]
    requires w'.made == w.made && w.log <= w'.log
    requires forall i, j :: |w.log| <= i < |w'.log| && 0 <= j < |w'.tasks| && w'.tasks[j].Connected? ==>
               w'.log[i].client != w'.tasks[j].client
    ensures NewOk(w')
  {
    forall j | 0 <= j < |w'.tasks| && w'.tasks[j].Connected? ensures Untouched(w'.log, w'.tasks[j].client) {
      assert w'.tasks[j] == w.tasks[j];
      forall i | 0 <= i < |w'.log|
        ensures !Touches(w'.log[i], w'.tasks[j].client) && !Removes(w'.log[i], w'.tasks[j].client)
      {
        if i < |w.log| {
          assert w'.log[i] == w.log[i];
        }
      }
    }
  }

  lemma IdleIsNotNew(w: World, key: Key, j: nat)
    requires IdleOk(w) && NewOk(w) && key in w.pool.idle && j < |w.tasks| && w.tasks[j].Connected?
    ensures w.pool.idle[key].client != w.tasks[j].client
  {
    IdleIsTouched(w, key);
  }

  lemma TryPoolKeeps(timeout: Option<nat>, w: World, t: nat)
    requires Inv(w, timeout) && Enabled(w, TryPool(t))
    ensures Inv(DoTryPool(timeout, w, t), timeout)
  {
    var w' := DoTryPool(timeout, w, t);
    var key := w.tasks[t].key;
    if key in w.pool.idle {
      if Usable(w.pool.idle[key], timeout, w.now, w.closed) {
        HandOutKeeps(w, timeout, key, w');
      } else {
        RemovalKeeps(w, timeout, key, w');
      }
      forall j | 0 <= j < |w.tasks| && w.tasks[j].Connected? ensures w.pool.idle[key].client != w.tasks[j].client {
        IdleIsNotNew(w, key, j);
      }
    } else {
      assert w'.log == w.log;
    }
    NewStaysNew(w, w', t, w'.tasks[t]);
  }

  /** An insertion that overwrites an entry is a removal followed by an insertion. */
  lemma OverwriteKeeps(timeout: Option<nat>, w: World, t: nat, w': World)
    requires Inv(w, timeout) && t < |w.tasks| && w.tasks[t].Connected? && w.tasks[t].key in w.pool.idle
    requires var (key, client) := (w.tasks[t].key, w.tasks[t].client);
             && w'.pool.idle == w.pool.idle[key := Conn(client, w.now)]
             && w'.log == w.log + [Removed(key, w.pool.idle[key].client)] + [Inserted(key, client, w.now)]
    requires w'.closed == w.closed && w'.now == w.now && w'.made == w.made
    ensures IdleOk(w') && LogOk(w', timeout)
  {
    var (key, client) := (w.tasks[t].key, w.tasks[t].client);
    var between := w.(
      pool := w.pool.(idle := w.pool.idle - {key}), log := w.log + [Removed(key, w.pool.idle[key].client)]);
    RemovalKeeps(w, timeout, key, between);
    IdleIsNotNew(w, key, t);
    assert w'.pool.idle == between.pool.idle[key := Conn(client, w.now)];
    InsertionKeeps(between, timeout, key, client, w');
  }

  lemma NewConnectionKeeps(timeout: Option<nat>, w: World, t: nat)
    requires Inv(w, timeout) && Enabled(w, NewConnection(t))
    ensures Inv(DoNewConnection(w, t), timeout)
  {
    hide IdleOk, LogOk;
    var Connected(key, ch, client) := w.tasks[t];
    var w' := DoNewConnection(w, t);
    if Named(w.pool, key) {
      if key in w.pool.idle {
        OverwriteKeeps(timeout, w, t, w');
        forall j | 0 <= j < |w.tasks| && w.tasks[j].Connected? ensures w.pool.idle[key].client != w.tasks[j].client {
          IdleIsNotNew(w, key, j);
        }
      } else {
        assert w'.log == w.log + [Inserted(key, client, w.now)];
        InsertionKeeps(w, timeout, key, client, w');
      }
      assert w'.tasks == w.tasks[t := Served(key, ch, client)];
      NewStaysNew(w, w', t, Served(key, ch, client));
    }
  }

  lemma CloseDriverKeeps(timeout: Option<nat>, w: World, client: nat, w': World)
    requires Inv(w, timeout) && client < w.made
    requires w' == w.(closed := w.closed + {client}, log := w.log + [Closed(client)])
    ensures Inv(w', timeout)
  {
    FreshAppend(w.log, Closed(client), timeout);
    forall k | k in w.pool.idle ensures TouchedAt(w'.log, w.pool.idle[k].client, w.pool.idle[k].idleSince) {
      TouchedAppend(w.log, Closed(client), w.pool.idle[k].client, w.pool.idle[k].idleSince);
    }
  }

  lemma ConnectOkKeeps(timeout: Option<nat>, w: World, t: nat)
    requires Inv(w, timeout) && Enabled(w, ConnectOk(t))
    ensures Inv(Next(timeout, w, ConnectOk(t)), timeout)
  {
    var w' := Next(timeout, w, ConnectOk(t));
    assert Untouched(w.log, w.made);
    assert IdleOk(w');
  }

  lemma QuietStepKeeps(timeout: Option<nat>, w: World, a: Action)
    requires Inv(w, timeout) && Enabled(w, a)
    requires a.Enter? || a.Receive? || a.ConnectFail? || a.DropLock? || a.Cancel?
    ensures Inv(Next(timeout, w, a), timeout)
  {
    var w' := Next(timeout, w, a);
    assert |w'.tasks| == |w.tasks| && w'.tasks == w.tasks[a.t := w'.tasks[a.t]];
    NewStaysNew(w, w', a.t, w'.tasks[a.t]);
  }

  lemma StepKeepsInv(timeout: Option<nat>, w: World, a: Action)
    requires Inv(w, timeout)
    ensures Inv(Next(timeout, w, a), timeout)
  {
    if Enabled(w, a) {
      match a
      case TryPool(t) => TryPoolKeeps(timeout, w, t);
      case NewConnection(t) => NewConnectionKeeps(timeout, w, t);
      case CloseDriver(client) =>
        if client !in w.closed {
          CloseDriverKeeps(timeout, w, client, Next(timeout, w, a));
        }
      case ConnectOk(t) => ConnectOkKeeps(timeout, w, t);
      case Spawn(_) =>
      case Tick(_) =>
      case _ => QuietStepKeeps(timeout, w, a);
    }
  }

  /** In every run each hand-out from the pool is fresh: the connection was never reported closed
      or removed from the pool before, and its last hand-out or insertion is at most the idle
      timeout ago. */
  lemma {:induction false} HandOutsAreFresh(timeout: Option<nat>, actions: seq<Action>)
    ensures Inv(Run(timeout, actions), timeout)
    ensures Fresh(Run(timeout, actions).log, timeout)
  {
    if actions != [] {
      var before := actions[..|actions| - 1];
      HandOutsAreFresh(timeout, before);
      StepKeepsInv(timeout, Run(timeout, before), actions[|actions| - 1]);
    }
  }

  /** What `try_pool` answers, in any reachable state: a client only if its connection is open and
      not idle for longer than the timeout, and a refused connection never comes back. */
  lemma TryPoolIsFresh(timeout: Option<nat>, actions: seq<Action>, t: nat, later: seq<Action>)
    requires Enabled(Run(timeout, actions), TryPool(t))
    ensures var w := Run(timeout, actions);
            var task := Next(timeout, w, TryPool(t)).tasks[t];
            && (task.Pooled? ==>
                  && task.client !in w.closed && NotRemoved(w.log, task.client)
                  && exists i :: 0 <= i < |w.log| && LastTouch(w.log, i, |w.log|, task.client)
                       && (timeout.Some? ==> w.now - w.log[i].at <= timeout.value))
            && (!task.Pooled? ==>
                  && task == Missed(w.tasks[t].key)
                  && (w.tasks[t].key in w.pool.idle ==>
                        var client := w.pool.idle[w.tasks[t].key].client;
                        var log := Run(timeout, actions + [TryPool(t)] + later).log;
                        exists i :: 0 <= i < |log| && Removes(log[i], client)
                          && forall j :: i < j < |log| && log[j].HandedOut? ==> log[j].client != client))
  {
    HandOutsAreFresh(timeout, actions);
    var w := Run(timeout, actions);
    var key := w.tasks[t].key;
    if key in w.pool.idle && !Usable(w.pool.idle[key], timeout, w.now, w.closed) {
      RefusedNeverReturns(timeout, actions, t, later);
    }
  }

  lemma RefusedNeverReturns(timeout: Option<nat>, actions: seq<Action>, t: nat, later: seq<Action>)
    requires Enabled(Run(timeout, actions), TryPool(t))
    requires var w := Run(timeout, actions);
             w.tasks[t].key in w.pool.idle && !Usable(w.pool.idle[w.tasks[t].key], timeout, w.now, w.closed)
    ensures var w := Run(timeout, actions);
            var client := w.pool.idle[w.tasks[t].key].client;
            var log := Run(timeout, actions + [TryPool(t)] + later).log;
            exists i :: 0 <= i < |log| && Removes(log[i], client)
              && forall j :: i < j < |log| && log[j].HandedOut? ==> log[j].client != client
  {
    var w := Run(timeout, actions);
    var client := w.pool.idle[w.tasks[t].key].client;
    var all := actions + [TryPool(t)] + later;
    var n := |actions| + 1;
    assert all[..n] == actions + [TryPool(t)] && all[..n][..n - 1] == actions;
    var w1 := Run(timeout, all[..n]);
    assert w1.log == w.log + [Removed(w.tasks[t].key, client)];
    LogGrows(timeout, all, n);
    var log := Run(timeout, all).log;
    assert Removes(log[|w.log|], client);
    HandOutsAreFresh(timeout, all);
    forall j | |w.log| < j < |log| && log[j].HandedOut? ensures log[j].client != client {
      assert FreshAt(log, j, timeout);
      assert Gone(log[|w.log|], client);
    }
  }

  lemma {:induction false} LogGrows(timeout: Option<nat>, actions: seq<Action>, n: nat)
    requires n <= |actions|
    ensures Run(timeout, actions[..n]).log <= Run(timeout, actions).log
  {
    if n == |actions| {
      assert actions[..n] == actions;
    } else {
      var before := actions[..|actions| - 1];
      assert before[..n] == actions[..n];
      LogGrows(timeout, before, n);
    }
  }
}
