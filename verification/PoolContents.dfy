/** What the pool holds over every run, told from what happened to it alone: a connection stays until it is
    refused or replaced, and `try_pool` hands it out exactly while it is open and fresh. */
module PoolContents {
  import opened Wrappers
  import opened Pool
  import opened PoolProtocol
  import opened PoolFreshness

  predicate IsOn(e: Event, key: Key) {
    !e.Closed? && e.key == key
  }

  /** The client last put into the pool under the key or handed out from there, and when; none once it has
      been removed. */
  function Kept(log: seq<Event>, key: Key): Option<Conn> {
    if log == [] then None
    else
      var n := |log| - 1;
      if !IsOn(log[n], key) then Kept(log[..n], key)
      else if log[n].Removed? then None
      else Some(Conn(log[n].client, log[n].at))
  }

  lemma KeptAfter(log: seq<Event>, e: Event, key: Key)
    ensures Kept(log + [e], key)
            == if !IsOn(e, key) then Kept(log, key) else if e.Removed? then None else Some(Conn(e.client, e.at))
  {
    assert (log + [e])[..|log|] == log;
  }

  ghost predicate HoldsKept(w: World) {
    forall key: Key :: (key in w.pool.idle <==> Kept(w.log, key).Some?)
                       && (key in w.pool.idle ==> Kept(w.log, key) == Some(w.pool.idle[key]))
  }

  ghost predicate ClosedIsLogged(w: World) {
    forall client: nat :: client in w.closed <==> Closed(client) in w.log
  }

  lemma ClosedAfter(w: World, w': World, e: Event)
    requires ClosedIsLogged(w) && w'.log == w.log + [e]
    requires w'.closed == if e.Closed? then w.closed + {e.client} else w.closed
    ensures ClosedIsLogged(w')
  {
    assert w'.log[|w.log|] == e;
    forall client: nat ensures Closed(client) in w'.log <==> Closed(client) in w.log || e == Closed(client) {
      assert forall x :: x in w'.log <==> x in w.log || x == e;
    }
  }

  lemma HoldsAfter(w: World, w': World, e: Event, key: Key)
    requires HoldsKept(w) && w'.log == w.log + [e] && IsOn(e, key)
    requires w'.pool.idle
             == if e.Removed? then w.pool.idle - {key} else w.pool.idle[key := Conn(e.client, e.at)]
    ensures HoldsKept(w')
  {
    forall k: Key ensures Kept(w'.log, k) == if k != key then Kept(w.log, k) else if e.Removed? then None else Some(Conn(e.client, e.at)) {
      KeptAfter(w.log, e, k);
    }
  }

  ghost predicate Inv(w: World) {
    HoldsKept(w) && ClosedIsLogged(w)
  }

  lemma StepOn(w: World, w': World, e: Event, key: Key)
    requires Inv(w) && w'.log == w.log + [e] && IsOn(e, key) && w'.closed == w.closed
    requires w'.pool.idle
             == if e.Removed? then w.pool.idle - {key} else w.pool.idle[key := Conn(e.client, e.at)]
    ensures Inv(w')
  {
    HoldsAfter(w, w', e, key);
    ClosedAfter(w, w', e);
  }

  lemma TryPoolKeeps(timeout: Option<nat>, w: World, t: nat)
    requires Inv(w) && Enabled(w, TryPool(t))
    ensures Inv(DoTryPool(timeout, w, t))
  {
    hide Inv, Kept;
    var key, w' := w.tasks[t].key, DoTryPool(timeout, w, t);
    if key in w.pool.idle {
      StepOn(w, w', w'.log[|w.log|], key);
    } else {
      SameContents(w, w');
    }
  }

  lemma SameContents(w: World, w': World)
    requires Inv(w) && w'.log == w.log && w'.closed == w.closed && w'.pool.idle == w.pool.idle
    ensures Inv(w')
  {
  }

  lemma NewConnectionKeeps(w: World, t: nat)
    requires Inv(w) && Enabled(w, NewConnection(t))
    ensures Inv(DoNewConnection(w, t))
  {
    hide Inv, Kept;
    var Connected(key, ch, client) := w.tasks[t];
    var w' := DoNewConnection(w, t);
    var before := w;
    if Named(w.pool, key) {
      if key in w.pool.idle {
        before := w.(pool := w.pool.(idle := w.pool.idle - {key}), log := w.log + [Removed(key, w.pool.idle[key].client)]);
        StepOn(w, before, Removed(key, w.pool.idle[key].client), key);
      }
      assert w'.log == before.log + [Inserted(key, client, w.now)];
      assert w'.pool.idle == before.pool.idle[key := Conn(client, w.now)];
      StepOn(before, w', Inserted(key, client, w.now), key);
    }
  }

  lemma CloseKeeps(w: World, client: nat, w': World)
    requires Inv(w) && w' == w.(closed := w.closed + {client}, log := w.log + [Closed(client)])
    ensures Inv(w')
  {
    ClosedAfter(w, w', Closed(client));
    forall k: Key ensures Kept(w'.log, k) == Kept(w.log, k) {
      KeptAfter(w.log, Closed(client), k);
    }
  }

  lemma StepKeepsInv(timeout: Option<nat>, w: World, a: Action)
    requires Inv(w)
    ensures Inv(Next(timeout, w, a))
  {
    hide Inv;
    if Enabled(w, a) {
      match a
      case TryPool(t) => TryPoolKeeps(timeout, w, t);
      case NewConnection(t) => NewConnectionKeeps(w, t);
      case CloseDriver(client) =>
        if client !in w.closed {
          CloseKeeps(w, client, Next(timeout, w, a));
        }
      case _ => SameContents(w, Next(timeout, w, a));
    }
  }

  /** In every run the pool holds exactly what its log says it should, and the drivers known to have ended are
      those whose end is in the log. */
  lemma {:induction false} RunHoldsKept(timeout: Option<nat>, actions: seq<Action>)
    ensures HoldsKept(Run(timeout, actions))
    ensures ClosedIsLogged(Run(timeout, actions))
  {
    if actions != [] {
      var n := |actions| - 1;
      RunHoldsKept(timeout, actions[..n]);
      StepKeepsInv(timeout, Run(timeout, actions[..n]), actions[n]);
    }
  }

  /** The answer of `try_pool` in every reachable state, from the log alone: the client last inserted or handed
      out under the key and not removed since, exactly if its driver has not reported its end and that was
      no longer ago than the timeout. */
  lemma TryPoolExactly(timeout: Option<nat>, actions: seq<Action>, t: nat)
    requires Enabled(Run(timeout, actions), TryPool(t))
    ensures var w := Run(timeout, actions);
            var kept := Kept(w.log, w.tasks[t].key);
            Next(timeout, w, TryPool(t)).tasks[t]
            == if kept.Some? && Closed(kept.value.client) !in w.log
                  && (timeout.Some? ==> w.now <= kept.value.idleSince + timeout.value)
               then Pooled(w.tasks[t].key, kept.value.client) else Missed(w.tasks[t].key)
  {
    RunHoldsKept(timeout, actions);
  }

  /** A good connection is handed out: one in the pool whose driver has not reported its end and that was last
      touched no longer ago than the timeout. */
  lemma GoodConnectionIsHandedOut(timeout: Option<nat>, actions: seq<Action>, t: nat, i: nat)
    requires var w := Run(timeout, actions);
             && Enabled(w, TryPool(t)) && w.tasks[t].key in w.pool.idle && i < |w.log|
             && var client := w.pool.idle[w.tasks[t].key].client;
                && client !in w.closed && LastTouch(w.log, i, |w.log|, client)
                && (timeout.Some? ==> w.now - w.log[i].at <= timeout.value)
    ensures var w := Run(timeout, actions);
            var key := w.tasks[t].key;
            Next(timeout, w, TryPool(t)).tasks[t] == Pooled(key, w.pool.idle[key].client)
  {
    HandOutsAreFresh(timeout, actions);
    var w := Run(timeout, actions);
    var conn := w.pool.idle[w.tasks[t].key];
    var j :| 0 <= j < |w.log| && LastTouch(w.log, j, |w.log|, conn.client) && w.log[j].at == conn.idleSince;
    assert i == j;
  }
}
