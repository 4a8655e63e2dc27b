/** What one task does with the pool while others do what they like with it in between. */
module H3Client {
  import opened Wrappers
  import opened Pool

  /** `Waits` is the suspension of a task that found an attempt in progress. */
  datatype Progress = Ready(client: nat) | Waits(waiter: ConnectingWaiter) | ConnectFailed

  class Client {
    const pool: PoolInner

    constructor (pool: PoolInner)
      ensures this.pool == pool
    {
      this.pool := pool;
    }

    /** Any number of steps of other tasks: looking for clients, starting attempts, publishing or giving up
        those whose lock they have. What they cannot do is to touch the attempt behind the lock that
        this task holds. */
    method OthersRun(held: Option<Key>)
      requires pool.Valid() && !pool.locked
      requires held.Some? ==> held.value in pool.state.connecting
      modifies pool, pool.made
      ensures pool.Valid() && !pool.locked
      ensures held.Some? ==>
                && held.value in pool.state.connecting
                && pool.state.connecting[held.value] == old(pool.state).connecting[held.value]
      ensures old(pool.made) <= pool.made
      ensures forall i :: |old(pool.made)| <= i < |pool.made| ==> fresh(pool.made[i])
    {
      var steps :| 0 <= steps;
      for i := 0 to steps
        invariant pool.Valid() && !pool.locked
        invariant held.Some? ==>
                    && held.value in pool.state.connecting
                    && pool.state.connecting[held.value] == old(pool.state).connecting[held.value]
        invariant old(pool.made) <= pool.made
        invariant forall i :: |old(pool.made)| <= i < |pool.made| ==> fresh(pool.made[i])
      {
        var key: Key, now: nat, closed: set<nat>, connected: Option<nat> := *, *, *, *;
        OtherStep(held, key, now, closed, connected);
      }
    }

    method OtherStep(held: Option<Key>, key: Key, now: nat, closed: set<nat>, connected: Option<nat>)
      requires pool.Valid() && !pool.locked
      requires held.Some? ==> held.value in pool.state.connecting
      modifies pool, pool.made
      ensures pool.Valid() && !pool.locked
      ensures held.Some? ==>
                && held.value in pool.state.connecting
                && pool.state.connecting[held.value] == old(pool.state).connecting[held.value]
      ensures old(pool.made) <= pool.made
      ensures forall i :: |old(pool.made)| <= i < |pool.made| ==> fresh(pool.made[i])
    {
      var looks: bool := *;
      if looks {
        var _ := pool.TryPool(key, now, closed);
      } else if key !in pool.connecting || held == Some(key) {
        var _ := pool.Connecting(key);
      } else {
        var lock := new ConnectingLock(key);
        if connected.Some? {
          var _ := pool.NewConnection(lock, connected.value, now);
        } else {
          lock.Drop(pool);
        }
      }
    }

    /** `connected` is what connecting comes to, if this task gets to do it; a failure drops the lock.
        `entered` and `returned` are the pool as it is when the task asks for the lock, and when it is
        done connecting: by then its own attempt is still the one in progress for the key. */
    method GetPooledClient(key: Key, now: nat, closed: set<nat>, connected: Option<nat>, later: nat)
      returns (r: Progress, ghost entered: State, ghost returned: State)
      requires pool.Valid() && !pool.locked
      modifies pool, pool.made
      ensures pool.Valid() && !pool.locked
      ensures var found := Found(old(pool.state), key, pool.timeout, now, closed);
              if found.Some? then
                r == Ready(found.value) && pool.state == Tried(old(pool.state), key, pool.timeout, now, closed)
              else if key in entered.connecting then
                && Named(entered, key) && pool.state == Subscribed(entered, key)
                && r.Waits? && r.waiter.receiver.id == entered.connecting[key]
              else
                && Named(returned, key) && returned.connecting[key] == |entered.chans|
                && if connected.Some? then
                     r == Ready(connected.value) && pool.state == Published(returned, key, connected.value, later)
                   else
                     r == ConnectFailed && pool.state == Released(returned, key, None)
    {
      var client := pool.TryPool(key, now, closed);
      entered, returned := pool.state, pool.state;
      if client.Some? {
        return Ready(client.value), entered, returned;
      }
      OthersRun(None);
      entered := pool.state;
      var connecting := pool.Connecting(key);
      match connecting
      case InProgress(waiter) => return Waits(waiter), entered, returned;
      case Granted(lock) =>
        OthersRun(Some(key));
        returned := pool.state;
        if connected.None? {
          lock.Drop(pool);
          return ConnectFailed, entered, returned;
        }
        var published := pool.NewConnection(lock, connected.value, later);
        return Ready(published), entered, returned;
    }
  }
}
