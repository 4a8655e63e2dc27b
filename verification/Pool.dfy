/** The HTTP/3 connection pool: the mutex-guarded state, the lock that admits one connection
    attempt per key, and the channel that wakes those who wait for it. */
module Pool {
  import opened Wrappers

  datatype Key = Key(scheme: string, authority: string)

  /** An idle connection: its client, and when it was last inserted or handed out. */
  datatype Conn = Conn(client: nat, idleSince: nat)

  /** A watch channel. `open` while its sender lives. */
  datatype Chan = Chan(value: Option<nat>, open: bool, receivers: nat)

  /** The pool as a value: `connecting` names the channel of each attempt in progress, and `chans`
      lists every channel there ever was. */
  datatype State = State(connecting: map<Key, nat>, idle: map<Key, Conn>, chans: seq<Chan>)

  const EMPTY := State(map[], map[], [])

  predicate Named(s: State, key: Key) {
    key in s.connecting && s.connecting[key] < |s.chans|
  }

  function Acquired(s: State, key: Key): State {
    s.(connecting := s.connecting[key := |s.chans|], chans := s.chans + [Chan(None, true, 0)])
  }

  function Subscribed(s: State, key: Key): State
    requires Named(s, key)
  {
    var ch := s.connecting[key];
    s.(chans := s.chans[ch := s.chans[ch].(receivers := s.chans[ch].receivers + 1)])
  }

  predicate Usable(conn: Conn, timeout: Option<nat>, now: nat, closed: set<nat>) {
    conn.client !in closed && (timeout.Some? ==> now - conn.idleSince <= timeout.value)
  }

  function Tried(s: State, key: Key, timeout: Option<nat>, now: nat, closed: set<nat>): State {
    if key !in s.idle then s
    else if Usable(s.idle[key], timeout, now, closed) then
      s.(idle := s.idle[key := s.idle[key].(idleSince := now)])
    else s.(idle := s.idle - {key})
  }

  function Found(s: State, key: Key, timeout: Option<nat>, now: nat, closed: set<nat>): Option<nat> {
    if key in s.idle && Usable(s.idle[key], timeout, now, closed) then Some(s.idle[key].client) else None
  }

  /** The channel of an attempt is closed: with the client for those who listen, or without. */
  function Released(s: State, key: Key, client: Option<nat>): State
    requires Named(s, key)
  {
    var ch := s.connecting[key];
    var value := if s.chans[ch].receivers > 0 && client.Some? then client else s.chans[ch].value;
    s.(connecting := s.connecting - {key}, chans := s.chans[ch := s.chans[ch].(value := value, open := false)])
  }

  function Published(s: State, key: Key, client: nat, now: nat): State
    requires Named(s, key)
  {
    var r := Released(s, key, Some(client));
    r.(idle := r.idle[key := Conn(client, now)])
  }

  function Unsubscribed(s: State, ch: nat): State
    requires ch < |s.chans| && s.chans[ch].receivers > 0
  {
    s.(chans := s.chans[ch := s.chans[ch].(receivers := s.chans[ch].receivers - 1)])
  }

  // ----- the objects

  class Watch {
    ghost const id: nat
    var value: Option<nat>
    var open: bool
    var receivers: nat

    ghost function Contents(): Chan
      reads this
    {
      Chan(value, open, receivers)
    }

    constructor (ghost id: nat)
      ensures this.id == id && Contents() == Chan(None, true, 0)
    {
      this.id := id;
      value, open, receivers := None, true, 0;
    }

    method Subscribe()
      modifies this
      ensures Contents() == old(Contents()).(receivers := old(receivers) + 1)
    {
      receivers := receivers + 1;
    }

    /** A value that nobody listens for comes back to the sender and is not stored. */
    method Send(client: nat) returns (unsent: Option<nat>)
      modifies this
      ensures unsent == (if old(receivers) == 0 then Some(client) else None)
      ensures Contents() == if old(receivers) == 0 then old(Contents()) else old(Contents()).(value := Some(client))
    {
      if receivers == 0 {
        return Some(client);
      }
      value := Some(client);
      unsent := None;
    }

    /** The sender passes on the client, if there is one, and is dropped. */
    method Finish(client: Option<nat>) returns (unsent: Option<nat>)
      modifies this
      ensures unsent == None || unsent == client
      ensures Contents()
              == old(Contents()).(
                   value := if old(receivers) > 0 && client.Some? then client else old(value),
                   open := false)
    {
      unsent := None;
      if client.Some? {
        unsent := Send(client.value);
      }
      Close();
    }

    /** The sender is dropped. */
    method Close()
      modifies this
      ensures Contents() == old(Contents()).(open := false)
    {
      open := false;
    }
  }

  datatype Received = Pending | Got(client: nat) | NoSender

  class ConnectingWaiter {
    const receiver: Watch

    constructor (receiver: Watch)
      ensures this.receiver == receiver
    {
      this.receiver := receiver;
    }

    /** One poll of `receive`. A value counts even when its sender is gone; an answer gives up the
        subscription. */
    method Receive() returns (r: Received)
      requires receiver.receivers > 0
      modifies receiver
      ensures r == match receiver.value
                case Some(client) => Got(client)
                case None => if receiver.open then Pending else NoSender
      ensures receiver.Contents()
              == if r.Pending? then old(receiver.Contents())
                 else old(receiver.Contents()).(receivers := old(receiver.receivers) - 1)
    {
      if receiver.value.Some? {
        r := Got(receiver.value.value);
      } else if receiver.open {
        return Pending;
      } else {
        r := NoSender;
      }
      receiver.receivers := receiver.receivers - 1;
    }
  }

  datatype Connecting = InProgress(waiter: ConnectingWaiter) | Granted(lock: ConnectingLock)

  class ConnectingLock {
    var inner: Option<Key>

    constructor (key: Key)
      ensures inner == Some(key)
    {
      inner := Some(key);
    }

    /** Takes the key out, so that the drop at the end finds nothing and leaves the mutex, which the
        caller holds, alone. */
    method Forget(pool: PoolInner) returns (key: Key)
      requires inner.Some? && pool.Valid() && pool.locked
      modifies this
      ensures inner == None && pool.Valid() && pool.made == old(pool.made) && key == old(inner).value
    {
      key := inner.value;
      inner := None;
      Drop(pool);
    }

    /** Removing a key that is not there does nothing. */
    method Drop(pool: PoolInner)
      requires pool.Valid()
      requires inner.Some? ==> !pool.locked
      modifies this
      modifies if inner.Some? then {pool} else {}
      modifies if inner.Some? then set w | w in pool.made else {}
      ensures inner == None
      ensures pool.Valid() && pool.locked == old(pool.locked) && pool.made == old(pool.made)
      ensures pool.state
              == if old(inner).Some? && old(inner).value in old(pool.connecting)
                 then Released(old(pool.state), old(inner).value, None) else old(pool.state)
    {
      if inner.Some? {
        var key := inner.value;
        inner := None;
        pool.Lock();
        if key in pool.connecting {
          var _ := pool.Remove(key, None);
        }
        pool.Unlock();
      }
    }
  }

  class PoolInner {
    var locked: bool
    var connecting: map<Key, Watch>
    var idleConns: map<Key, Conn>
    const timeout: Option<nat>
    ghost var made: seq<Watch>
    ghost var state: State

    ghost predicate Valid()
      reads this, made
    {
      && |made| == |state.chans|
      && (forall i :: 0 <= i < |made| ==> made[i].id == i && made[i].Contents() == state.chans[i])
      && connecting.Keys == state.connecting.Keys
      && (forall k :: k in connecting ==> Named(state, k) && connecting[k] == made[state.connecting[k]])
      && idleConns == state.idle
    }

    constructor (timeout: Option<nat>)
      ensures Valid() && !locked && state == EMPTY && this.timeout == timeout
    {
      this.timeout := timeout;
      locked, connecting, idleConns := false, map[], map[];
      made, state := [], EMPTY;
    }

    method Lock()
      requires !locked
      modifies this`locked
      ensures locked
    {
      locked := true;
    }

    method Unlock()
      requires locked
      modifies this`locked
      ensures !locked
    {
      locked := false;
    }

    /** Removes the sender of an attempt, tells the waiters if there is a client, and drops it. */
    method Remove(key: Key, client: Option<nat>) returns (unsent: Option<nat>)
      requires Valid() && locked && key in connecting
      modifies this, made
      ensures Valid() && locked && made == old(made)
      ensures state == Released(old(state), key, client)
      ensures unsent == None || unsent == client
    {
      var sender := connecting[key];
      connecting := connecting - {key};
      unsent := sender.Finish(client);
      state := Released(state, key, client);
    }

    method Connecting(key: Key) returns (r: Connecting)
      requires Valid() && !locked
      modifies this, made
      ensures Valid() && !locked
      ensures r.InProgress? <==> key in old(connecting)
      ensures r.InProgress? ==> r.waiter.receiver == old(connecting)[key] && state == Subscribed(old(state), key)
      ensures r.Granted? ==> fresh(r.lock) && r.lock.inner == Some(key) && state == Acquired(old(state), key)
      ensures old(made) <= made && forall i :: |old(made)| <= i < |made| ==> fresh(made[i])
    {
      Lock();
      if key in connecting {
        var waiter := Subscribe(key);
        r := InProgress(waiter);
      } else {
        var lock := Acquire(key);
        r := Granted(lock);
      }
      Unlock();
    }

    /** Registers a new attempt. */
    method Acquire(key: Key) returns (lock: ConnectingLock)
      requires Valid() && locked && key !in connecting
      modifies this
      ensures Valid() && locked && |made| == |old(made)| + 1
      ensures made[..|old(made)|] == old(made) && fresh(made[|old(made)|])
      ensures state == Acquired(old(state), key)
      ensures fresh(lock) && lock.inner == Some(key)
    {
      var sender := new Watch(|made|);
      connecting := connecting[key := sender];
      made := made + [sender];
      state := Acquired(state, key);
      lock := new ConnectingLock(key);
    }

    method Subscribe(key: Key) returns (waiter: ConnectingWaiter)
      requires Valid() && locked && key in connecting
      modifies this`state, made
      ensures Valid() && state == Subscribed(old(state), key)
      ensures waiter.receiver == connecting[key]
    {
      var sender := connecting[key];
      sender.Subscribe();
      state := Subscribed(state, key);
      waiter := new ConnectingWaiter(sender);
    }

    /** `closed` holds the clients whose driver has reported its end. */
    method TryPool(key: Key, now: nat, closed: set<nat>) returns (client: Option<nat>)
      requires Valid() && !locked
      modifies this
      ensures Valid() && !locked && made == old(made)
      ensures state == Tried(old(state), key, timeout, now, closed)
      ensures client == Found(old(state), key, timeout, now, closed)
      ensures client.Some?
              <==> && key in old(idleConns) && old(idleConns)[key].client !in closed
                   && (timeout.Some? ==> now <= old(idleConns)[key].idleSince + timeout.value)
      ensures client.Some? ==>
                client.value == old(idleConns)[key].client && idleConns == old(idleConns)[key := Conn(client.value, now)]
      ensures client.None? ==> idleConns == old(idleConns) - {key}
    {
      Lock();
      state := Tried(state, key, timeout, now, closed);
      if key in idleConns {
        var conn := idleConns[key];
        if conn.client in closed {
          idleConns := idleConns - {key};
          Unlock();
          return None;
        }
        if timeout.Some? && now - conn.idleSince > timeout.value {
          idleConns := idleConns - {key};
          Unlock();
          return None;
        }
      }
      if key in idleConns {
        var conn := idleConns[key];
        idleConns := idleConns[key := conn.(idleSince := now)];
        client := Some(conn.client);
      } else {
        client := None;
      }
      Unlock();
    }

    method Insert(key: Key, conn: Conn)
      requires Valid() && locked
      modifies this`idleConns, this`state
      ensures Valid()
      ensures state == old(state).(idle := old(state).idle[key := conn])
    {
      idleConns := idleConns[key := conn];
      state := state.(idle := idleConns);
    }

    /** Needs the key of the lock in `connecting`; every reachable state of the protocol has it. */
    method NewConnection(lock: ConnectingLock, tx: nat, now: nat) returns (client: nat)
      requires Valid() && !locked
      requires lock.inner.Some? && lock.inner.value in connecting
      modifies this, made, lock
      ensures Valid() && !locked && made == old(made) && lock.inner == None
      ensures client == tx
      ensures state == Published(old(state), old(lock.inner).value, client, now)
    {
      Lock();
      var key := lock.Forget(this);
      client := tx;
      var unsent := Remove(key, Some(client));
      Insert(key, Conn(if unsent.Some? then unsent.value else client, now));
      Unlock();
    }
  }
}
