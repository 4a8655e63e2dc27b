/** Any number of tasks asking one pool for clients, in every interleaving, with connection
    attempts that succeed, fail or are cancelled. Each section under the mutex is one step. */
module PoolProtocol {
  import opened Wrappers
  import opened Pool

  /** Where a task is in `get_pooled_client`. `ch` is the channel of the attempt a task makes or
      waits for; `Dropping` is an attempt that has ended with its lock still to be dropped. */
  datatype Task =
    | Start(key: Key)
    | Missed(key: Key)
    | Waiting(key: Key, ch: nat)
    | Attempting(key: Key, ch: nat)
    | Connected(key: Key, ch: nat, client: nat)
    | Dropping(key: Key, ch: nat)
    | Pooled(key: Key, client: nat)
    | Served(key: Key, ch: nat, client: nat)
    | Failed(key: Key, ch: nat)
    | Cancelled(key: Key)

  datatype Attempt = InFlight | Succeeded(client: nat) | Abandoned

  datatype Event =
    | Inserted(key: Key, client: nat, at: nat)
    | HandedOut(key: Key, client: nat, at: nat)
    | Removed(key: Key, client: nat)
    | Closed(client: nat)

  /** `attempts[ch]` is what became of the attempt behind channel `ch`. */
  datatype World = World(
    pool: State, tasks: seq<Task>, attempts: seq<Attempt>,
    now: nat, closed: set<nat>, made: nat, log: seq<Event>)

  const INITIAL := World(EMPTY, [], [], 0, {}, 0, [])

  datatype Action =
    | Spawn(key: Key)
    | TryPool(t: nat)
    | Enter(t: nat)
    | Receive(t: nat)
    | ConnectOk(t: nat)
    | ConnectFail(t: nat)
    | NewConnection(t: nat)
    | DropLock(t: nat)
    | Cancel(t: nat)
    | CloseDriver(client: nat)
    | Tick(nanos: nat)

  predicate Holds(task: Task) {
    task.Attempting? || task.Connected? || task.Dropping?
  }

  predicate Finished(task: Task) {
    task.Pooled? || task.Served? || task.Failed? || task.Cancelled?
  }

  /** `wait_for` returns once there is a value, or no sender any more. */
  predicate Resolved(c: Chan) {
    c.value.Some? || !c.open
  }

  predicate Enabled(w: World, a: Action) {
    match a
    case Spawn(_) => true
    case TryPool(t) => t < |w.tasks| && w.tasks[t].Start?
    case Enter(t) => t < |w.tasks| && w.tasks[t].Missed?
    case Receive(t) =>
      t < |w.tasks| && w.tasks[t].Waiting? && w.tasks[t].ch < |w.pool.chans| && Resolved(w.pool.chans[w.tasks[t].ch])
    case ConnectOk(t) => t < |w.tasks| && w.tasks[t].Attempting?
    case ConnectFail(t) => t < |w.tasks| && w.tasks[t].Attempting?
    case NewConnection(t) => t < |w.tasks| && w.tasks[t].Connected?
    case DropLock(t) => t < |w.tasks| && w.tasks[t].Dropping?
    case Cancel(t) => t < |w.tasks| && (w.tasks[t].Start? || w.tasks[t].Waiting? || w.tasks[t].Attempting?)
    case CloseDriver(client) => client < w.made
    case Tick(_) => true
  }

  function Become(w: World, t: nat, task: Task): World
    requires t < |w.tasks|
  {
    w.(tasks := w.tasks[t := task])
  }

  function DoTryPool(timeout: Option<nat>, w: World, t: nat): World
    requires t < |w.tasks|
  {
    var key := w.tasks[t].key;
    var found := Found(w.pool, key, timeout, w.now, w.closed);
    var events :=
      if found.Some? then [HandedOut(key, found.value, w.now)]
      else if key in w.pool.idle then [Removed(key, w.pool.idle[key].client)]
      else [];
    Become(w, t, if found.Some? then Pooled(key, found.value) else Missed(key))
    .(pool := Tried(w.pool, key, timeout, w.now, w.closed), log := w.log + events)
  }

  function DoEnter(w: World, t: nat): World
    requires t < |w.tasks|
  {
    var key := w.tasks[t].key;
    if Named(w.pool, key) then
      Become(w, t, Waiting(key, w.pool.connecting[key])).(pool := Subscribed(w.pool, key))
    else
      Become(w, t, Attempting(key, |w.pool.chans|))
      .(pool := Acquired(w.pool, key), attempts := w.attempts + [InFlight])
  }

  function DoReceive(w: World, t: nat): World
    requires Enabled(w, Receive(t))
  {
    var Waiting(key, ch) := w.tasks[t];
    var value := w.pool.chans[ch].value;
    LeaveChannel(Become(w, t, if value.Some? then Served(key, ch, value.value) else Failed(key, ch)), ch)
  }

  function LeaveChannel(w: World, ch: nat): World {
    if ch < |w.pool.chans| && w.pool.chans[ch].receivers > 0 then w.(pool := Unsubscribed(w.pool, ch)) else w
  }

  function Resolve(w: World, ch: nat, attempt: Attempt): World {
    if ch < |w.attempts| then w.(attempts := w.attempts[ch := attempt]) else w
  }

  /** Without the key in `connecting` this is the branch marked unreachable; the world is left alone. */
  function DoNewConnection(w: World, t: nat): World
    requires Enabled(w, NewConnection(t))
  {
    var Connected(key, ch, client) := w.tasks[t];
    if !Named(w.pool, key) then w
    else
      var replaced := if key in w.pool.idle then [Removed(key, w.pool.idle[key].client)] else [];
      Resolve(Become(w, t, Served(key, ch, client)), ch, Succeeded(client))
      .(pool := Published(w.pool, key, client, w.now), log := w.log + replaced + [Inserted(key, client, w.now)])
  }

  function DoDropLock(w: World, t: nat): World
    requires Enabled(w, DropLock(t))
  {
    var Dropping(key, ch) := w.tasks[t];
    var w' := Resolve(Become(w, t, Failed(key, ch)), ch, Abandoned);
    if Named(w.pool, key) then w'.(pool := Released(w.pool, key, None)) else w'
  }

  function DoCancel(w: World, t: nat): World
    requires Enabled(w, Cancel(t))
  {
    match w.tasks[t]
    case Waiting(key, ch) => LeaveChannel(Become(w, t, Cancelled(key)), ch)
    case Attempting(key, ch) => Become(w, t, Dropping(key, ch))
    case task => Become(w, t, Cancelled(task.key))
  }

  /** A step that is not enabled changes nothing. */
  function Next(timeout: Option<nat>, w: World, a: Action): World {
    if !Enabled(w, a) then w
    else
      match a
      case Spawn(key) => w.(tasks := w.tasks + [Start(key)])
      case TryPool(t) => DoTryPool(timeout, w, t)
      case Enter(t) => DoEnter(w, t)
      case Receive(t) => DoReceive(w, t)
      case ConnectOk(t) =>
        Become(w, t, Connected(w.tasks[t].key, w.tasks[t].ch, w.made)).(made := w.made + 1)
      case ConnectFail(t) => Become(w, t, Dropping(w.tasks[t].key, w.tasks[t].ch))
      case NewConnection(t) => DoNewConnection(w, t)
      case DropLock(t) => DoDropLock(w, t)
      case Cancel(t) => DoCancel(w, t)
      case CloseDriver(client) =>
        if client in w.closed then w else w.(closed := w.closed + {client}, log := w.log + [Closed(client)])
      case Tick(nanos) => w.(now := w.now + nanos)
  }

  function Run(timeout: Option<nat>, actions: seq<Action>): World {
    if actions == [] then INITIAL
    else Next(timeout, Run(timeout, actions[..|actions| - 1]), actions[|actions| - 1])
  }
}
