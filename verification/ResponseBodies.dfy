/** Response bodies under a read timeout, a total timeout, or both, for every trace of polls. */
module ResponseBodies {
  import opened Wrappers

  /** What one poll of a body yields. */
  datatype Polled = Pending | Frame(data: Bytes) | End | Failed | TimedOut {

    /** The body had something to say. */
    predicate IsItem() {
      Frame? || End? || Failed?
    }
  }

  type InnerPolled = p: Polled | !p.TimedOut? witness Pending

  /** What the connection yields at its first poll, its second poll and so on. */
  type Script = nat -> InnerPolled

  /** `at` polls have reached the connection; the read timeout may be armed for an instant. */
  datatype State = State(at: nat, sleep: Option<nat>)

  datatype Limits = Limits(deadline: Option<nat>, readTimeout: Option<nat>)

  function PollInner(script: Script, s: State): (r: (Polled, State)) {
    (script(s.at), s.(at := s.at + 1))
  }

  /** A sleep is ready once its instant is reached. */
  function PollRead(script: Script, timeout: nat, s: State, now: nat): (Polled, State) {
    var wake := if s.sleep.Some? then s.sleep.value else now + timeout;
    if now >= wake then (TimedOut, s.(sleep := Some(wake)))
    else
      var (item, rest) := PollInner(script, s);
      (item, rest.(sleep := if item.Pending? then Some(wake) else None))
  }

  function PollUnlimited(script: Script, readTimeout: Option<nat>, s: State, now: nat): (Polled, State) {
    if readTimeout.Some? then PollRead(script, readTimeout.value, s, now) else PollInner(script, s)
  }

  function Poll(script: Script, limits: Limits, s: State, now: nat): (Polled, State) {
    if limits.deadline.Some? && now >= limits.deadline.value then (TimedOut, s)
    else PollUnlimited(script, limits.readTimeout, s, now)
  }

  // ----- the bodies

  class Connection {
    const script: Script
    var at: nat

    method PollFrame() returns (p: Polled)
      modifies this`at
      ensures p == script(old(at)) && at == old(at) + 1
    {
      p := script(at);
      at := at + 1;
    }
  }

  class ReadTimeoutBody {
    const inner: Connection
    const timeout: nat
    var sleep: Option<nat>

    constructor (inner: Connection, timeout: nat)
      ensures this.inner == inner && this.timeout == timeout && sleep == None
    {
      this.inner, this.timeout, sleep := inner, timeout, None;
    }

    ghost function View(): State
      reads this, inner
    {
      State(inner.at, sleep)
    }

    method PollFrame(now: nat) returns (p: Polled)
      modifies this, inner
      ensures (p, View()) == PollRead(inner.script, timeout, old(View()), now)
    {
      if sleep.None? {
        sleep := Some(now + timeout);
      }
      if now >= sleep.value {
        return TimedOut;
      }
      p := inner.PollFrame();
      if p.Pending? {
        return;
      }
      sleep := None;
    }
  }

  datatype Body = Bare(connection: Connection) | Read(body: ReadTimeoutBody) {

    ghost function Repr(): set<object> {
      if Bare? then {connection} else {body, body.inner}
    }

    ghost function Inner(): Connection {
      if Bare? then connection else body.inner
    }

    ghost function ReadTimeout(): Option<nat> {
      if Bare? then None else Some(body.timeout)
    }

    ghost function View(): State
      reads Repr()
    {
      if Bare? then State(connection.at, None) else body.View()
    }

    method PollFrame(now: nat) returns (p: Polled)
      modifies Repr()
      ensures (p, View()) == PollUnlimited(Inner().script, ReadTimeout(), old(View()), now)
    {
      match this
      case Bare(connection) => p := connection.PollFrame();
      case Read(body) => p := body.PollFrame(now);
    }
  }

  class TotalTimeoutBody {
    const inner: Body
    const deadline: nat

    constructor (inner: Body, deadline: nat)
      ensures this.inner == inner && this.deadline == deadline
    {
      this.inner, this.deadline := inner, deadline;
    }

    method PollFrame(now: nat) returns (p: Polled)
      modifies inner.Repr()
      ensures (p, inner.View())
              == Poll(inner.Inner().script, Limits(Some(deadline), inner.ReadTimeout()), old(inner.View()), now)
    {
      if now >= deadline {
        return TimedOut;
      }
      p := inner.PollFrame(now);
    }
  }

  datatype ResponseBody = Boxed(body: Body) | Total(total: TotalTimeoutBody) {

    ghost function Inside(): Body {
      if Boxed? then body else total.inner
    }

    ghost function GetLimits(): Limits {
      Limits(if Boxed? then None else Some(total.deadline), Inside().ReadTimeout())
    }

    method PollFrame(now: nat) returns (p: Polled)
      modifies Inside().Repr()
      ensures (p, Inside().View()) == Poll(Inside().Inner().script, GetLimits(), old(Inside().View()), now)
    {
      match this
      case Boxed(body) => p := body.PollFrame(now);
      case Total(total) => p := total.PollFrame(now);
    }
  }

  /** Puts the limits around a body, the total timeout outermost; neither is armed by that. */
  method Response(connection: Connection, deadline: Option<nat>, readTimeout: Option<nat>) returns (r: ResponseBody)
    ensures r.GetLimits() == Limits(deadline, readTimeout)
    ensures r.Inside().Inner() == connection && r.Inside().View() == State(connection.at, None)
    ensures fresh(r.Inside().Repr() - {connection})
  {
    match (deadline, readTimeout)
    case (Some(total), Some(read)) =>
      var timed := new ReadTimeoutBody(connection, read);
      var body := new TotalTimeoutBody(Read(timed), total);
      r := Total(body);
    case (Some(total), None) =>
      var body := new TotalTimeoutBody(Bare(connection), total);
      r := Total(body);
    case (None, Some(read)) =>
      var timed := new ReadTimeoutBody(connection, read);
      r := Boxed(Read(timed));
    case (None, None) =>
      r := Boxed(Bare(connection));
  }

  // ----- traces

  const START := State(0, None)

  /** What the polls at the given instants yield, and the state after them. */
  function Run(script: Script, limits: Limits, times: seq<nat>): (r: (seq<Polled>, State))
    ensures |r.0| == |times|
  {
    if times == [] then ([], START)
    else
      var n := |times| - 1;
      var (outputs, s) := Run(script, limits, times[..n]);
      var (p, t) := Poll(script, limits, s, times[n]);
      (outputs + [p], t)
  }

  function Outputs(script: Script, limits: Limits, times: seq<nat>): (outputs: seq<Polled>)
    ensures |outputs| == |times|
  {
    Run(script, limits, times).0
  }

  predicate Monotone(times: seq<nat>) {
    forall i, j :: 0 <= i < j < |times| ==> times[i] <= times[j]
  }

  function WithoutTimeouts(outputs: seq<Polled>): seq<Polled> {
    if outputs == [] then []
    else
      var n := |outputs| - 1;
      WithoutTimeouts(outputs[..n]) + if outputs[n].TimedOut? then [] else [outputs[n]]
  }

  /** What the connection yields to its first `k` polls. */
  function Yielded(script: Script, k: nat): (y: seq<Polled>)
    ensures |y| == k && forall i :: 0 <= i < k ==> y[i] == script(i)
  {
    if k == 0 then [] else Yielded(script, k - 1) + [script(k - 1)]
  }

  /** Nothing the connection yields is lost, repeated or reordered, under any limits and any trace: what
      comes out besides timeouts is what it has yielded. */
  lemma {:induction false} NothingLostOrRepeated(script: Script, limits: Limits, times: seq<nat>)
    ensures var (outputs, s) := Run(script, limits, times);
            WithoutTimeouts(outputs) == Yielded(script, s.at)
  {
    if times != [] {
      var n := |times| - 1;
      NothingLostOrRepeated(script, limits, times[..n]);
      var (outputs, s) := Run(script, limits, times[..n]);
      PollYields(script, limits, s, times[n]);
      WithoutTimeoutsLast(outputs, Poll(script, limits, s, times[n]).0);
    }
  }

  lemma WithoutTimeoutsLast(outputs: seq<Polled>, p: Polled)
    ensures WithoutTimeouts(outputs + [p]) == WithoutTimeouts(outputs) + if p.TimedOut? then [] else [p]
  {
    assert (outputs + [p])[..|outputs|] == outputs;
  }

  lemma PollYields(script: Script, limits: Limits, s: State, now: nat)
    ensures var (p, t) := Poll(script, limits, s, now);
            Yielded(script, t.at) == Yielded(script, s.at) + if p.TimedOut? then [] else [p]
  {
  }

  /** The poll that armed the timeout of poll `i`: the first one since the last item. */
  function Armed(outputs: seq<Polled>, i: nat): (k: nat)
    requires i <= |outputs|
    ensures k <= i && (k > 0 ==> outputs[k - 1].IsItem())
    ensures forall j :: k <= j < i ==> !outputs[j].IsItem()
  {
    if i == 0 || outputs[i - 1].IsItem() then i else Armed(outputs, i - 1)
  }

  lemma {:induction false} SameArmed(outputs: seq<Polled>, others: seq<Polled>, i: nat)
    requires i <= |outputs| && i <= |others|
    requires forall j :: 0 <= j < i ==> outputs[j] == others[j]
    ensures Armed(outputs, i) == Armed(others, i)
  {
    if i > 0 {
      SameArmed(outputs, others, i - 1);
    }
  }

  lemma {:induction false} PrefixOfRun(script: Script, limits: Limits, times: seq<nat>, k: nat)
    requires k <= |times|
    ensures Outputs(script, limits, times)[..k] == Outputs(script, limits, times[..k])
  {
    var n := |times| - 1;
    if k < |times| {
      PrefixOfRun(script, limits, times[..n], k);
      assert times[..n][..k] == times[..k];
    } else {
      assert times[..k] == times;
    }
  }

  /** After any trace the read timeout is armed from the first poll since the last item, if there
      has been one. */
  lemma {:induction false} SleepIsArmed(script: Script, timeout: nat, times: seq<nat>)
    ensures var (outputs, s) := Run(script, Limits(None, Some(timeout)), times);
            var k := Armed(outputs, |times|);
            s.sleep == if k == |times| then None else Some(times[k] + timeout)
  {
    if times != [] {
      var n := |times| - 1;
      SleepIsArmed(script, timeout, times[..n]);
      var (outputs, s) := Run(script, Limits(None, Some(timeout)), times[..n]);
      var (p, _) := Poll(script, Limits(None, Some(timeout)), s, times[n]);
      SameArmed(outputs + [p], outputs, n);
    }
  }

  /** A read timeout is reported exactly when the first poll since the last item is at least as old as
      the timeout. */
  lemma {:induction false} ReadTimeoutExactly(script: Script, timeout: nat, times: seq<nat>, i: nat)
    requires i < |times|
    ensures var outputs := Outputs(script, Limits(None, Some(timeout)), times);
            outputs[i].TimedOut? <==> times[i] >= times[Armed(outputs, i)] + timeout
  {
    var limits := Limits(None, Some(timeout));
    var outputs := Outputs(script, limits, times);
    var before := Outputs(script, limits, times[..i]);
    PrefixOfRun(script, limits, times, i);
    PrefixOfRun(script, limits, times, i + 1);
    assert times[..i + 1][..i] == times[..i];
    SleepIsArmed(script, timeout, times[..i]);
    SameArmed(outputs, before, i);
    assert outputs[i] == outputs[..i + 1][i];
  }

  /** The total timeout in terms of the rest: nothing comes out at or after the deadline, and before it
      the body behaves as if there were none. */
  lemma {:induction false} TotalTimeoutCuts(script: Script, deadline: nat, readTimeout: Option<nat>, times: seq<nat>)
    requires Monotone(times)
    ensures var outputs := Outputs(script, Limits(Some(deadline), readTimeout), times);
            var unlimited := Outputs(script, Limits(None, readTimeout), times);
            forall i :: 0 <= i < |times| ==> outputs[i] == if times[i] >= deadline then TimedOut else unlimited[i]
  {
    if times != [] {
      var n := |times| - 1;
      TotalTimeoutCuts(script, deadline, readTimeout, times[..n]);
      if times[n] < deadline {
        SameBeforeDeadline(script, deadline, readTimeout, times[..n]);
      }
    }
  }

  lemma {:induction false} SameBeforeDeadline(script: Script, deadline: nat, readTimeout: Option<nat>, times: seq<nat>)
    requires forall i :: 0 <= i < |times| ==> times[i] < deadline
    ensures Run(script, Limits(Some(deadline), readTimeout), times) == Run(script, Limits(None, readTimeout), times)
  {
    if times != [] {
      SameBeforeDeadline(script, deadline, readTimeout, times[..|times| - 1]);
    }
  }

  /** Both limits at once: a timeout is reported exactly when the deadline has come, or the first poll
      since the last item is at least as old as the read timeout. */
  lemma TimeoutExactly(script: Script, deadline: nat, timeout: nat, times: seq<nat>, i: nat)
    requires Monotone(times) && i < |times|
    ensures var outputs := Outputs(script, Limits(Some(deadline), Some(timeout)), times);
            outputs[i].TimedOut? <==> times[i] >= deadline || times[i] >= times[Armed(outputs, i)] + timeout
  {
    hide Outputs, Armed;
    TotalTimeoutCuts(script, deadline, Some(timeout), times);
    if times[i] < deadline {
      ReadTimeoutExactly(script, timeout, times, i);
      SameArmed(Outputs(script, Limits(Some(deadline), Some(timeout)), times),
                Outputs(script, Limits(None, Some(timeout)), times), i);
    }
  }

  /** A timeout is final: whichever limit was exceeded, every later poll reports it too. */
  lemma TimeoutIsFinal(script: Script, limits: Limits, times: seq<nat>, i: nat, j: nat)
    requires Monotone(times) && i < j < |times|
    requires Outputs(script, limits, times)[i].TimedOut?
    ensures Outputs(script, limits, times)[j].TimedOut?
  {
    if limits.deadline.Some? {
      TotalTimeoutCuts(script, limits.deadline.value, limits.readTimeout, times);
    }
    if limits.deadline.None? || times[j] < limits.deadline.value {
      if limits.readTimeout.Some? {
        ReadTimeoutStays(script, limits.readTimeout.value, times, i, j);
      } else {
        UnlimitedNeverTimesOut(script, times, i);
      }
    }
  }

  lemma {:induction false} ReadTimeoutStays(script: Script, timeout: nat, times: seq<nat>, i: nat, j: nat)
    requires Monotone(times) && i <= j < |times|
    requires Outputs(script, Limits(None, Some(timeout)), times)[i].TimedOut?
    ensures var outputs := Outputs(script, Limits(None, Some(timeout)), times);
            outputs[j].TimedOut? && Armed(outputs, j) == Armed(outputs, i)
  {
    if i < j {
      ReadTimeoutStays(script, timeout, times, i, j - 1);
      ReadTimeoutExactly(script, timeout, times, j - 1);
      ReadTimeoutExactly(script, timeout, times, j);
    }
  }

  lemma {:induction false} UnlimitedNeverTimesOut(script: Script, times: seq<nat>, i: nat)
    requires i < |times|
    ensures !Outputs(script, Limits(None, None), times)[i].TimedOut?
  {
    if i < |times| - 1 {
      UnlimitedNeverTimesOut(script, times[..|times| - 1], i);
    }
  }

  // ----- a body of bytes

  /** Polling takes all bytes at once, and then there is nothing left. */
  class ReusableBody {
    var bytes: Bytes

    constructor (bytes: Bytes)
      ensures this.bytes == bytes
    {
      this.bytes := bytes;
    }

    method PollFrame() returns (p: Polled)
      modifies this
      ensures p == if old(bytes) == [] then End else Frame(old(bytes))
      ensures p == ReusableScript(old(bytes))(0)
      ensures forall i: nat :: ReusableScript(bytes)(i) == ReusableScript(old(bytes))(i + 1)
      ensures bytes == []
    {
      var out := bytes;
      bytes := [];
      p := if out == [] then End else Frame(out);
    }
  }

  function ReusableScript(bytes: Bytes): Script {
    i => if i == 0 && bytes != [] then Frame(bytes) else End
  }
}
