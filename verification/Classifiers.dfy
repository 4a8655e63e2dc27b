/** Which attempts may be retried: the classifiers a builder collects, and how they combine. */
module Classifiers {
  import opened Wrappers

  /** What a classifier can look at. `status` is `None` when the attempt failed. */
  datatype ReqRep = ReqRep(verb: string, uri: Url, headers: Headers, status: Option<nat>)

  datatype Classifier =
    | Never
    | Standard
    | StatusCodes(statuses: seq<nat>)
    | Dyn(func: ReqRep -> bool)
    | Any(all: seq<Classifier>)

  predicate IsIdempotent(verb: string) {
    verb in {"GET", "HEAD", "OPTIONS", "TRACE", "PUT", "DELETE"}
  }

  predicate IsStandardRetry(r: ReqRep) {
    (r.status == Some(429) || r.status == Some(503)) && (IsIdempotent(r.verb) || "idempotency-key" in r.headers)
  }

  function Or(first: Classifier, other: Classifier): Classifier {
    match (first, other)
    case (Never, _) => other
    case (_, Never) => first
    case (Any(all), Any(more)) => Any(all + more)
    case (Any(all), _) => Any(all + [other])
    case (_, Any(more)) => Any([first] + more)
    case (_, _) => Any([first, other])
  }

  /** True for `Action::Retryable`. */
  predicate Classify(c: Classifier, r: ReqRep)
    decreases c, 0
  {
    match c
    case Never => false
    case Standard => IsStandardRetry(r)
    case StatusCodes(statuses) => r.status.Some? && r.status.value in statuses
    case Dyn(func) => func(r)
    case Any(all) => ClassifyAny(all, r)
  }

  predicate ClassifyAny(all: seq<Classifier>, r: ReqRep)
    decreases all, 1
  {
    all != [] && (Classify(all[0], r) || ClassifyAny(all[1..], r))
  }

  /** The conditions that `Classify` evaluates, in order. */
  function Consulted(c: Classifier, r: ReqRep): seq<Classifier>
    decreases c, 0
  {
    match c
    case Never => []
    case Any(all) => ConsultedAny(all, r)
    case _ => [c]
  }

  function ConsultedAny(all: seq<Classifier>, r: ReqRep): seq<Classifier>
    decreases all, 1
  {
    if all == [] then []
    else if Classify(all[0], r) then Consulted(all[0], r)
    else Consulted(all[0], r) + ConsultedAny(all[1..], r)
  }

  // ----- the builder

  datatype Step = RetryOnStatuses(statuses: seq<nat>) | ClassifyWith(func: ReqRep -> bool)

  function AddStep(c: Classifier, step: Step): Classifier {
    match step
    case RetryOnStatuses(statuses) => if statuses == [] then c else Or(c, StatusCodes(statuses))
    case ClassifyWith(func) => Or(c, Dyn(func))
  }

  /** The classifier after a chain of builder calls. */
  function Build(start: Classifier, steps: seq<Step>): Classifier {
    if steps == [] then start else AddStep(Build(start, steps[..|steps| - 1]), steps[|steps| - 1])
  }

  function Condition(step: Step): Classifier {
    match step
    case RetryOnStatuses(statuses) => StatusCodes(statuses)
    case ClassifyWith(func) => Dyn(func)
  }

  /** The conditions a user asked for, in the order of the calls. */
  function Conditions(steps: seq<Step>): seq<Classifier> {
    if steps == [] then []
    else
      var last := steps[|steps| - 1];
      Conditions(steps[..|steps| - 1]) + (if last == RetryOnStatuses([]) then [] else [Condition(last)])
  }

  // ----- properties

  predicate IsLeaf(c: Classifier) {
    !c.Any? && !c.Never?
  }

  /** No nested `Any`, and nothing in it that can never fire. */
  predicate Flat(c: Classifier) {
    match c
    case Any(all) => |all| >= 2 && forall i :: 0 <= i < |all| ==> IsLeaf(all[i])
    case _ => true
  }

  function Leaves(c: Classifier): seq<Classifier> {
    match c
    case Never => []
    case Any(all) => all
    case _ => [c]
  }

  /** `or` is concatenation of the conditions, with `Never` as its unit, and never nests. */
  lemma OrConcatenates(a: Classifier, b: Classifier)
    requires Flat(a) && Flat(b)
    ensures Flat(Or(a, b)) && Leaves(Or(a, b)) == Leaves(a) + Leaves(b)
    ensures Or(Never, a) == a == Or(a, Never)
  {
  }

  /** Index of the first condition that holds, or the length. */
  function FirstMatch(all: seq<Classifier>, r: ReqRep): (k: nat)
    ensures k <= |all|
    ensures forall i :: 0 <= i < k ==> !Classify(all[i], r)
    ensures k < |all| ==> Classify(all[k], r)
  {
    if all == [] || Classify(all[0], r) then 0 else 1 + FirstMatch(all[1..], r)
  }

  lemma {:induction false} AnyStopsAtFirstMatch(all: seq<Classifier>, r: ReqRep)
    requires forall i :: 0 <= i < |all| ==> IsLeaf(all[i])
    ensures ClassifyAny(all, r) <==> FirstMatch(all, r) < |all|
    ensures ConsultedAny(all, r) == all[..Min(FirstMatch(all, r) + 1, |all|)]
  {
    if all != [] && !Classify(all[0], r) {
      AnyStopsAtFirstMatch(all[1..], r);
      var k := Min(FirstMatch(all[1..], r) + 1, |all| - 1);
      assert [all[0]] + all[1..][..k] == all[..k + 1];
    }
  }

  lemma {:induction false} BuildKeepsConditions(start: Classifier, steps: seq<Step>)
    requires start == Never || start == Standard
    ensures Flat(Build(start, steps))
    ensures Leaves(Build(start, steps)) == Leaves(start) + Conditions(steps)
  {
    if steps != [] {
      var n := |steps| - 1;
      BuildKeepsConditions(start, steps[..n]);
      OrConcatenates(Build(start, steps[..n]), Condition(steps[n]));
    }
  }

  /** What one builder call asks for. */
  predicate Asks(step: Step, r: ReqRep) {
    match step
    case RetryOnStatuses(statuses) => r.status.Some? && r.status.value in statuses
    case ClassifyWith(func) => func(r)
  }

  /** Too many requests or service unavailable, in answer to a request that may be sent twice. */
  predicate StandardAsks(r: ReqRep) {
    && (r.status == Some(429) || r.status == Some(503))
    && (|| r.verb == "GET" || r.verb == "HEAD" || r.verb == "OPTIONS" || r.verb == "TRACE"
        || r.verb == "PUT" || r.verb == "DELETE" || "idempotency-key" in r.headers)
  }

  lemma {:induction false} AnyOfBoth(all: seq<Classifier>, more: seq<Classifier>, r: ReqRep)
    ensures ClassifyAny(all + more, r) <==> ClassifyAny(all, r) || ClassifyAny(more, r)
  {
    if all == [] {
      assert all + more == more;
    } else {
      assert (all + more)[1..] == all[1..] + more;
      AnyOfBoth(all[1..], more, r);
    }
  }

  lemma AnyOfOne(c: Classifier, r: ReqRep)
    ensures ClassifyAny([c], r) <==> Classify(c, r)
  {
    assert [c][1..] == [];
  }

  lemma OrMeans(a: Classifier, b: Classifier, r: ReqRep)
    ensures Classify(Or(a, b), r) <==> Classify(a, r) || Classify(b, r)
  {
    AnyOfOne(a, r);
    AnyOfOne(b, r);
    AnyOfBoth(if a.Any? then a.all else [a], if b.Any? then b.all else [b], r);
    assert [a] + [b] == [a, b];
  }

  /** A policy retries exactly what the builder calls ask for, and for the standard one besides that what
      the standard asks for: nothing if neither does. */
  lemma {:induction false} BuilderMeans(start: Classifier, steps: seq<Step>, r: ReqRep)
    requires start == Never || start == Standard
    ensures Classify(Build(start, steps), r)
            <==> (start == Standard && StandardAsks(r)) || exists i :: 0 <= i < |steps| && Asks(steps[i], r)
  {
    if steps != [] {
      var n := |steps| - 1;
      BuilderMeans(start, steps[..n], r);
      OrMeans(Build(start, steps[..n]), Condition(steps[n]), r);
      assert forall i :: 0 <= i < n ==> steps[i] == steps[..n][i];
    }
  }

  /** Any chain of builder calls retries exactly when one of the conditions added to it holds; they
      are tried in the order they were added, and none after the first that holds. */
  lemma BuilderDecides(start: Classifier, steps: seq<Step>, r: ReqRep)
    requires start == Never || start == Standard
    ensures var conditions := Leaves(start) + Conditions(steps);
            var k := FirstMatch(conditions, r);
            && (Classify(Build(start, steps), r) <==> k < |conditions|)
            && Consulted(Build(start, steps), r) == conditions[..Min(k + 1, |conditions|)]
  {
    hide Build, Conditions;
    BuildKeepsConditions(start, steps);
    var c := Build(start, steps);
    var conditions := Leaves(c);
    if c.Any? {
      AnyStopsAtFirstMatch(conditions, r);
    } else if c.Never? {
      assert conditions == [];
    } else {
      assert conditions == [c];
    }
  }
}
