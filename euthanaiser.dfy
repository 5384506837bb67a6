/**
  The reaper of `internal/euthanaiser/euthanaiser.go`: one pass over every Deployment of
  the cluster, deleting those whose kill-after annotation has passed. A Deployment owned
  by a nais Application is not deleted itself: its Application (in the same namespace)
  is deleted instead. Three counters record applications killed, deployments killed and
  errors; they are pushed to a metrics gateway once the pass is over.

  The cluster, the clock and the RFC 3339 parser are inputs: `parse` is what Go's
  `time.Parse(time.RFC3339, _)` returns, `clock(i)` is what `time.Now()` returns while
  the i-th listed Deployment is processed, and `responses(i)` is the API server's
  answer to the delete issued for the i-th listed Deployment, if one is issued.
 */
module Euthanaiser {
  import opened Wrappers
  import opened Kube

  /** The annotation whose RFC 3339 timestamp marks a Deployment for deletion. */
  const KillAfterAnnotation := "euthanaisa.nais.io/kill-after"

  /** The owner kind whose owner reference redirects the delete. */
  const ApplicationKind := "Application"

  /** The object a delete request is sent for. */
  datatype Target =
    | AppTarget(namespace: string, name: string)     // a nais Application, through the application client
    | DeployTarget(namespace: string, name: string)  // the Deployment itself, through the apps/v1 client

  /** The non-nil errors `process` can return. */
  datatype ProcessError = MalformedKillAfter | DeleteApplicationFailed | DeleteDeploymentFailed

  /** What the guards at the top of `process` decide about a Deployment. */
  datatype Eligibility = NotEligible | Malformed | Eligible

  /** The kill-after annotation as Go reads it: the empty string when absent. */
  function KillAfter(d: Deployment): string
  {
    Lookup(d.annotations, KillAfterAnnotation)
  }

  /**
    The guard chain of `process`: a Deployment already being deleted is skipped, so is
    one without a (non-empty) kill-after annotation; an unparsable annotation is an
    error; otherwise the Deployment is eligible unless its deadline lies strictly after
    `now` (Go's `After` is strict, so a deadline equal to `now` is eligible).
   */
  function Evaluate(d: Deployment, now: Time, parse: string -> Option<Time>): (r: Eligibility)
    ensures d.deletionTimestamp.Some? ==> r == NotEligible
    ensures KillAfter(d) == "" ==> r == NotEligible
    ensures r == Malformed <==>
      d.deletionTimestamp.None? && KillAfter(d) != "" && parse(KillAfter(d)).None?
    ensures r == Eligible <==>
      d.deletionTimestamp.None? && KillAfter(d) != "" &&
      parse(KillAfter(d)).Some? && parse(KillAfter(d)).value <= now
  {
    if d.deletionTimestamp.Some? then NotEligible
    else if KillAfter(d) == "" then NotEligible
    else match parse(KillAfter(d))
      case None => Malformed
      case Some(killAfter) => if killAfter > now then NotEligible else Eligible
  }

  /** The loop of `appOwnerRef`, for any owner kind: the first owner reference of that kind. */
  function FirstOwnerOfKind(refs: seq<OwnerReference>, kind: string): (r: Option<OwnerReference>)
    ensures r.None? <==> forall i :: 0 <= i < |refs| ==> refs[i].kind != kind
    ensures r.Some? ==>
      r.value.kind == kind &&
      exists i :: 0 <= i < |refs| && refs[i] == r.value &&
        forall j :: 0 <= j < i ==> refs[j].kind != kind
  {
    if refs == [] then None
    else if refs[0].kind == kind then Some(refs[0])
    else
      var r := FirstOwnerOfKind(refs[1..], kind);
      assert forall i :: 1 <= i < |refs| ==> refs[i] == refs[1..][i - 1];
      r
  }

  /** `appOwnerRef`: the first owner reference of kind "Application", if any. */
  function AppOwnerRef(d: Deployment): Option<OwnerReference>
  {
    FirstOwnerOfKind(d.ownerReferences, ApplicationKind)
  }

  /**
    Which object an eligible Deployment's delete goes to: its first Application owner,
    in its own namespace, when it has one, and otherwise the Deployment itself.
   */
  function ResolveTarget(d: Deployment): (t: Target)
    ensures t.namespace == d.namespace
    ensures t.DeployTarget? ==> t.name == d.name
  {
    match AppOwnerRef(d)
    case Some(owner) => AppTarget(d.namespace, owner.name)
    case None => DeployTarget(d.namespace, d.name)
  }

  /** The observable effect of processing one Deployment. */
  datatype Effect = Effect(
    delete: Option<Target>,     // the delete request issued, if any
    err: Option<ProcessError>,  // the error returned, if any
    appKilled: bool,            // appsKilled was incremented
    deployKilled: bool)         // deploysKilled was incremented

  /** The facts every effect of `process` satisfies: a kill is a successful delete of its kind. */
  predicate Consistent(e: Effect)
  {
    (e.appKilled ==> e.err.None? && e.delete.Some? && e.delete.value.AppTarget?) &&
    (e.deployKilled ==> e.err.None? && e.delete.Some? && e.delete.value.DeployTarget?) &&
    !(e.appKilled && e.deployKilled)
  }

  /**
    The specification of `process`: eligibility decides whether a delete is issued,
    owner resolution decides what it is issued for, and the response decides the rest.
    On the Application path a NotFound answer is success without a kill; on the
    Deployment path every answer but Deleted is an error.
   */
  function Step(d: Deployment, now: Time, parse: string -> Option<Time>, response: DeleteResponse): (e: Effect)
    ensures Consistent(e)
    ensures e.delete.Some? <==> Evaluate(d, now, parse) == Eligible
    ensures e.delete.Some? ==> e.delete.value == ResolveTarget(d)
    ensures Evaluate(d, now, parse) == NotEligible ==> e == Effect(None, None, false, false)
    ensures Evaluate(d, now, parse) == Malformed ==> e == Effect(None, Some(MalformedKillAfter), false, false)
    ensures e.appKilled <==> e.delete.Some? && e.delete.value.AppTarget? && response == Deleted
    ensures e.deployKilled <==> e.delete.Some? && e.delete.value.DeployTarget? && response == Deleted
    ensures e.delete.Some? ==>
      (e.err.None? <==> response == Deleted || (response == NotFound && e.delete.value.AppTarget?))
  {
    match Evaluate(d, now, parse)
    case NotEligible => Effect(None, None, false, false)
    case Malformed => Effect(None, Some(MalformedKillAfter), false, false)
    case Eligible =>
      var t := ResolveTarget(d);
      match t
      case AppTarget(_, _) =>
        (match response
         case Deleted => Effect(Some(t), None, true, false)
         case NotFound => Effect(Some(t), None, false, false)
         case DeleteFailed => Effect(Some(t), Some(DeleteApplicationFailed), false, false))
      case DeployTarget(_, _) =>
        if response == Deleted then Effect(Some(t), None, false, true)
        else Effect(Some(t), Some(DeleteDeploymentFailed), false, false)
  }

  /** The three metric values of the reaper. */
  datatype Counters = Counters(appsKilled: nat, deploysKilled: nat, errors: nat)

  function Plus(a: Counters, b: Counters): Counters
  {
    Counters(a.appsKilled + b.appsKilled, a.deploysKilled + b.deploysKilled, a.errors + b.errors)
  }

  function Ind(b: bool): nat { if b then 1 else 0 }

  /** What one processed Deployment adds to the counters in `Run`: its kill, or one error. */
  function Increment(e: Effect): Counters
  {
    Counters(Ind(e.appKilled), Ind(e.deployKilled), Ind(e.err.Some?))
  }

  /** The effect of every listed Deployment, each processed with its own clock reading and response. */
  function Effects(items: seq<Deployment>, clock: nat -> Time, parse: string -> Option<Time>,
                   responses: nat -> DeleteResponse): (es: seq<Effect>)
    ensures |es| == |items|
  {
    if items == [] then []
    else
      var n := |items| - 1;
      Effects(items[..n], clock, parse, responses) + [Step(items[n], clock(n), parse, responses(n))]
  }

  /** The i-th effect is that of processing the i-th listed Deployment on its own. */
  lemma {:induction false} EffectsAt(items: seq<Deployment>, clock: nat -> Time, parse: string -> Option<Time>,
                  responses: nat -> DeleteResponse, i: nat)
    requires i < |items|
    ensures Effects(items, clock, parse, responses)[i] == Step(items[i], clock(i), parse, responses(i))
  {
    if i < |items| - 1 {
      EffectsAt(items[..|items| - 1], clock, parse, responses, i);
      assert items[..|items| - 1][i] == items[i];
    }
  }

  function DeleteOf(e: Effect): seq<Target>
  {
    if e.delete.Some? then [e.delete.value] else []
  }

  /** The counter increments of the first `n` effects, in order. */
  function Tally(es: seq<Effect>, n: nat): Counters
    requires n <= |es|
  {
    if n == 0 then Counters(0, 0, 0) else Plus(Tally(es, n - 1), Increment(es[n - 1]))
  }

  /** The delete requests of the first `n` effects, in order. */
  function Issued(es: seq<Effect>, n: nat): seq<Target>
    requires n <= |es|
  {
    if n == 0 then [] else Issued(es, n - 1) + DeleteOf(es[n - 1])
  }

  /** Each effect adds at most one error and at most one delete request. */
  lemma {:induction false} TallyBounds(es: seq<Effect>, n: nat)
    requires n <= |es|
    ensures Tally(es, n).errors <= n
    ensures |Issued(es, n)| <= n
  {
    if n > 0 {
      TallyBounds(es, n - 1);
    }
  }

  /** The outcome of `Run`: the final counters and the delete requests issued. */
  datatype RunResult = RunResult(counters: Counters, issued: seq<Target>)

  /**
    The specification of `Run` from counters `c`: a failed list adds one error and
    issues nothing; otherwise every listed Deployment is processed in order, its
    kill counted and its error counted, whatever happened to the Deployments before it.
   */
  function RunSpec(c: Counters, list: ListResponse, clock: nat -> Time, parse: string -> Option<Time>,
                   responses: nat -> DeleteResponse): (r: RunResult)
    ensures list.ListFailed? ==>
      r == RunResult(Counters(c.appsKilled, c.deploysKilled, c.errors + 1), [])
    ensures list.Listed? ==>
      r.counters.appsKilled >= c.appsKilled && r.counters.deploysKilled >= c.deploysKilled &&
      c.errors <= r.counters.errors <= c.errors + |list.items| &&
      |r.issued| <= |list.items|
  {
    match list
    case ListFailed => RunResult(Counters(c.appsKilled, c.deploysKilled, c.errors + 1), [])
    case Listed(items) =>
      var es := Effects(items, clock, parse, responses);
      TallyBounds(es, |items|);
      RunResult(Plus(c, Tally(es, |items|)), Issued(es, |items|))
  }

  /** Counters are equal when their three values are. */
  lemma SameCounters(a: Counters, b: Counters)
    requires a.appsKilled == b.appsKilled && a.deploysKilled == b.deploysKilled && a.errors == b.errors
    ensures a == b
  {
  }

  /** Concatenation is associative. */
  lemma AppendAssoc<T>(a: seq<T>, b: seq<T>, c: seq<T>)
    ensures (a + b) + c == a + (b + c)
  {
  }

  /** The `euthanaiser` struct: its three metrics are fields updated in place. */
  class Reaper {
    var appsKilled: nat
    var deploysKilled: nat
    var errors: nat
    /** Every delete request sent to the API server, in order. */
    ghost var deleteLog: seq<Target>
    /** The counter values of every push to the metrics gateway, in order. */
    ghost var pushed: seq<Counters>

    function Counts(): Counters
      reads this
    {
      Counters(appsKilled, deploysKilled, errors)
    }

    /** The gauges start at zero when `New` registers them. */
    constructor ()
      ensures Counts() == Counters(0, 0, 0)
      ensures deleteLog == [] && pushed == []
    {
      appsKilled, deploysKilled, errors := 0, 0, 0;
      deleteLog, pushed := [], [];
    }

    /** `process`: decide, possibly delete, count the kill. `Run` counts the error. */
    method Process(d: Deployment, now: Time, parse: string -> Option<Time>, response: DeleteResponse)
      returns (err: Option<ProcessError>)
      modifies this
      ensures var e := Step(d, now, parse, response);
        err == e.err &&
        appsKilled == old(appsKilled) + Ind(e.appKilled) &&
        deploysKilled == old(deploysKilled) + Ind(e.deployKilled) &&
        errors == old(errors) &&
        deleteLog == old(deleteLog) + DeleteOf(e) &&
        pushed == old(pushed)
    {
      if d.deletionTimestamp.Some? {
        return None;  // already being deleted
      }
      var value := Lookup(d.annotations, KillAfterAnnotation);
      if value == "" {
        return None;
      }
      var killAfter := parse(value);
      if killAfter.None? {
        return Some(MalformedKillAfter);
      }
      if killAfter.value > now {
        return None;
      }
      var owner := FirstOwnerOfKind(d.ownerReferences, ApplicationKind);
      if owner.Some? {
        deleteLog := deleteLog + [AppTarget(d.namespace, owner.value.name)];
        if response != Deleted {
          if response == NotFound {
            return None;  // already deleted
          }
          return Some(DeleteApplicationFailed);
        }
        appsKilled := appsKilled + 1;
        return None;
      }
      deleteLog := deleteLog + [DeployTarget(d.namespace, d.name)];
      if response != Deleted {
        return Some(DeleteDeploymentFailed);
      }
      deploysKilled := deploysKilled + 1;
      return None;
    }

    /** One turn of the loop in `Run`: process the i-th listed Deployment and count its error, if any. */
    method ProcessAt(items: seq<Deployment>, clock: nat -> Time, parse: string -> Option<Time>,
                     responses: nat -> DeleteResponse, i: nat)
      requires i < |items|
      modifies this
      ensures var e := Effects(items, clock, parse, responses)[i];
        appsKilled == old(appsKilled) + Increment(e).appsKilled &&
        deploysKilled == old(deploysKilled) + Increment(e).deploysKilled &&
        errors == old(errors) + Increment(e).errors &&
        deleteLog == old(deleteLog) + DeleteOf(e) &&
        pushed == old(pushed)
    {
      EffectsAt(items, clock, parse, responses, i);
      var err := Process(items[i], clock(i), parse, responses(i));
      if err.Some? {
        errors := errors + 1;
      }
    }

    /** The deferred `pushMetrics`: the current values go out; a failed push is only logged. */
    method PushMetrics()
      modifies this
      ensures Counts() == old(Counts()) && deleteLog == old(deleteLog)
      ensures pushed == old(pushed) + [Counts()]
    {
      pushed := pushed + [Counts()];
    }

    /**
      `Run`: list once; a failed list counts one error and processes nothing; otherwise
      every listed Deployment is processed. The deferred metrics push happens on both paths.
     */
    method Run(list: ListResponse, clock: nat -> Time, parse: string -> Option<Time>,
               responses: nat -> DeleteResponse)
      modifies this
      ensures var r := RunSpec(old(Counts()), list, clock, parse, responses);
        Counts() == r.counters &&
        deleteLog == old(deleteLog) + r.issued &&
        pushed == old(pushed) + [r.counters]
    {
      if list.ListFailed? {
        errors := errors + 1;
      } else {
        ProcessItems(list.items, clock, parse, responses);
      }
      SameCounters(Counts(), RunSpec(old(Counts()), list, clock, parse, responses).counters);
      PushMetrics();
    }

    /**
      The loop of `Run` over the listed items: each is processed in turn and a failed one
      counts one error; no error stops the loop.
     */
    method ProcessItems(items: seq<Deployment>, clock: nat -> Time, parse: string -> Option<Time>,
                        responses: nat -> DeleteResponse)
      modifies this
      ensures appsKilled == old(appsKilled) + Tally(Effects(items, clock, parse, responses), |items|).appsKilled
      ensures deploysKilled == old(deploysKilled) + Tally(Effects(items, clock, parse, responses), |items|).deploysKilled
      ensures errors == old(errors) + Tally(Effects(items, clock, parse, responses), |items|).errors
      ensures deleteLog == old(deleteLog) + Issued(Effects(items, clock, parse, responses), |items|)
      ensures pushed == old(pushed)
    {
      ghost var es := Effects(items, clock, parse, responses);
      var i := 0;
      while i < |items|
        invariant 0 <= i <= |items|
        invariant appsKilled == old(appsKilled) + Tally(es, i).appsKilled
        invariant deploysKilled == old(deploysKilled) + Tally(es, i).deploysKilled
        invariant errors == old(errors) + Tally(es, i).errors
        invariant deleteLog == old(deleteLog) + Issued(es, i)
        invariant pushed == old(pushed)
      {
        ProcessAt(items, clock, parse, responses, i);
        AppendAssoc(old(deleteLog), Issued(es, i), DeleteOf(es[i]));
        i := i + 1;
      }
    }
  }
}
