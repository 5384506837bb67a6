/**
  What one pass of the reaper guarantees, stated over `Euthanaiser.RunSpec` (which
  `Euthanaiser.Reaper.Run` is proved to follow) and over the per-Deployment `Step`.
 */
module ReaperProperties {
  import opened Wrappers
  import opened Kube
  import opened Euthanaiser

  // ---------------------------------------------------------------------------
  // One Deployment
  // ---------------------------------------------------------------------------

  /** An absent kill-after annotation and an empty one are the same: nothing happens. */
  lemma AbsentAndEmptyAnnotationAgree(d: Deployment, now: Time, parse: string -> Option<Time>,
                                      response: DeleteResponse)
    ensures var absent := d.(annotations := d.annotations - {KillAfterAnnotation});
            var empty := d.(annotations := d.annotations[KillAfterAnnotation := ""]);
            Step(absent, now, parse, response) == Step(empty, now, parse, response) ==
            Effect(None, None, false, false)
  {
  }

  /**
    The delete goes to the first owner reference of kind "Application", in the
    Deployment's namespace, exactly when there is one; never to the Deployment then.
   */
  lemma RedirectsToFirstApplicationOwner(d: Deployment)
    ensures ResolveTarget(d).AppTarget? <==>
      exists i :: 0 <= i < |d.ownerReferences| && d.ownerReferences[i].kind == ApplicationKind
    ensures ResolveTarget(d).AppTarget? ==>
      exists i :: 0 <= i < |d.ownerReferences| &&
        d.ownerReferences[i] == OwnerReference(ApplicationKind, ResolveTarget(d).name) &&
        forall j :: 0 <= j < i ==> d.ownerReferences[j].kind != ApplicationKind
    ensures ResolveTarget(d) != DeployTarget(d.namespace, d.name) ==> ResolveTarget(d).AppTarget?
  {
  }

  // ---------------------------------------------------------------------------
  // Counting over a sequence of effects
  // ---------------------------------------------------------------------------

  /** The positions among the first `n` effects of those that satisfy `p`. */
  ghost function Indices(es: seq<Effect>, p: Effect -> bool, n: nat): set<nat>
    requires n <= |es|
  {
    set i: nat | i < n && p(es[i])
  }

  /** One more effect adds its own position when it satisfies `p`. */
  lemma IndicesStep(es: seq<Effect>, p: Effect -> bool, n: nat)
    requires 0 < n <= |es|
    ensures |Indices(es, p, n)| == |Indices(es, p, n - 1)| + Ind(p(es[n - 1]))
  {
    var s := Indices(es, p, n - 1);
    if p(es[n - 1]) {
      assert Indices(es, p, n) == s + {n - 1};
      assert n - 1 !in s;
    } else {
      assert Indices(es, p, n) == s;
    }
  }

  predicate KilledApp(e: Effect) { e.appKilled }
  predicate KilledDeploy(e: Effect) { e.deployKilled }
  predicate Failed(e: Effect) { e.err.Some? }
  predicate SentDelete(e: Effect) { e.delete.Some? }

  /**
    Each counter of a tally is the number of effects that incremented it, and there
    are as many delete requests as effects that sent one.
   */
  lemma {:induction false} TallyCounts(es: seq<Effect>, n: nat)
    requires n <= |es|
    ensures Tally(es, n).appsKilled == |Indices(es, KilledApp, n)|
    ensures Tally(es, n).deploysKilled == |Indices(es, KilledDeploy, n)|
    ensures Tally(es, n).errors == |Indices(es, Failed, n)|
    ensures |Issued(es, n)| == |Indices(es, SentDelete, n)|
  {
    if n == 0 {
      assert Indices(es, KilledApp, 0) == {};
      assert Indices(es, KilledDeploy, 0) == {};
      assert Indices(es, Failed, 0) == {};
      assert Indices(es, SentDelete, 0) == {};
    } else {
      TallyCounts(es, n - 1);
      IndicesStep(es, KilledApp, n);
      IndicesStep(es, KilledDeploy, n);
      IndicesStep(es, Failed, n);
      IndicesStep(es, SentDelete, n);
    }
  }

  /** The deletes of the first `i` effects are a prefix of those of the first `n`: order is kept. */
  lemma {:induction false} IssuedPrefix(es: seq<Effect>, i: nat, n: nat)
    requires i <= n <= |es|
    ensures Issued(es, i) <= Issued(es, n)
  {
    if i < n {
      IssuedPrefix(es, i, n - 1);
    }
  }

  /** Every delete request comes from an effect that issued it. */
  lemma {:induction false} IssuedComesFromEffect(es: seq<Effect>, n: nat, k: nat)
    requires n <= |es| && k < |Issued(es, n)|
    ensures exists i :: 0 <= i < n && es[i].delete == Some(Issued(es, n)[k])
  {
    if k < |Issued(es, n - 1)| {
      IssuedComesFromEffect(es, n - 1, k);
      var i :| 0 <= i < n - 1 && es[i].delete == Some(Issued(es, n - 1)[k]);
      assert Issued(es, n)[k] == Issued(es, n - 1)[k];
    } else {
      assert es[n - 1].delete == Some(Issued(es, n)[k]);
    }
  }

  /** The delete of effect `i` comes right after the deletes of the effects before it. */
  lemma DeleteIsAtItsPosition(es: seq<Effect>, i: nat)
    requires i < |es| && es[i].delete.Some?
    ensures |Issued(es, i)| < |Issued(es, |es|)|
    ensures Issued(es, |es|)[|Issued(es, i)|] == es[i].delete.value
  {
    IssuedPrefix(es, i + 1, |es|);
    assert Issued(es, i + 1)[|Issued(es, i)|] == es[i].delete.value;
  }

  // ---------------------------------------------------------------------------
  // A whole pass
  // ---------------------------------------------------------------------------

  ghost predicate IsEligible(items: seq<Deployment>, clock: nat -> Time, parse: string -> Option<Time>, i: int)
  {
    0 <= i < |items| && Evaluate(items[i], clock(i), parse) == Eligible
  }

  /** Each effect of a pass is that of its own listed Deployment. */
  lemma AllEffectsAt(items: seq<Deployment>, clock: nat -> Time, parse: string -> Option<Time>,
                     responses: nat -> DeleteResponse)
    ensures forall i: nat | i < |items| ::
      Effects(items, clock, parse, responses)[i] == Step(items[i], clock(i), parse, responses(i))
  {
    forall i: nat | i < |items|
      ensures Effects(items, clock, parse, responses)[i] == Step(items[i], clock(i), parse, responses(i))
    {
      EffectsAt(items, clock, parse, responses, i);
    }
  }

  /** The listed Deployments that kill an Application: eligible, owned, and answered Deleted. */
  lemma AppKillsAre(items: seq<Deployment>, clock: nat -> Time, parse: string -> Option<Time>,
                    responses: nat -> DeleteResponse)
    ensures Indices(Effects(items, clock, parse, responses), KilledApp, |items|) ==
      set i: nat | i < |items| && IsEligible(items, clock, parse, i) &&
                   ResolveTarget(items[i]).AppTarget? && responses(i) == Deleted
  {
    AllEffectsAt(items, clock, parse, responses);
  }

  /** The listed Deployments that kill themselves: eligible, unowned, and answered Deleted. */
  lemma DeployKillsAre(items: seq<Deployment>, clock: nat -> Time, parse: string -> Option<Time>,
                       responses: nat -> DeleteResponse)
    ensures Indices(Effects(items, clock, parse, responses), KilledDeploy, |items|) ==
      set i: nat | i < |items| && IsEligible(items, clock, parse, i) &&
                   ResolveTarget(items[i]).DeployTarget? && responses(i) == Deleted
  {
    AllEffectsAt(items, clock, parse, responses);
  }

  /** The listed Deployments that count an error: those whose processing fails. */
  lemma FailuresAre(items: seq<Deployment>, clock: nat -> Time, parse: string -> Option<Time>,
                    responses: nat -> DeleteResponse)
    ensures Indices(Effects(items, clock, parse, responses), Failed, |items|) ==
      set i: nat | i < |items| && Step(items[i], clock(i), parse, responses(i)).err.Some?
  {
    AllEffectsAt(items, clock, parse, responses);
  }

  /** Among the first `n` listed Deployments, those that send a delete are the eligible ones. */
  lemma DeletesAre(items: seq<Deployment>, clock: nat -> Time, parse: string -> Option<Time>,
                   responses: nat -> DeleteResponse, n: nat)
    requires n <= |items|
    ensures Indices(Effects(items, clock, parse, responses), SentDelete, n) ==
      set j: nat | j < n && IsEligible(items, clock, parse, j)
  {
    AllEffectsAt(items, clock, parse, responses);
  }

  /**
    After a successful list, each counter has grown by the number of listed
    Deployments that incremented it: applications killed by an eligible Deployment
    owned by an Application whose delete answered Deleted, deployments killed by an
    unowned eligible Deployment whose delete answered Deleted, errors by every
    Deployment whose processing failed; one failure does not hide a later one.
   */
  lemma RunCounts(c: Counters, items: seq<Deployment>, clock: nat -> Time, parse: string -> Option<Time>,
                  responses: nat -> DeleteResponse)
    ensures var r := RunSpec(c, Listed(items), clock, parse, responses).counters;
      r.appsKilled == c.appsKilled + |set i: nat | i < |items| && IsEligible(items, clock, parse, i) &&
                                    ResolveTarget(items[i]).AppTarget? && responses(i) == Deleted| &&
      r.deploysKilled == c.deploysKilled + |set i: nat | i < |items| && IsEligible(items, clock, parse, i) &&
                                    ResolveTarget(items[i]).DeployTarget? && responses(i) == Deleted| &&
      r.errors == c.errors + |set i: nat | i < |items| &&
                                    Step(items[i], clock(i), parse, responses(i)).err.Some?|
  {
    TallyCounts(Effects(items, clock, parse, responses), |items|);
    AppKillsAre(items, clock, parse, responses);
    DeployKillsAre(items, clock, parse, responses);
    FailuresAre(items, clock, parse, responses);
  }

  /**
    Every eligible listed Deployment has its delete sent, in list order: it is the
    delete that follows those of the eligible Deployments listed before it, whatever
    the outcome of their processing.
   */
  lemma EligibleItemIsDeletedInOrder(c: Counters, items: seq<Deployment>, clock: nat -> Time,
                                     parse: string -> Option<Time>, responses: nat -> DeleteResponse, i: nat)
    requires IsEligible(items, clock, parse, i)
    ensures var issued := RunSpec(c, Listed(items), clock, parse, responses).issued;
      var before := |set j: nat | j < i && IsEligible(items, clock, parse, j)|;
      before < |issued| && issued[before] == ResolveTarget(items[i])
  {
    var es := Effects(items, clock, parse, responses);
    EffectsAt(items, clock, parse, responses, i);
    DeleteIsAtItsPosition(es, i);
    TallyCounts(es, i);
    DeletesAre(items, clock, parse, responses, i);
  }

  /**
    Nothing is deleted but on behalf of an eligible listed Deployment: each delete
    request is the resolved target of one that is not being deleted and whose
    kill-after time has passed.
   */
  lemma OnlyEligibleItemsAreDeleted(c: Counters, list: ListResponse, clock: nat -> Time,
                                    parse: string -> Option<Time>, responses: nat -> DeleteResponse, k: nat)
    requires k < |RunSpec(c, list, clock, parse, responses).issued|
    ensures list.Listed?
    ensures exists i ::
      IsEligible(list.items, clock, parse, i) &&
      RunSpec(c, list, clock, parse, responses).issued[k] == ResolveTarget(list.items[i])
  {
    var es := Effects(list.items, clock, parse, responses);
    IssuedComesFromEffect(es, |es|, k);
    var i :| 0 <= i < |es| && es[i].delete == Some(Issued(es, |es|)[k]);
    EffectsAt(list.items, clock, parse, responses, i);
    assert IsEligible(list.items, clock, parse, i);
  }

  // ---------------------------------------------------------------------------
  // Scenarios
  // ---------------------------------------------------------------------------

  /** A pass over a single listed Deployment is one step. */
  lemma RunSingle(c: Counters, d: Deployment, clock: nat -> Time, parse: string -> Option<Time>,
                  responses: nat -> DeleteResponse)
    ensures var e := Step(d, clock(0), parse, responses(0));
      var r := RunSpec(c, Listed([d]), clock, parse, responses);
      r.counters == Plus(c, Increment(e)) && r.issued == DeleteOf(e)
  {
    var es := Effects([d], clock, parse, responses);
    EffectsAt([d], clock, parse, responses, 0);
    assert Tally(es, 1) == Increment(es[0]);
    assert Issued(es, 1) == DeleteOf(es[0]);
  }

  /** A Deployment already being deleted is left alone, whatever its annotation says. */
  lemma BeingDeletedIsSkipped(c: Counters, d: Deployment, clock: nat -> Time,
                              parse: string -> Option<Time>, responses: nat -> DeleteResponse)
    requires d.deletionTimestamp.Some?
    ensures RunSpec(c, Listed([d]), clock, parse, responses) == RunResult(c, [])
  {
    RunSingle(c, d, clock, parse, responses);
  }

  /**
    An expired Deployment "d1" in "ns" owned by Application "app1": the single delete
    of the pass is for the Application, not for the Deployment.
   */
  lemma ExpiredOwnedDeploymentDeletesItsApplication(c: Counters, killAfter: string, clock: nat -> Time,
                                                    parse: string -> Option<Time>,
                                                    responses: nat -> DeleteResponse)
    requires killAfter != ""
    requires parse(killAfter).Some? && parse(killAfter).value < clock(0)
    requires responses(0) == Deleted
    ensures var d := Deployment("ns", "d1", map[KillAfterAnnotation := killAfter],
                                [OwnerReference("Application", "app1")], None);
      RunSpec(c, Listed([d]), clock, parse, responses) ==
      RunResult(Counters(c.appsKilled + 1, c.deploysKilled, c.errors), [AppTarget("ns", "app1")])
  {
    var d := Deployment("ns", "d1", map[KillAfterAnnotation := killAfter],
                        [OwnerReference("Application", "app1")], None);
    RunSingle(c, d, clock, parse, responses);
    assert FirstOwnerOfKind(d.ownerReferences, ApplicationKind) == Some(OwnerReference("Application", "app1"));
  }

  /** The same Deployment with a deadline still ahead: no delete, no counter changes. */
  lemma FutureDeploymentIsKept(c: Counters, d: Deployment, clock: nat -> Time,
                               parse: string -> Option<Time>, responses: nat -> DeleteResponse)
    requires parse(KillAfter(d)).Some? && parse(KillAfter(d)).value > clock(0)
    ensures RunSpec(c, Listed([d]), clock, parse, responses) == RunResult(c, [])
  {
    RunSingle(c, d, clock, parse, responses);
  }

  /** Effects that neither kill nor fail leave the counters where they were. */
  lemma {:induction false} QuietTally(es: seq<Effect>, n: nat)
    requires n <= |es|
    requires forall i :: 0 <= i < n ==> !es[i].appKilled && !es[i].deployKilled && es[i].err.None?
    ensures Tally(es, n).appsKilled == 0 && Tally(es, n).deploysKilled == 0 && Tally(es, n).errors == 0
  {
    if n > 0 {
      QuietTally(es, n - 1);
    }
  }

  /** On the Application path a NotFound answer is a delete sent, with no kill and no error. */
  lemma OwnerNotFoundIsQuiet(d: Deployment, now: Time, parse: string -> Option<Time>)
    requires Evaluate(d, now, parse) == Eligible && AppOwnerRef(d).Some?
    ensures Step(d, now, parse, NotFound) == Effect(Some(ResolveTarget(d)), None, false, false)
  {
  }

  /**
    The same Application-owned Deployment listed twice, with the Application already
    gone: both deletes answer NotFound and neither is an error.
   */
  lemma OwnerDeleteIsIdempotent(c: Counters, d: Deployment, clock: nat -> Time,
                                parse: string -> Option<Time>, responses: nat -> DeleteResponse)
    requires Evaluate(d, clock(0), parse) == Eligible && Evaluate(d, clock(1), parse) == Eligible
    requires AppOwnerRef(d).Some?
    requires responses(0) == NotFound && responses(1) == NotFound
    ensures RunSpec(c, Listed([d, d]), clock, parse, responses) ==
            RunResult(c, [ResolveTarget(d), ResolveTarget(d)])
  {
    var e := Effect(Some(ResolveTarget(d)), None, false, false);
    var es := Effects([d, d], clock, parse, responses);
    EffectsAt([d, d], clock, parse, responses, 0);
    EffectsAt([d, d], clock, parse, responses, 1);
    OwnerNotFoundIsQuiet(d, clock(0), parse);
    OwnerNotFoundIsQuiet(d, clock(1), parse);
    assert es[0] == e && es[1] == e;
    QuietTally(es, 2);
    SameCounters(Plus(c, Tally(es, 2)), c);
    assert Issued(es, 1) == [ResolveTarget(d)];
    assert Issued(es, 2) == [ResolveTarget(d), ResolveTarget(d)];
  }

  /**
    Unlike the Application path, a Deployment deleting itself that finds itself gone
    already counts an error.
   */
  lemma SelfDeleteNotFoundIsError(c: Counters, d: Deployment, clock: nat -> Time,
                                  parse: string -> Option<Time>, responses: nat -> DeleteResponse)
    requires Evaluate(d, clock(0), parse) == Eligible
    requires AppOwnerRef(d).None?
    requires responses(0) == NotFound
    ensures RunSpec(c, Listed([d]), clock, parse, responses) ==
            RunResult(Counters(c.appsKilled, c.deploysKilled, c.errors + 1), [DeployTarget(d.namespace, d.name)])
  {
    RunSingle(c, d, clock, parse, responses);
  }
}
