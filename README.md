# euthanaisa reaper, modelled in Dafny

euthanaisa is a periodic job for a nais Kubernetes cluster. It deletes Deployments
whose `euthanaisa.nais.io/kill-after` annotation holds an RFC 3339 `date-time`
(section 5.6 of RFC 3339) that has passed. A Deployment owned by a nais `Application`
is not deleted itself. The first owner reference of kind `Application` is deleted
instead, in the Deployment's namespace. One pass lists every Deployment once and
processes each in list order. Three metrics record the pass: applications killed,
deployments killed and errors. They are pushed to a Prometheus push gateway when the
pass ends.

The model covers `process`, `appOwnerRef` and `Run` of
`internal/euthanaiser/euthanaiser.go`:

- `wrappers.dfy`: `Option`.
- `kube.dfy` (module `Kube`): the Deployment metadata the reaper reads, the API server's
  answers to list and delete, and Go's map read (a missing key reads as `""`).
- `euthanaiser.dfy` (module `Euthanaiser`): the model itself.
  - The pure decision logic as functions. `Evaluate` is the guard chain,
    `FirstOwnerOfKind`/`AppOwnerRef` the owner search, and `ResolveTarget` the delete
    target.
  - `Step` is the specification of `process`. `RunSpec` is the specification of `Run`.
  - The `euthanaiser` struct becomes the class `Reaper`. Its three counters are fields
    updated in place. A ghost log records every delete request sent, and a second ghost
    log records every metrics push.
  - `Reaper.Process`, `Reaper.Run` and the loop `Reaper.ProcessItems` are imperative
    methods. Each is proved against `Step` or `RunSpec`.
- `properties.dfy` (module `ReaperProperties`): what a pass guarantees. It covers
  counters as counts of listed Deployments, deletes in list order and only for eligible
  Deployments, the owner redirect, and the scenarios of the repository's tests.

The environment is passed in as inputs:

- `parse` is what `time.Parse(time.RFC3339, _)` returns, with `None` for a parse error.
- `clock(i)` is what `time.Now()` returns while the i-th listed Deployment is processed.
- `responses(i)` is the API server's answer to the delete sent for the i-th listed
  Deployment, if one is sent. Each Deployment sends at most one.

Where the code and the tests disagree, the model follows the code:

- **Deployment delete answered NotFound.** `euthanaiser.go` returns an error there
  (`internal/euthanaiser/euthanaiser.go:133-135`). NotFound is swallowed only on the
  Application path (`internal/euthanaiser/euthanaiser.go:122-125`). The test case
  "should handle delete not found" (`internal/euthanaiser/euthanaiser_test.go:60-67`)
  expects no error. `ReaperProperties.SelfDeleteNotFoundIsError` states the code's
  behaviour.
- **The tests target a newer API.** `euthanaiser_test.go` is written against an API that
  `euthanaiser.go` does not have: `process(ctx, rc, u)`, `KillAfterAnnotation`, a list
  of resource clients, and owner handlers looked up by kind. The scenarios of those
  tests are restated about the code as written: a Deployment listed from the apps/v1
  API, and the single owner kind `Application`.

## Model

| member | source | states |
|---|---|---|
| Kube.Lookup | internal/euthanaiser/euthanaiser.go:106 | Reading an annotation gives its value when present and the empty string when absent, as a Go map read does |
| Euthanaiser.Evaluate | internal/euthanaiser/euthanaiser.go:102-117 | A Deployment being deleted, or one with an empty or absent kill-after annotation, is never eligible. The result is Malformed exactly when the annotation is non-empty and does not parse. It is Eligible exactly when the Deployment is not being deleted, the annotation parses, and its time is at or before now (`After` is strict) |
| Euthanaiser.FirstOwnerOfKind | internal/euthanaiser/euthanaiser.go:149-157 | The result is None exactly when no owner reference has the kind. Otherwise it is an owner reference of that kind, with no reference of that kind before it |
| Euthanaiser.ResolveTarget | internal/euthanaiser/euthanaiser.go:119-121 | The delete target is always in the Deployment's namespace. A Deployment target is the Deployment's own name |
| Euthanaiser.Step | internal/euthanaiser/euthanaiser.go:100-139 | A delete is sent exactly when the Deployment is eligible, and goes to the resolved target. A skipped Deployment has no effect at all. A malformed annotation gives only the parse error. An application or deployment kill is counted exactly when the delete of that kind answered Deleted, and never both. A sent delete gives no error exactly when it answered Deleted, or answered NotFound on the Application path |
| Euthanaiser.Effects | internal/euthanaiser/euthanaiser.go:90-91 | There is one effect per listed Deployment |
| Euthanaiser.EffectsAt | internal/euthanaiser/euthanaiser.go:90-91 | The i-th effect of a pass is that of processing the i-th listed Deployment with its own clock reading and delete answer |
| Euthanaiser.TallyBounds | internal/euthanaiser/euthanaiser.go:90-95 | After n Deployments, at most n errors have been counted and at most n deletes sent |
| Euthanaiser.RunSpec | internal/euthanaiser/euthanaiser.go:84-95 | A failed list adds exactly one error, changes no other counter and sends no delete. After a successful list, no counter decreases, errors grow by at most the number of listed Deployments, and at most one delete is sent per listed Deployment |
| Euthanaiser.Reaper.constructor | internal/euthanaiser/euthanaiser.go:46-60 | The three gauges start at zero, with no delete sent and no push made |
| Euthanaiser.Reaper.Process | internal/euthanaiser/euthanaiser.go:100-139 | `process` returns the error of `Step`. It adds Step's kill to appsKilled or deploysKilled, leaves errors alone, and logs Step's delete request. It makes no push |
| Euthanaiser.Reaper.ProcessAt | internal/euthanaiser/euthanaiser.go:91-94 | One turn of the loop adds the i-th listed Deployment's kill and its error, if any, to the counters, and logs its delete request |
| Euthanaiser.Reaper.ProcessItems | internal/euthanaiser/euthanaiser.go:90-95 | After the loop each counter has grown by the tally of the effects of all listed Deployments. The delete log has grown by their delete requests, in list order |
| Euthanaiser.Reaper.PushMetrics | internal/euthanaiser/euthanaiser.go:74-79 | The current counter values are pushed and nothing else changes |
| Euthanaiser.Reaper.Run | internal/euthanaiser/euthanaiser.go:81-98 | The final counters and the deletes sent are those of `RunSpec`, on both the list-failure and list-success paths. The deferred push happens exactly once, with the final counters |
| ReaperProperties.AbsentAndEmptyAnnotationAgree | internal/euthanaiser/euthanaiser.go:106-108 | An absent kill-after annotation and an empty one behave identically: no delete, no error, no kill |
| ReaperProperties.RedirectsToFirstApplicationOwner | internal/euthanaiser/euthanaiser.go:119-121 | The delete goes to an Application exactly when some owner reference has kind Application. That Application is the first such reference, by name. Any target other than the Deployment itself is an Application |
| ReaperProperties.TallyCounts | internal/euthanaiser/euthanaiser.go:90-95 | Each counter of a tally is the number of effects that incremented it. The number of deletes is the number of effects that sent one |
| ReaperProperties.IssuedPrefix | internal/euthanaiser/euthanaiser.go:90-95 | The deletes of the first i Deployments are a prefix of those of the first n, so list order is kept |
| ReaperProperties.IssuedComesFromEffect | internal/euthanaiser/euthanaiser.go:90-95 | Every delete sent comes from one listed Deployment's effect |
| ReaperProperties.DeleteIsAtItsPosition | internal/euthanaiser/euthanaiser.go:90-95 | A Deployment's delete comes directly after the deletes of the Deployments listed before it |
| ReaperProperties.AllEffectsAt | internal/euthanaiser/euthanaiser.go:90-91 | Every effect of a pass is that of its own listed Deployment |
| ReaperProperties.AppKillsAre | internal/euthanaiser/euthanaiser.go:119-128 | These Deployments kill an Application: eligible, Application-owned, and answered Deleted |
| ReaperProperties.DeployKillsAre | internal/euthanaiser/euthanaiser.go:133-136 | These Deployments kill themselves: eligible, not Application-owned, and answered Deleted |
| ReaperProperties.FailuresAre | internal/euthanaiser/euthanaiser.go:91-94 | These Deployments count an error: exactly those whose processing returned one |
| ReaperProperties.DeletesAre | internal/euthanaiser/euthanaiser.go:102-121 | The Deployments that send a delete are exactly the eligible ones |
| ReaperProperties.RunCounts | internal/euthanaiser/euthanaiser.go:84-95 | After a successful list, appsKilled grows by the number of eligible Application-owned Deployments answered Deleted. deploysKilled grows by the number of eligible unowned Deployments answered Deleted. errors grows by the number of Deployments whose processing failed, so one failure never stops later Deployments |
| ReaperProperties.EligibleItemIsDeletedInOrder | internal/euthanaiser/euthanaiser.go:90-95 | Every eligible listed Deployment has its resolved target deleted. That delete sits after those of the eligible Deployments listed before it, whatever their outcome |
| ReaperProperties.OnlyEligibleItemsAreDeleted | internal/euthanaiser/euthanaiser.go:84-95 | Deletes are sent only after a successful list. Each one is the resolved target of an eligible listed Deployment |
| ReaperProperties.RunSingle | internal/euthanaiser/euthanaiser.go:90-95 | A pass over one listed Deployment adds that Deployment's step to the counters and sends its delete |
| ReaperProperties.BeingDeletedIsSkipped | internal/euthanaiser/euthanaiser.go:102-104 | A Deployment with a deletion timestamp changes no counter and sends no delete, whatever its annotation says |
| ReaperProperties.ExpiredOwnedDeploymentDeletesItsApplication | internal/euthanaiser/euthanaiser.go:119-131 | An expired Deployment owned by Application app1 sends exactly one delete, for app1 in its namespace, never for itself. appsKilled is incremented |
| ReaperProperties.FutureDeploymentIsKept | internal/euthanaiser/euthanaiser.go:115-117 | A Deployment whose kill-after time is still ahead changes no counter and sends no delete |
| ReaperProperties.QuietTally | internal/euthanaiser/euthanaiser.go:90-95 | Effects that neither kill nor fail leave every counter unchanged |
| ReaperProperties.OwnerNotFoundIsQuiet | internal/euthanaiser/euthanaiser.go:122-125 | On the Application path a NotFound answer returns success, with no kill counted |
| ReaperProperties.OwnerDeleteIsIdempotent | internal/euthanaiser/euthanaiser.go:122-125 | An Application-owned Deployment processed twice with its Application already gone sends two deletes. It changes no counter and counts no error |
| ReaperProperties.SelfDeleteNotFoundIsError | internal/euthanaiser/euthanaiser.go:133-135 | A Deployment deleting itself that is answered NotFound counts one error and no kill |

## Left out

- `kubeconfig` and `New` (`internal/euthanaiser/euthanaiser.go:32-72`, `141-147`) are left
  out because they are credential lookup and client construction. Only `New`'s zeroed
  gauges are modelled, by the constructor.
- The Prometheus registry and the push transport are left out. A push is modelled as the
  counter values appended to a ghost log. The error of a failed push is only logged, so
  the model ignores it.
- The gauges are Prometheus floats. The model uses `nat`, which is exact for the counts
  one pass reaches.
- All log calls are left out. They have no effect on the outcome.
- Go's `time.Parse` with the RFC 3339 layout is not modelled. It is the `parse` input.
  Time zones and sub-second precision are inside that function.
- The wall clock is not modelled. It is the `clock` input, read once per Deployment.
- The context is not modelled: the model does not capture cancellation.
- The type assertion `obj.(appsv1.Deployment)` at line 101 is not modelled. `Run` always
  passes a Deployment, so it never fails there.
- The HTTP details of list and delete errors are not modelled. Only three outcomes are
  distinguished: success, NotFound and any other failure.
- Owner handlers keyed by owner kind appear only in the tests. The model has
  `FirstOwnerOfKind` for any one kind and instantiates it with `"Application"`, as the
  code does.
- `internal/client`, `internal/config`, `internal/metrics`, `internal/resource` and
  `cmd/euthanaisa` are not part of this model. They are API adapters, configuration
  loading and wiring.
- The `for` loop of `Run` is split into its own method (`Reaper.ProcessItems`), and so is
  the loop body (`Reaper.ProcessAt`). The loop itself is unchanged.
- Euthanaiser.RunSpec: its own contract states only bounds and the list-failure case.
  The exact counts and delete order are proved separately in `ReaperProperties`.
