/**
  The slice of the Kubernetes object model that the reaper looks at: a Deployment's
  identity, its annotations, its owner references and its deletion timestamp, plus the
  possible answers of the API server to a list and to a delete request.
 */
module Kube {
  import opened Wrappers

  /** Wall-clock instants; the unit (say, nanoseconds since the epoch) does not matter here. */
  type Time = int

  /** `metav1.OwnerReference`, reduced to the two fields the reaper reads. */
  datatype OwnerReference = OwnerReference(kind: string, name: string)

  /** `appsv1.Deployment`, reduced to the metadata the reaper reads. */
  datatype Deployment = Deployment(
    namespace: string,
    name: string,
    annotations: map<string, string>,
    ownerReferences: seq<OwnerReference>,
    deletionTimestamp: Option<Time>)

  /** The answer of the API server to a delete request. */
  datatype DeleteResponse = Deleted | NotFound | DeleteFailed

  /** The answer of the API server to a list request. */
  datatype ListResponse = Listed(items: seq<Deployment>) | ListFailed

  /**
    Go's `m[key]` on a `map[string]string`: a missing key (or a nil map) reads as the
    zero value, the empty string.
   */
  function Lookup(m: map<string, string>, key: string): (v: string)
    ensures key in m ==> v == m[key]
    ensures key !in m ==> v == ""
  {
    if key in m then m[key] else ""
  }
}
