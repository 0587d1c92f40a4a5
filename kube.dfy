/** Values of the Kubernetes API that the controller reads and writes, and its error values. */
module Kube {

  datatype Option<+T> = None | Some(value: T)

  /** Exact-match label set (`map[string]string`). */
  type Labels = map<string, string>

  /** Label multimap (`map[string][]string`): a key and every value collected for it. */
  type Multimap = map<string, seq<string>>

  /** The create/update/delete action of object.Mutate. */
  datatype Action = Create | Update | Delete

  /**
   * The controller's errors. The package-level sentinels keep their own constructor;
   * wrapped client failures are ReadFailed (a lookup that failed for another reason than
   * "not found") and WriteFailed (the API refused a write).
   */
  datatype Error =
    | NoEnvVars                    // attribute.ErrNoEnvVars
    | EmptyParam                   // attribute.ErrEmptyParam, networkpolicy.ErrEmptyParam
    | ResourceNotFound             // attribute.ErrResourceNotFound
    | TypeNotSupported             // attribute.ErrTypeNotSupported, object.ErrTypeNotSupported
    | NilObject                    // ConvertToMeta(nil)
    | OwnedPod(ownerKind: string)  // a Pod governed by its owner is skipped
    | PolicyNotFound               // networkpolicy.ErrNotFound
    | ReservedNamespace            // objects in kube-system are never modified
    | ReadFailed                   // wrapped lookup or list failure
    | UnsupportedResource          // getGVR found no resource for the object
    | WriteFailed(action: Action)  // wrapped create/update/delete failure

  datatype Result<+T> = Ok(value: T) | Err(error: Error)

  /** The object types the watchers deliver to the event handlers. */
  datatype Kind = Pod | Deployment | StatefulSet | DaemonSet | Service | Ingress

  predicate IsWorkloadKind(k: Kind) {
    k == Pod || k == Deployment || k == StatefulSet || k == DaemonSet
  }

  datatype OwnerRef = OwnerRef(kind: string, name: string)
  datatype EnvVar = EnvVar(name: string, value: string)
  datatype Container = Container(env: seq<EnvVar>)

  /**
   * A watched object (metav1.Object behind its concrete type). Only the metadata labels
   * change in place (SetLabels); `selector` is Spec.Selector.MatchLabels of a Deployment,
   * StatefulSet or DaemonSet, and `containers` the Pod spec's or the Pod template's containers.
   */
  class Workload {
    const kind: Kind
    const name: string
    const namespace: string
    var labels: Labels
    const owners: seq<OwnerRef>
    const selector: Labels
    const containers: seq<Container>

    constructor (kind: Kind, name: string, namespace: string, labels: Labels,
                 owners: seq<OwnerRef>, selector: Labels, containers: seq<Container>)
      ensures this.kind == kind && this.name == name && this.namespace == namespace
      ensures this.labels == labels && this.owners == owners
      ensures this.selector == selector && this.containers == containers
    {
      this.kind := kind;
      this.name := name;
      this.namespace := namespace;
      this.labels := labels;
      this.owners := owners;
      this.selector := selector;
      this.containers := containers;
    }
  }

  /** metav1.LabelSelectorOperator */
  datatype Operator = In | NotIn | Exists | DoesNotExist

  /** metav1.LabelSelectorRequirement */
  datatype Requirement = Requirement(key: string, op: Operator, values: seq<string>)

  /** A NetworkPolicyPeer as stored by the API: its pod selector's MatchExpressions, if it has one. */
  datatype PeerValue = PeerValue(podSelector: Option<seq<Requirement>>)

  datatype PolicyType = IngressType | EgressType

  /**
   * A NetworkPolicy as stored by the API. Each ingress rule is its `From` peer list and
   * each egress rule its `To` peer list.
   */
  datatype PolicyValue = PolicyValue(
    name: string,
    namespace: string,
    matchLabels: Labels,
    ingress: seq<seq<PeerValue>>,
    egress: seq<seq<PeerValue>>,
    policyTypes: seq<PolicyType>)

  /** The payload of a write: a workload's labels, a whole policy, or (for Delete) the name only. */
  datatype Body = LabelsBody(labels: Labels) | PolicyBody(policy: PolicyValue) | NameOnly

  /** A group-version-resource triple. */
  datatype GVR = GVR(group: string, version: string, resource: string)

  /** One write call issued against the cluster API. */
  datatype Write = Write(action: Action, gvr: GVR, namespace: string, name: string, body: Body)
}
