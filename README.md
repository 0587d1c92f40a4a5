# k8s-netpol-ctrl handlers, modelled in Dafny

This project models the `handlers/` packages of k8s-netpol-ctrl, a Kubernetes controller that
gives every watched workload (Pod, Deployment, StatefulSet, DaemonSet) a NetworkPolicy of its
own. The policy selects the workload by its labels. Its single ingress rule and single egress rule
allow traffic to and from three groups of pods:

- the default peers: ingress controllers and cluster DNS;
- pods carrying the workload's own labels;
- pods and services the workload's environment variables name by their cluster-local DNS name
  (`<name>.<namespace>.pod|svc.cluster.local`).

The modules follow the Go packages:

| module | Go package | what it holds |
|---|---|---|
| `Kube` (kube.dfy) | API types | labels, multimaps, workloads, requirements, the stored form of a policy, write calls, errors |
| `Seqs`, `Strings` (seqs.dfy, strings.dfy) | standard library | `appendUnique` as `AppendMissing`; `strings.Split` on `.` and its inverse |
| `Cluster` (cluster.dfy) | client-go | the API server as an in-memory `Store` with the reads the controller makes and a log of every write it issues |
| `Attribute` (attribute.dfy) | `handlers/attribute` | label conversion and merging, cluster-local references, resolving them to labels |
| `NetworkPolicy` (networkpolicy.dfy) | `handlers/networkpolicy` | policies and selectors as heap objects (the controller changes them in place), the default peers, building, extending, purging and looking up policies |
| `Object` (object.dfy) | `handlers/object` | which objects are handled, with which labels, and the single create, update or delete write |
| `Event` (event.dfy) | `handlers/event` | the add, update and delete handlers |

Some state is modelled as objects and some as values:

- Pods and workloads are `Workload` objects. `AddLabel` overwrites their metadata labels in place.
- Policies are `Policy` objects whose peers point at `Selector` objects. The update handler purges
  the selectors' requirements in place and appends peers to the rules. In Go, peers are compared
  by their selector pointer, and the model does the same.
- What the API server stores is a value, `PolicyValue`. A policy read from the store is rebuilt
  in memory, and a policy written is turned back into a value.

Each Go map the source ranges over is modelled so that its iteration order does not matter:

- the model fixes some order, or leaves it to the verifier;
- each contract states only order-independent facts: sets of keys, sets of values, "some peer
  per key", the first match in the listed order.

## Model

| member | source | states |
|---|---|---|
| Seqs.AppendMissingElems | handlers/attribute/attribute.go:63-76 | appending the unique items of `src` to `dst` yields exactly the elements of both |
| Seqs.AppendMissingPrefix | handlers/attribute/attribute.go:63-76 | `dst` is kept, unchanged, as the prefix of the result |
| Seqs.AppendMissingTail | handlers/attribute/attribute.go:63-76 | what is appended is free of duplicates and holds nothing already in `dst` |
| Seqs.AppendMissingDistinct | handlers/attribute/attribute.go:63-76 | a duplicate-free list stays duplicate-free |
| Seqs.AppendMissingNoop | handlers/attribute/attribute.go:63-76 | when every item of `src` is already in `dst`, nothing is appended |
| Seqs.AppendMissingIdempotent | handlers/attribute/attribute.go:63-76 | appending the same source a second time changes nothing |
| Seqs.AppendMissingFresh | handlers/attribute/attribute.go:63-76 | a duplicate-free source disjoint from `dst` is appended whole, in order |
| Seqs.DistinctElemsCount | handlers/attribute/attribute.go:63-76 | a duplicate-free list has as many elements as it has distinct values |
| Strings.Split | handlers/attribute/attribute.go:152-153 | splitting on `.` always yields at least one part |
| Strings.JoinSplit | handlers/attribute/attribute.go:152-153 | joining the parts of a split with `.` gives back the original string |
| Strings.SplitJoin | handlers/attribute/attribute.go:152-153 | splitting the join of dot-free parts gives back those parts |
| Strings.SplitAroundDot | handlers/attribute/attribute.go:152-153 | a string joined around one `.` splits into exactly the parts of the left side followed by the parts of the right side |
| Strings.HasOwnSuffix | handlers/attribute/attribute.go:124 | a string contains its own suffix as a substring |
| Cluster.FindByName | handlers/object/object.go:117-135 | the index found is the first that holds a policy of that name; no index found means no policy has that name |
| Cluster.PolicyWriteEffect | handlers/object/object.go:117-135 | an accepted policy create makes the new policy findable by its name; an accepted update replaces the policy of that name in place; an accepted delete removes exactly one policy |
| Cluster.Store.constructor | handlers/event/event.go:35-41 | a store holding the given objects, services, policies and failing namespaces, with no writes issued |
| Cluster.Store.After | handlers/object/object.go:117-135 | a write to a failing namespace is refused; an accepted policy write changes only the policies, and an accepted write to any other resource changes only the labelled objects |
| Cluster.StoreState.After | handlers/object/object.go:117-135 | the same on a snapshot of the store: a write to a failing namespace is refused, an accepted policy write leaves the labelled objects alone, and any other accepted write leaves the policies alone |
| Cluster.Store.Apply | handlers/object/object.go:117-135 | every write call is logged; it changes the store exactly when the API accepts it; services and reachability never change |
| Attribute.Contains | handlers/attribute/attribute.go:30-41 | true exactly when the value occurs in the list |
| Attribute.MapsEqual | handlers/attribute/attribute.go:44-54 | true exactly when the two maps are equal, in both directions |
| Attribute.LocalEnvVarAccepts | handlers/attribute/attribute.go:57-61 | every `<name>.<namespace>.pod.cluster.local` or `<name>.<namespace>.svc.cluster.local` whose name and namespace are nonempty runs of letters, digits and `-` is accepted |
| Attribute.LocalEnvVarDecomposes | handlers/attribute/attribute.go:57-61 | every accepted value is of that form; its first two dot-separated parts are the name and the namespace |
| Attribute.LocalEnvVarRejectsExtraSegment | handlers/attribute/attribute.go:57-61 | the pattern is anchored: an accepted value with any further segment appended is rejected |
| Attribute.LocalEnvVarHasSuffix | handlers/attribute/attribute.go:124 | every accepted value contains `.svc.cluster.local` or `.pod.cluster.local`, so the substring check before the regex never rejects a value the regex accepts |
| Attribute.AppendUnique | handlers/attribute/attribute.go:63-76 | the loop with its seen-set computes `AppendMissing` (whose properties are the Seqs lemmas) |
| Attribute.MergeLabels | handlers/attribute/attribute.go:79-93 | no argument is an error `EmptyParam`; otherwise the result has exactly the keys of all arguments and, under each key, every value the arguments list for it, once each |
| Attribute.UnionValuesOutsideKeys | handlers/attribute/attribute.go:79-93 | a key no argument has contributes no values |
| Attribute.MergedFromTwo | handlers/attribute/attribute.go:79-93 | merging two maps gives the union of their keys and, per key, the union of their values |
| Attribute.MergeLiftedWithItself | handlers/attribute/attribute.go:79-102 | merging the converted labels with themselves gives them back unchanged |
| Attribute.MergeCommutes | handlers/attribute/attribute.go:79-93 | merging in either order gives the same keys and the same sets of values |
| Attribute.ConvertLabels | handlers/attribute/attribute.go:96-102 | the same keys, each mapped to the one-element list of its value |
| Attribute.LastWinsKeys | handlers/attribute/attribute.go:122-128 | a variable is collected exactly when some container defines it with a value that qualifies |
| Attribute.LastWinsValue | handlers/attribute/attribute.go:122-128 | the collected value is the one of the last qualifying definition of that name |
| Attribute.LocalRefIsValidLocalEnvVar | handlers/attribute/attribute.go:124 | the substring test together with the pattern accepts exactly what the pattern accepts |
| Attribute.LocalEnvExact | handlers/attribute/attribute.go:122-128 | the references collected are exactly the variables with a valid cluster-local value, and each keeps its last valid value |
| Attribute.LocalEnvSplittable | handlers/attribute/attribute.go:152-153 | every collected reference has at least a name and a namespace part, so indexing the split cannot fail |
| Attribute.GetLocalEnvVars | handlers/attribute/attribute.go:105-131 | an unsupported type is `TypeNotSupported`; for a workload, the variables of all containers with a valid cluster-local value, the last definition of a name winning |
| Attribute.LabelsFromService | handlers/attribute/attribute.go:182-200 | a failed read is `ReadFailed`; the result is the selector exactly when the service exists with a nonempty selector; a missing service and an empty selector are both `ResourceNotFound` |
| Attribute.ResolveRef | handlers/attribute/attribute.go:155-175 | resolving a reference fails only with `ResourceNotFound` or `ReadFailed` |
| Attribute.AppendLabelValues | handlers/attribute/attribute.go:164-166 | the loop appends each label's value under its key (specified by `AddLabelValues`, whose effect the Collected lemmas state) |
| Attribute.CollectedValues | handlers/attribute/attribute.go:151-176 | under each collected key stand exactly the values of that key in the resolved references that have it |
| Attribute.CollectedStep | handlers/attribute/attribute.go:151-176 | resolving one more reference keeps the collected multimap exact: a key is present exactly when some resolved reference has it, and each value stands under it as many times as there are resolved references giving the key that value |
| Attribute.CollectedNext | handlers/attribute/attribute.go:151-176 | the same step as the loop takes it, one reference out of the set still to resolve |
| Attribute.CollectedCountStep | handlers/attribute/attribute.go:151-176 | after one more reference, each key holds one value per reference contributing it |
| Attribute.CollectedMultiplicityStep | handlers/attribute/attribute.go:151-176 | after one more reference, each value occurs under a key as often as references give the key that value |
| Attribute.CollectedKeys | handlers/attribute/attribute.go:151-176 | the collected keys are exactly the keys some resolved reference carries |
| Attribute.CollectedDetermined | handlers/attribute/attribute.go:151-176 | what the references resolve to fixes the result up to order: the same keys and, per key, the same multiset of values, whatever order the map is ranged in |
| Attribute.GetLabelsFromEnvVars | handlers/attribute/attribute.go:144-179 | no reference is `NoEnvVars`; success exactly when every reference resolves; a failure is the error of some reference; on success a key is present exactly when a referenced pod's labels or service's selector has it, and each value stands under it once per reference giving the key that value |
| NetworkPolicy.Selector.constructor | handlers/networkpolicy/networkpolicy.go:99-106 | a fresh pod selector holding the given requirements |
| NetworkPolicy.Policy.constructor | handlers/networkpolicy/networkpolicy.go:209-233 | a fresh policy with the given name, namespace, pod selector, rules and policy types |
| NetworkPolicy.PeersValueLength | handlers/networkpolicy/networkpolicy.go:249-277 | the stored form of a peer list has one entry per peer |
| NetworkPolicy.RulesValueShape | handlers/networkpolicy/networkpolicy.go:249-277 | the stored form of the rules has the same number of rules and of peers per rule |
| NetworkPolicy.IsInOldLabels | handlers/networkpolicy/networkpolicy.go:33-46 | true exactly when the requirement's key is an old key and one of its values is an old value of that key |
| NetworkPolicy.PurgedMembers | handlers/networkpolicy/networkpolicy.go:48-76 | the purge keeps exactly the requirements that are not stale |
| NetworkPolicy.PurgedKeepsClean | handlers/networkpolicy/networkpolicy.go:48-76 | requirements none of which is stale are kept as they are, in order |
| NetworkPolicy.PurgedNothingOld | handlers/networkpolicy/networkpolicy.go:48-76 | with no old labels the purge changes nothing |
| NetworkPolicy.PurgedIdempotent | handlers/networkpolicy/networkpolicy.go:48-76 | purging twice is purging once |
| NetworkPolicy.PurgeRequirements | handlers/networkpolicy/networkpolicy.go:51-57 | the loop keeps the requirements that are not stale, in order (`Purged`) |
| NetworkPolicy.UpdateRules | handlers/networkpolicy/networkpolicy.go:48-76 | the selector of the first peer of every rule loses exactly its stale requirements, and no other object changes |
| NetworkPolicy.PurgeRules | handlers/networkpolicy/networkpolicy.go:48-76 | the same purge, and for rules that share no selector (as read back from the API) the stored form of the rules becomes the old stored form with every first peer purged (`PurgedRules`) |
| NetworkPolicy.PurgedRulesShape | handlers/networkpolicy/networkpolicy.go:48-76 | the purged stored rules keep the number of rules and of peers; only the first peer's requirements change, to exactly those that are not stale |
| NetworkPolicy.RemoveOldLabels | handlers/networkpolicy/networkpolicy.go:78-81 | the same purge on the first peers of both the ingress and the egress rules; when the two lists share no selector, both stored forms become their purged old forms |
| NetworkPolicy.PurgeOldLabels | handlers/event/event.go:48-52 | the new labels are converted (same keys, one value each) and the first peers of both rule lists are purged of the converted old labels, stored forms included |
| NetworkPolicy.Policy.SetMatchLabels | handlers/event/event.go:48 | the pod selector becomes the given labels; the rules, name, namespace, policy types and the stored form of the rules are kept |
| NetworkPolicy.Relabel | handlers/event/event.go:48-52 | the pod selector becomes the new labels, the rules stay the same lists of peers whose first selectors are purged of the old labels, and for a policy read back from the API the stored rules become their purged old form |
| NetworkPolicy.ExtendRuleList | handlers/networkpolicy/networkpolicy.go:118-132 | the nested loop gives every rule the new peers it does not hold yet (`ExtendRules`) |
| NetworkPolicy.ExtendPeers | handlers/networkpolicy/networkpolicy.go:117-134 | the ingress and egress rules of the policy are extended that way; name, namespace, pod selector and policy types are kept |
| NetworkPolicy.ExtendRulesNothing | handlers/networkpolicy/networkpolicy.go:117-134 | extending with no peers changes nothing |
| NetworkPolicy.ExtendRulesIdempotent | handlers/networkpolicy/networkpolicy.go:117-134 | extending twice with the same peers is extending once |
| NetworkPolicy.ExtendRulesKeepsAndAdds | handlers/networkpolicy/networkpolicy.go:117-134 | the number of rules is kept, each rule keeps its peers as a prefix, and every new peer ends up in every rule |
| NetworkPolicy.ExtendRulesWithNewPeers | handlers/networkpolicy/networkpolicy.go:117-134 | distinct new peers that no rule holds are appended to every rule whole, in order |
| NetworkPolicy.ExtendedValue | handlers/networkpolicy/networkpolicy.go:117-134 | extending rules by two batches of own, disjoint, new peers appends the stored form of each batch to the stored form of every rule, in order |
| NetworkPolicy.GroupByKey | handlers/networkpolicy/networkpolicy.go:89-94 | the grouping holds, under each label key, one value per label set that has that key |
| NetworkPolicy.PeersOfKeys | handlers/networkpolicy/networkpolicy.go:96-110 | one fresh peer per key, each with a selector of its own requiring `key In` the key's values |
| NetworkPolicy.GetDefaultSupportedPeers | handlers/networkpolicy/networkpolicy.go:84-111 | no label sets give no peers; otherwise one fresh peer per label key requiring every value given for it |
| NetworkPolicy.DefaultImages | handlers/networkpolicy/networkpolicy.go:19-26 | the default label sets give the controller names `ingress-nginx`, `contour`, `traefik` and `haproxy` under `app.kubernetes.io/name` |
| NetworkPolicy.DefaultDnsImage | handlers/networkpolicy/networkpolicy.go:19-26 | the default label sets give only `kube-dns` under `k8s-app` |
| NetworkPolicy.DefaultGrouping | handlers/networkpolicy/networkpolicy.go:19-26 | grouping the defaults gives exactly two keys: the four controller names once each, and `kube-dns` |
| NetworkPolicy.DefaultPeers | handlers/networkpolicy/networkpolicy.go:84-111 | the default peers are exactly two: the DNS peer and the ingress-controller peer, in either order |
| NetworkPolicy.UniqueValues | handlers/networkpolicy/networkpolicy.go:157-165 | the values without duplicates: the same set, each value once |
| NetworkPolicy.DefaultSupportedPeers | handlers/networkpolicy/networkpolicy.go:145 | builds the two default peers, with fresh selectors |
| NetworkPolicy.CopyPeers | handlers/networkpolicy/networkpolicy.go:150-153 | both lists start as the default peers themselves, sharing their selectors |
| NetworkPolicy.KeyPeers | handlers/networkpolicy/networkpolicy.go:155-190 | one ingress peer and one egress peer per target key, each pair requiring `key In` the key's distinct values, every selector fresh and of its own |
| NetworkPolicy.AppendLabelsToPeers | handlers/networkpolicy/networkpolicy.go:140-193 | no target labels is `EmptyParam`; otherwise both lists are the same two default peers followed by one peer per target key requiring that key's values once each, and the two lists share no selector beyond the defaults |
| NetworkPolicy.NewPolicy | handlers/networkpolicy/networkpolicy.go:199-236 | an empty name, namespace, pod selector or target is `EmptyParam`; otherwise a fresh policy with that name, namespace and pod selector, both policy types, and one ingress and one egress rule holding the peers AppendLabelsToPeers builds for the target |
| NetworkPolicy.PeersScanMeaning | handlers/networkpolicy/networkpolicy.go:251-262 | a peer scan hits only on a peer with a requirement letting the pod in; it stops at a peer without a selector; it misses exactly when every peer has a selector and none lets the pod in |
| NetworkPolicy.RulesScanMeaning | handlers/networkpolicy/networkpolicy.go:250-277 | the same, lifted to rules |
| NetworkPolicy.PoliciesSearchMeaning | handlers/networkpolicy/networkpolicy.go:245-279 | the policy found is the first that has a peer letting the pod in; nothing is found exactly when every policy has selectors everywhere and none lets the pod in |
| NetworkPolicy.PoliciesSearchNilFree | handlers/networkpolicy/networkpolicy.go:249-279 | when every peer has a selector the lookup never dereferences nil, and it finds a policy exactly when one lets the pod in |
| NetworkPolicy.RequirementHit | handlers/networkpolicy/networkpolicy.go:253-260 | the loop over the pod's labels decides whether an `In` requirement lists the pod's value for its key |
| NetworkPolicy.ScanPeers | handlers/networkpolicy/networkpolicy.go:251-262 | the loop over peers computes the peer scan |
| NetworkPolicy.ScanRules | handlers/networkpolicy/networkpolicy.go:250-263 | the loop over rules computes the rule scan |
| NetworkPolicy.Materialize | handlers/networkpolicy/networkpolicy.go:249-258 | a listed policy is rebuilt as a fresh in-memory policy whose stored form is the listed one and whose rules share no selector |
| NetworkPolicy.MaterializeRules | handlers/networkpolicy/networkpolicy.go:249-258 | stored rules rebuilt with fresh selectors, one per peer, none shared, giving back the same stored form |
| NetworkPolicy.MaterializePeers | handlers/networkpolicy/networkpolicy.go:249-258 | a stored peer list rebuilt with fresh distinct selectors, giving back the same stored form |
| NetworkPolicy.SearchPolicies | handlers/networkpolicy/networkpolicy.go:249-279 | the loop over the listed policies returns the first match, or nothing |
| NetworkPolicy.GetPolicyByPodLabels | handlers/networkpolicy/networkpolicy.go:239-280 | a failed list is `ReadFailed`; no match (an empty list included) is `PolicyNotFound`; otherwise a fresh copy of the first matching policy, whose rules share no selector |
| Object.ControllerOwner | handlers/object/object.go:52-56 | none exactly when no owner reference is a ReplicaSet, Deployment, StatefulSet or DaemonSet; otherwise the kind of the first such reference |
| Object.FirstControllerOwner | handlers/object/object.go:52-56 | the owner at which the loop stops is the one ControllerOwner names |
| Object.ConvertToMeta | handlers/object/object.go:45-66 | nil is an error; an unsupported type is `TypeNotSupported`; a Pod with a controller owner is skipped with that owner's kind; another Pod gives its metadata labels; a Deployment, StatefulSet or DaemonSet gives its spec selector |
| Object.GetGVR | handlers/object/object.go:85-100 | a resource exactly for policies and the four workload kinds, never the policy resource for a workload; anything else is `UnsupportedResource` |
| Object.GVRInjective | handlers/object/object.go:85-100 | different workload kinds are written to different resources |
| Object.Handler.constructor | handlers/object/object.go:37-39 | a handler for the given store and object |
| Object.Handler.Mutate | handlers/object/object.go:103-138 | with no resource nothing is written; otherwise exactly one write of the action is issued (delete sends only the name), the store changes exactly when the API accepts it, and a refusal is `WriteFailed` of that action |
| Object.Handler.AddLabel | handlers/object/object.go:69-79 | the labels become exactly `netpol-ctrl: <name>-<namespace>`, and that is sent as one update |
| Event.LocalEnv | handlers/attribute/attribute.go:122-128 | every reference collected from a workload can be split into name and namespace |
| Event.LabelWrite | handlers/object/object.go:69-79 | the label write is an update of the workload's own resource, namespace and name |
| Event.Handler.constructor | handlers/event/event.go:35-41 | an event handler over a store, with no object handler yet |
| Event.Handler.AddPeers | handlers/event/event.go:79-83 | empty target labels are `EmptyParam` (and only they are errors) and leave the rules alone; otherwise the rules are extended with fresh peers built for the target (see AppendLabelsToPeers); the stored form of peers already there is not disturbed |
| Event.Handler.BuildPolicy | handlers/event/event.go:109-134 | empty labels or namespace are errors; the policy built is named `<name>-<namespace>-netpol` and selects the object's labels; its target is the current labels when there are no references or one names a missing object, and otherwise the labels merged with every referenced pod's and service's labels (`AddTargets`), and it is never empty; an empty target is `EmptyParam`; `ReadFailed` comes exactly from a reference whose read failed |
| Event.Handler.WritePolicy | handlers/event/event.go:136-140 | one write of the policy through a fresh object handler; it fails with `WriteFailed` exactly when the API refuses it, and on success the store holds what that write leaves |
| Event.Handler.CreateKeeping | handlers/event/event.go:136-140 | the create write of a built policy: it is logged, it is applied and succeeds exactly when the API accepts it, and a refusal is `WriteFailed(Create)` with the store unchanged; the policy and the resolutions of its references stay as they were |
| Event.Handler.CreatePolicy | handlers/event/event.go:109-141 | either nothing is written and the error is `EmptyParam` (empty labels, namespace or target) or `ReadFailed` from a reference whose read failed; or the policy built for the object, with the nonempty target `AddTargets` gives, is sent as one create that succeeds exactly when the API accepts it, the store then holding the new policy (`CreatedFrom`) |
| Event.Handler.HandleAdd | handlers/event/event.go:89-144 | conversion errors and kube-system objects change nothing, neither the store nor the object's labels; a labelled object keeps its labels; an unlabelled object is first labelled `netpol-ctrl`, and a refused label write is `WriteFailed(Update)` and ends the handler; otherwise CreatePolicy's outcome follows on the store the label write left (`AddedAfter`); an unlabelled Pod always ends in an error after its label write |
| Event.Handler.LabelAndCreate | handlers/event/event.go:102-141 | the same two steps once the object is known to be a workload outside kube-system: the label write when it is unlabelled, then the create, with the outcome `AddedAfter` states |
| Event.Handler.AddedSucceeds | handlers/event/event.go:89-144 | the add handler succeeds whenever nothing stands in its way (nonempty labels and namespace, a namespace whose calls do not fail, an accepted label write, no failed read, no policy of that name yet), and the namespace then holds the new policy after the ones it had |
| Event.AddTargetsNonEmpty | handlers/event/event.go:114-134 | the add handler's target is never empty when the object's labels are not |
| Event.Handler.HandleLabelChange | handlers/event/event.go:47-61 | empty new labels are `EmptyParam`, and only they are errors; the pod selector becomes the new labels, stale requirements of the old labels are purged from the first peers (for a policy read from the API, its stored rules become their purged form), and fresh peers for the new labels are appended to every rule |
| Event.Handler.EnvTargetLabels | handlers/event/event.go:69-77 | the object's labels merged with the labels of every referenced pod and service; no reference is `NoEnvVars`; an unresolvable reference is that reference's error |
| Event.Handler.HandleEnvVarChange | handlers/event/event.go:68-86 | no reference is `NoEnvVars` and an unresolvable one is an error, both leaving the rules alone; an error is one of these or empty merged labels; on success, fresh peers built for the nonempty labels merged with the referenced ones are appended to every rule and the stored form of the rules already there is kept |
| Event.EnvTargetNonEmpty | handlers/event/event.go:69-77 | merging nonempty object labels with the referenced labels never gives an empty target |
| Event.Handler.LabelChange | handlers/event/event.go:193-198 | the label step runs exactly when the labels differ, fails exactly when the new labels are then empty, and leaves the stored rules purged of the old labels (`Relabelled`) |
| Event.Handler.EnvChange | handlers/event/event.go:200-205 | the reference step runs exactly when the references differ, fails only as HandleEnvVarChange does (`EnvFailure`: no references, a reference's own error, an empty merge), and keeps the stored form of the rules (the label step's peers included) it extends |
| Event.Handler.ChangePeers | handlers/event/event.go:193-205 | both steps in order: the rules are extended first by the label peers, then by the reference peers, and the stored rules are the purged old rules followed by the stored form of both batches (`UpdatedRules`); an error is either changed labels that are empty (`EmptyParam`) or a failure of the reference step (`EnvFailure`) |
| Event.Handler.UpdatePolicy | handlers/event/event.go:180-211 | a failed lookup is `ReadFailed` with the store untouched; no policy for the old labels falls back to the add handler, with its whole outcome (`AddedAfter`) and the workload's labels kept when it had any; otherwise the policy found is changed as `Updated` says and written back with one update that fails exactly when the API refuses it, the store then holding what that update leaves (`UpdatedAfter`), and the workload's labels untouched |
| Event.Handler.UpdateListed | handlers/event/event.go:180-211 | the lookup by the old labels: `missing` exactly when no listed policy matches, with the store untouched; a failed list is `ReadFailed`; a found policy is changed and sent back with the outcome `UpdatedAfter` states; its frame leaves the workload out, so the workload is not modified |
| Event.Handler.UpdateFound | handlers/event/event.go:193-211 | the policy found is changed and sent back, with the outcome `UpdatedAfter` states: nothing is written only for empty changed labels or a failed reference step, and otherwise one update that fails exactly when the API refuses it |
| Event.Handler.SendUpdate | handlers/event/event.go:207-211 | the changed policy is always sent, as exactly one update, with the outcome `UpdatedAfter` states |
| Event.Handler.UpdatedSucceeds | handlers/event/event.go:180-211 | the update succeeds whenever nothing stands in its way (nonempty new labels, changed references that are nonempty and all resolve, the fetched policy still stored in a namespace whose calls do not fail), and the policy is then replaced in place by the changed one |
| Event.Handler.UpdateKeeping | handlers/event/event.go:207-211 | the update write of the changed policy: it fails with `WriteFailed(Update)` exactly when the API refuses it, leaves the policy and the added peers as they were, and on success the store holds what that write leaves |
| Event.Handler.AddInstead | handlers/event/event.go:182-188 | when no policy matches, the add handler runs, with the whole outcome `AddedAfter` states for HandleAdd, and a labelled workload keeps its labels |
| Event.Handler.HandleUpdate | handlers/event/event.go:150-215 | conversion errors, kube-system objects and objects whose labels and references are both unchanged write nothing; otherwise the lookup by the old labels decides between a read error, creating a policy as HandleAdd does (`AddedAfter`), or updating the policy found, whose written rules are the purged old rules followed by the new peers and whose update fails exactly when the API refuses it (`UpdatedAfter`); the new object's labels change only when it is unlabelled and no policy is found, through the add handler's label write |
| Event.Handler.HandleDelete | handlers/event/event.go:221-245 | conversion errors, kube-system objects, a failed lookup and no matching policy write nothing; otherwise exactly one delete of the first matching policy is issued |

## Left out

- Client objects, `context.Background()`, `runtime.DefaultUnstructuredConverter` and logging are not modelled. The API server is the in-memory `Store`. A conversion to unstructured is taken never to fail.
- `main.go`, `app/`, `watcher/` and `config/` (informers, queues, configuration) are not part of this model. The `handlers` interfaces are modelled by their one implementation each.
- Wrapped errors (`fmt.Errorf("...: %w", err)`) are modelled by their sentinel alone. A failed read is `ReadFailed` and a refused write is `WriteFailed(action)`, so the message text is not modelled.
- NetworkPolicy peers carry only a pod selector. Namespace selectors, IP blocks, ports and match labels inside peer selectors are not modelled, because the controller never builds or reads them.
- Iteration over Go maps is in an order the runtime picks. Contracts state only what holds for every order: key sets, value sets, and one peer per key. Which of two equally matching orders the program takes is not modelled.
- The regular expression of `isValidLocalEnvVar` is modelled as an explicit check of its segments (`IsValidLocalEnvVar`), not by a regex engine.
- NetworkPolicy.GetPolicyByPodLabels requires `NoNilDeref`: the Go loop dereferences `peer.PodSelector` and panics on a peer without one. The panic is not modelled as an outcome. `PoliciesSearch` names that case `Panic`, and the precondition rules it out.
- NetworkPolicy.UpdateRules, NetworkPolicy.PurgeRules, NetworkPolicy.RemoveOldLabels, NetworkPolicy.PurgeOldLabels and NetworkPolicy.Relabel require every rule to have a first peer. The Go code indexes `From[0]` and `To[0]` and panics on an empty rule. Event.Handler.HandleUpdate asks the same of the policy it finds (`UpdateSafe`), and Event.Handler.HandleDelete asks `DeleteSafe`.
- Cluster.PolicyWrite and Cluster.ObjectWrite refuse a write only on a name conflict (create) or a missing name (update, delete), and Cluster.StoreState.After refuses every write to a namespace in `unreachable`. Other API failures (authorisation, validation, resource-version conflicts, a transport failure in an otherwise reachable namespace) are not modelled. Event.Handler.AddedSucceeds and Event.Handler.UpdatedSucceeds rely on this: they say the handler succeeds when none of the modelled causes holds.
- NetworkPolicy.ExtendPeers always returns a nil error in Go. The model has no error result.
- Event.Handler.HandleUpdate gives the stored rules it writes as values (`UpdatedRules`), but the peers added are stated as built for their target (`Built`), not as one closed value: which peer holds which key follows Go's map order, which the model leaves open.
- Extending a policy compares peers by selector pointer, as the Go code does. Peers read back from the store are rebuilt with new pointers, so re-adding equal requirements duplicates them by value. The model keeps this behaviour and does not claim deduplication by value.
