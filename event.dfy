/**
 * The event handlers (handlers/event/event.go): what the controller does when a watched object
 * is added, updated or deleted, composed from the label algebra, the policy operations and the
 * object writes over one store.
 */
module Event {
  import opened Kube
  import opened Seqs
  import opened Attribute
  import opened Cluster
  import opened NetworkPolicy
  import Object
  import Strings

  /** Objects in this namespace are never modified. */
  const SystemNamespace := "kube-system"

  /** The name of the policy created for an object: `<name>-<namespace>-netpol`. */
  function PolicyName(name: string, namespace: string): string {
    name + "-" + namespace + "-netpol"
  }

  /** The cluster-local references of a workload, as GetLocalEnvVars finds them. */
  function LocalEnv(obj: Workload): (r: map<string, string>)
    ensures Splittable(r)
  {
    LocalEnvSplittable(AllEnv(obj.containers));
    LastWins(AllEnv(obj.containers), IsLocalRef)
  }

  /**
   * `target` is `objLabels` merged with the labels the references in `envVars` resolve to, as
   * `res` gives them (see Collected and MergeLabels).
   */
  ghost predicate EnvTargetFrom(res: map<string, Result<Labels>>, envVars: map<string, string>, objLabels: Labels,
                                target: Multimap)
  {
    exists el :: Collected(res, envVars.Keys, el) && MergedFrom([Lifted(objLabels), el], target)
  }

  /**
   * `target` is `objLabels` merged with the labels of every pod and service the references in
   * `envVars` name (see ReferencedLabels).
   */
  ghost predicate EnvTarget(store: Store, objLabels: Labels, envVars: map<string, string>, target: Multimap)
    requires Splittable(envVars)
    reads store
  {
    EnvTargetFrom(Resolutions(store, envVars), envVars, objLabels, target)
  }

  /**
   * Why handleEnvVarChange fails: there are no references, or a reference's resolution failed
   * with that error, or merging `objLabels` with what they resolve to gave the empty `merged`.
   */
  ghost predicate EnvFailure(res: map<string, Result<Labels>>, envVars: map<string, string>, objLabels: Labels,
                             merged: Multimap, err: Error)
  {
    || (|envVars| == 0 && err == NoEnvVars)
    || (exists e :: e in res && res[e] == Err(err))
    || (err == EmptyParam && EnvTargetFrom(res, envVars, objLabels, merged) && |merged| == 0)
  }

  /**
   * The target labels HandleAdd builds a policy for: the object's current metadata labels when it
   * has no cluster-local reference or one of them names a missing object, and otherwise
   * `objLabels` merged with the labels of every referenced pod and service.
   */
  ghost predicate AddTargets(store: Store, obj: Workload, objLabels: Labels, target: Multimap)
    reads store, obj
  {
    var envVars := LocalEnv(obj);
    var res := Resolutions(store, envVars);
    if |envVars| == 0 || exists e :: e in res && res[e] == Err(ResourceNotFound) then
      target == Lifted(obj.labels)
    else
      EnvTargetFrom(res, envVars, objLabels, target)
  }

  /** Merging nonempty labels with what references resolve to gives a nonempty target. */
  lemma EnvTargetNonEmpty(res: map<string, Result<Labels>>, envVars: map<string, string>, objLabels: Labels,
                          target: Multimap)
    requires EnvTargetFrom(res, envVars, objLabels, target) && |objLabels| > 0
    ensures |target| > 0
  {
    var el :| Collected(res, envVars.Keys, el) && MergedFrom([Lifted(objLabels), el], target);
    var k :| k in objLabels;
    MergedFromTwo(Lifted(objLabels), el);
    assert k in target;
  }

  /**
   * HandleAdd's target is nonempty once the pod selector and the metadata labels are: it is
   * either the metadata labels or a merge that contains the pod selector.
   */
  lemma AddTargetsNonEmpty(store: Store, obj: Workload, objLabels: Labels, target: Multimap)
    requires AddTargets(store, obj, objLabels, target) && |objLabels| > 0 && |obj.labels| > 0
    ensures |target| > 0
  {
    var envVars := LocalEnv(obj);
    var res := Resolutions(store, envVars);
    if |envVars| == 0 || exists e :: e in res && res[e] == Err(ResourceNotFound) {
      var k :| k in obj.labels;
      assert k in target;
    } else {
      EnvTargetNonEmpty(res, envVars, objLabels, target);
    }
  }

  /**
   * The policy HandleAdd creates for an object whose pod selector is `objLabels`: named after the
   * object, in its namespace, for both policy types, with one ingress and one egress rule holding
   * the peers AppendLabelsToPeers builds for `target`.
   */
  ghost predicate CreatedFor(obj: Workload, objLabels: Labels, p: Policy, target: Multimap, reqs: seq<Requirement>)
    reads p, p.Repr()
  {
    && p.name == PolicyName(obj.name, obj.namespace) && p.namespace == obj.namespace
    && p.matchLabels == objLabels && p.policyTypes == [IngressType, EgressType]
    && |p.ingress| == 1 && |p.egress| == 1
    && (assert Selectors(p.ingress[0]) <= RulesSelectors(p.ingress) && Selectors(p.egress[0]) <= RulesSelectors(p.egress);
        LabelPeers(PeerLists(p.ingress[0], p.egress[0]), target, reqs))
  }

  /** The update AddLabel sends for a workload: its `netpol-ctrl` label. */
  function LabelWrite(obj: Workload): (w: Write)
    requires IsWorkloadKind(obj.kind)
    ensures w.action == Update && w.gvr != PolicyGVR && w.namespace == obj.namespace && w.name == obj.name
  {
    Write(Update, Object.GetGVR(Object.WorkloadTarget(obj)).value, obj.namespace, obj.name,
          LabelsBody(Object.NetpolLabel(obj)))
  }

  /** Peers added to a policy, with the labels they were built for and the requirements they carry. */
  datatype Addition = Addition(peers: PeerLists, target: Multimap, reqs: seq<Requirement>)

  const NoAddition := Addition(PeerLists([], []), map[], [])

  /** The peers of an addition were built for its labels (see LabelPeers). */
  ghost predicate Built(a: Addition)
    reads Selectors(a.peers.ingress), Selectors(a.peers.egress)
  {
    LabelPeers(a.peers, a.target, a.reqs)
  }

  /**
   * HandleUpdate's lookup of the policy for `oldLabels` in `namespace` does not panic: no peer
   * without a selector is reached (see NoNilDeref), and when the labels changed the policy found
   * has a first peer in every rule for the purge to read.
   */
  predicate LookupSafe(store: Store, namespace: string, oldLabels: Labels, newLabels: Labels)
    reads store
  {
    && NoNilDeref(store, namespace, oldLabels)
    && (oldLabels != newLabels && store.ListPolicies(namespace).Found? ==>
          var ps := store.ListPolicies(namespace).value;
          var found := PoliciesSearch(ps, oldLabels);
          found.At? ==> RulesNonEmpty(ps[found.index].ingress) && RulesNonEmpty(ps[found.index].egress))
  }

  /**
   * A policy fetched as `v` after HandleUpdate changed it: same name, namespace and policy types;
   * the new labels as pod selector when they changed; the peers added for changed labels and for
   * changed references built for their labels (see Built); and, rule by rule, the stored rules of
   * `v` purged of the old labels' requirements when the labels changed, followed by the stored
   * form of the peers added for the labels and then of those added for the references (see
   * UpdatedRules).
   */
  ghost predicate Updated(p: Policy, v: PolicyValue, oldLabels: Labels, newLabels: Labels,
                          oldEnv: map<string, string>, newEnv: map<string, string>, byLabels: Addition, byEnv: Addition)
    reads p, RulesSelectors(p.ingress), RulesSelectors(p.egress)
    reads Selectors(byLabels.peers.ingress), Selectors(byLabels.peers.egress)
    reads Selectors(byEnv.peers.ingress), Selectors(byEnv.peers.egress)
  {
    && p.name == v.name && p.namespace == v.namespace && p.policyTypes == v.policyTypes
    && p.matchLabels == (if oldLabels != newLabels then newLabels else v.matchLabels)
    && (oldLabels != newLabels ==> byLabels.target == Lifted(newLabels) && Built(byLabels))
    && (oldEnv != newEnv ==> Built(byEnv))
    && RulesValue(p.ingress)
       == UpdatedRules(v.ingress, oldLabels, newLabels, PeersValue(byLabels.peers.ingress), PeersValue(byEnv.peers.ingress))
    && RulesValue(p.egress)
       == UpdatedRules(v.egress, oldLabels, newLabels, PeersValue(byLabels.peers.egress), PeersValue(byEnv.peers.egress))
  }

  /** Stored rules after the label step: purged of the old labels' requirements when the labels changed. */
  function Relabelled(rules: seq<seq<PeerValue>>, oldLabels: Labels, newLabels: Labels): seq<seq<PeerValue>> {
    if oldLabels != newLabels then PurgedRules(rules, Lifted(oldLabels)) else rules
  }

  /**
   * Stored rules after HandleUpdate changed them (see Relabelled), each followed by the peers
   * added for changed labels and then by those added for changed references.
   */
  function UpdatedRules(rules: seq<seq<PeerValue>>, oldLabels: Labels, newLabels: Labels,
                        byLabels: seq<PeerValue>, byEnv: seq<PeerValue>): seq<seq<PeerValue>> {
    ExtendedRules(ExtendedRules(Relabelled(rules, oldLabels, newLabels), byLabels), byEnv)
  }

  /**
   * HandleUpdate gets past its early returns: both objects are handled workloads, the new one is
   * outside kube-system, and its cluster-local references or its labels differ from the old one's.
   */
  predicate UpdateReaches(oldObj: Workload?, newObj: Workload?)
    reads oldObj, newObj
  {
    && Object.MetaLabels(newObj).Ok? && newObj.namespace != SystemNamespace && Object.MetaLabels(oldObj).Ok?
    && !(LocalEnv(newObj) == LocalEnv(oldObj) && Object.MetaLabels(newObj).value == Object.MetaLabels(oldObj).value)
  }

  /**
   * What HandleDelete needs of the cluster to run without a nil dereference: the lookup for a
   * handled object's labels does not reach a peer without a pod selector.
   */
  predicate DeleteSafe(store: Store, obj: Workload?)
    reads store, obj
  {
    Object.MetaLabels(obj).Ok? && obj.namespace != SystemNamespace ==>
      NoNilDeref(store, obj.namespace, Object.MetaLabels(obj).value)
  }

  /** The lookup HandleUpdate reaches does not panic (see LookupSafe). */
  predicate UpdateSafe(store: Store, oldObj: Workload?, newObj: Workload?)
    reads store, oldObj, newObj
  {
    UpdateReaches(oldObj, newObj) ==>
      LookupSafe(store, oldObj.namespace, Object.MetaLabels(oldObj).value, Object.MetaLabels(newObj).value)
  }

  class Handler {
    const store: Store
    /** The object handler of the last write, reassigned before each one. */
    var objectHandler: Object.Handler?

    constructor (store: Store)
      ensures this.store == store && objectHandler == null
    {
      this.store := store;
      objectHandler := null;
    }

    /**
     * The tail both change handlers share: the peers AppendLabelsToPeers builds for `target` are
     * added to every rule of the policy; an empty target is an error that leaves it unchanged.
     */
    method AddPeers(target: Multimap, p: Policy, ghost kept: seq<seq<Peer>>)
      returns (err: Option<Error>, ghost added: PeerLists, ghost reqs: seq<Requirement>)
      modifies p
      ensures RulesValue(kept) == old(RulesValue(kept))
      ensures err.None? ==> RulesSelectors(kept) !! Selectors(added.ingress) + Selectors(added.egress)
      ensures p.matchLabels == old(p.matchLabels) && p.name == old(p.name) && p.namespace == old(p.namespace)
      ensures p.policyTypes == old(p.policyTypes)
      ensures err.Some? <==> |target| == 0
      ensures err.Some? ==> err.value == EmptyParam && p.ingress == old(p.ingress) && p.egress == old(p.egress)
      ensures err.None? ==>
        && fresh(Selectors(added.ingress)) && fresh(Selectors(added.egress))
        && LabelPeers(added, target, reqs)
        && p.ingress == ExtendRules(old(p.ingress), added.ingress) && p.egress == ExtendRules(old(p.egress), added.egress)
    {
      ghost var keep: set<object> := RulesSelectors(kept);
      assert p !in keep;
      ghost var vk := RulesValue(kept);
      var peers;
      peers, reqs := AppendLabelsToPeers(target);
      if peers.Err? {
        return Some(peers.error), PeerLists([], []), reqs;
      }
      added := peers.value;
      assert allocated(Selectors(added.ingress)) && allocated(Selectors(added.egress));
      ExtendPeers(peers.value.ingress, peers.value.egress, p);
      assert RulesValue(kept) == vk;
      return None, added, reqs;
    }

    /**
     * The middle of HandleAdd: the object's cluster-local references are resolved and merged with
     * `objLabels` into the target labels (falling back to the object's own labels when there are
     * none or one names a missing object), and a new policy is built for them.
     */
    method BuildPolicy(obj: Workload, objLabels: Labels)
      returns (r: Result<Policy>, ghost target: Multimap, ghost reqs: seq<Requirement>)
      requires IsWorkloadKind(obj.kind)
      ensures r.Ok? ==> && fresh(r.value) && CreatedFor(obj, objLabels, r.value, target, reqs)
                        && fresh(Selectors(r.value.ingress[0])) && fresh(Selectors(r.value.egress[0]))
                        && AddTargets(store, obj, objLabels, target) && |target| > 0
      ensures r.Err? ==> r.error == EmptyParam || r.error == ReadFailed
      ensures r.Err? && r.error == ReadFailed ==>
        exists e :: e in LocalEnv(obj) && ResolveRef(store, LocalEnv(obj)[e]) == Err(ReadFailed)
      ensures |objLabels| == 0 || obj.namespace == "" ==> r.Err?
      ensures r == Err(EmptyParam) ==>
        |objLabels| == 0 || obj.namespace == "" || (|target| == 0 && AddTargets(store, obj, objLabels, target))
    {
      var envVars: map<string, string> := map[];
      var localEnv := GetLocalEnvVars(obj);
      match localEnv {
        case Ok(v) => envVars := v;
        case Err(e) =>
          if e != NoEnvVars {
            return Err(e), map[], [];
          }
      }
      assert envVars == LocalEnv(obj);
      ghost var res := Resolutions(store, envVars);
      var envLabels := EnvTargetLabels(objLabels, envVars);
      var targetLabels: Multimap;
      if envLabels.Err? {
        if envLabels.error == NoEnvVars || envLabels.error == ResourceNotFound {
          if envLabels.error == ResourceNotFound && |envVars| > 0 {
            var e :| e in envVars && ResolveRef(store, envVars[e]) == Err(ResourceNotFound);
            assert e in res && res[e] == Err(ResourceNotFound);
          }
          targetLabels := ConvertLabels(obj.labels);
        } else {
          return Err(envLabels.error), map[], [];
        }
      } else {
        targetLabels := envLabels.value;
        assert forall e :: e in res ==> res[e].Ok?;
      }
      assert AddTargets(store, obj, objLabels, targetLabels);
      target := targetLabels;
      var p;
      p, reqs := NewPolicy(PolicyName(obj.name, obj.namespace), obj.namespace, objLabels, targetLabels);
      assert AddTargets(store, obj, objLabels, target);
      if p.Err? {
        return Err(p.error), target, reqs;
      }
      return Ok(p.value), target, reqs;
    }

    /**
     * The write every handler ends with: a new object handler for the policy, and its Mutate with
     * `action` (the policy is sent, or only its name for a delete). The policy itself is untouched.
     */
    method WritePolicy(p: Policy, action: Action) returns (err: Option<Error>)
      modifies this, store
      ensures objectHandler != null && fresh(objectHandler) && objectHandler.obj == Object.PolicyTarget(p)
      ensures unchanged(p.Repr())
      ensures var w := Write(action, PolicyGVR, p.namespace, p.name, if action == Delete then NameOnly else PolicyBody(p.Value()));
        && store.writes == old(store.writes) + [w]
        && store.services == old(store.services) && store.unreachable == old(store.unreachable)
        && (err.None? <==> old(store.After(w)).Some?)
        && (err.Some? ==> err.value == WriteFailed(action))
        && (err.None? ==> (store.objects, store.policies) == old(store.After(w)).value)
        && (err.Some? ==> store.objects == old(store.objects) && store.policies == old(store.policies))
    {
      var handler := new Object.Handler(store, Object.PolicyTarget(p));
      err := handler.Mutate(action);
      assert this !in p.Repr() && store as object != this;
      objectHandler := handler;
    }

    /** The create write of a policy (see WritePolicy), which leaves what the references in `envVars` resolve to as it was. */
    method CreateKeeping(p: Policy, ghost envVars: map<string, string>) returns (err: Option<Error>)
      requires Splittable(envVars)
      modifies this, store
      ensures Resolutions(store, envVars) == old(Resolutions(store, envVars))
      ensures unchanged(p.Repr())
      ensures objectHandler != null && objectHandler.obj == Object.PolicyTarget(p)
      ensures store.writes == old(store.writes) + [Write(Create, PolicyGVR, p.namespace, p.name, PolicyBody(p.Value()))]
      ensures store.Issued(old(store.State()), Write(Create, PolicyGVR, p.namespace, p.name, PolicyBody(p.Value())), err)
    {
      ghost var objects := store.objects;
      err := WritePolicy(p, Create);
      assert store.objects == objects;
      forall e | e in envVars ensures ResolveRef(store, envVars[e]) == old(ResolveRef(store, envVars[e])) {
        var name, namespace := Strings.Split(envVars[e])[0], Strings.Split(envVars[e])[1];
        assert store.GetPod(namespace, name) == old(store.GetPod(namespace, name));
        assert store.GetService(namespace, name) == old(store.GetService(namespace, name));
      }
    }

    /**
     * The end of HandleAdd: the policy built for the object (see BuildPolicy) is created with one
     * write through a new object handler.
     */
    method CreatePolicy(obj: Workload, objLabels: Labels)
      returns (err: Option<Error>, ghost target: Multimap, ghost reqs: seq<Requirement>)
      requires IsWorkloadKind(obj.kind)
      modifies this, store
      ensures CreatedFrom(obj, objLabels, old(store.State()), err, target, reqs)
      ensures |objLabels| == 0 || obj.namespace == "" ==> err.Some? && unchanged(store)
      ensures err.None? ==> PolicyWritten() && fresh(objectHandler.obj.p)
    {
      var p;
      p, target, reqs := BuildPolicy(obj, objLabels);
      if p.Err? {
        return Some(p.error), target, reqs;
      }
      ghost var s1 := store.State();
      err := CreateKeeping(p.value, LocalEnv(obj));
      assert CreatedFor(obj, objLabels, p.value, target, reqs);
      assert AddTargets(store, obj, objLabels, target);
      assert store.Issued(s1, Write(Create, PolicyGVR, p.value.namespace, p.value.name, PolicyBody(p.value.Value())), err);
    }

    /**
     * HandleAdd past its guards, for a workload outside kube-system whose pod selector is
     * `objLabels`: an object without metadata labels is first given the `netpol-ctrl` label, and
     * a refused label write ends it; then the policy is built and created (see CreatePolicy).
     */
    method LabelAndCreate(obj: Workload, objLabels: Labels)
      returns (err: Option<Error>, ghost target: Multimap, ghost reqs: seq<Requirement>)
      requires IsWorkloadKind(obj.kind) && obj.namespace != SystemNamespace
      modifies this, store, obj
      ensures AddedAfter(obj, objLabels, old(store.State()), |old(obj.labels)| == 0, err, target, reqs)
      ensures |old(obj.labels)| > 0 ==> obj.labels == old(obj.labels)
      ensures |objLabels| == 0 ==> err.Some?
      ensures err.None? ==> PolicyWritten() && fresh(objectHandler.obj.p)
    {
      if |obj.labels| == 0 {
        objectHandler := new Object.Handler(store, Object.WorkloadTarget(obj));
        var labelErr := objectHandler.AddLabel();
        if labelErr.Some? {
          return labelErr, map[], [];
        }
      }
      err, target, reqs := CreatePolicy(obj, objLabels);
    }

    /**
     * HandleAdd: a workload the controller handles, outside kube-system, gets a new policy. An
     * object without metadata labels is first given the `netpol-ctrl` label; then the policy is
     * built and created (see AddedAfter). Every failure stops the handler and is returned; a
     * skipped or unsupported object and kube-system cause no write at all.
     */
    method HandleAdd(obj: Workload?) returns (err: Option<Error>, ghost target: Multimap, ghost reqs: seq<Requirement>)
      modifies this, store, obj
      ensures old(Object.MetaLabels(obj)).Err? ==> err == Some(old(Object.MetaLabels(obj)).error) && unchanged(store)
      ensures old(Object.MetaLabels(obj)).Ok? ==>
        AddedAfter(obj, old(Object.MetaLabels(obj)).value, old(store.State()), |old(obj.labels)| == 0, err, target, reqs)
      ensures obj != null && |old(obj.labels)| > 0 ==> obj.labels == old(obj.labels)
      ensures obj != null && (old(Object.MetaLabels(obj)).Err? || obj.namespace == SystemNamespace) ==> obj.labels == old(obj.labels)
      ensures err.None? ==> PolicyWritten() && fresh(objectHandler.obj.p)
      ensures obj != null && obj.kind == Pod && |old(obj.labels)| == 0 ==> err.Some?
    {
      var objLabels := Object.ConvertToMeta(obj);
      if objLabels.Err? {
        return Some(objLabels.error), map[], [];
      }
      if obj.namespace == SystemNamespace {
        return Some(ReservedNamespace), map[], [];
      }
      err, target, reqs := LabelAndCreate(obj, objLabels.value);
    }

    /**
     * handleLabelChange: the pod selector becomes the new labels, the old labels' requirements are
     * purged from the first peer of every rule (see Relabel), and the peers built for the new
     * labels are added. Empty new labels are an error, after the selector and the purge already
     * took effect.
     */
    method HandleLabelChange(oldLabels: Labels, newLabels: Labels, p: Policy)
      returns (err: Option<Error>, ghost added: PeerLists, ghost reqs: seq<Requirement>)
      requires forall i :: 0 <= i < |p.ingress| ==> |p.ingress[i]| > 0
      requires forall i :: 0 <= i < |p.egress| ==> |p.egress[i]| > 0
      modifies p, FirstSelectors(p.ingress) + FirstSelectors(p.egress)
      ensures p.matchLabels == newLabels
      ensures p.name == old(p.name) && p.namespace == old(p.namespace) && p.policyTypes == old(p.policyTypes)
      ensures forall s :: s in old(FirstSelectors(p.ingress) + FirstSelectors(p.egress)) ==>
        s.matchExpressions == Purged(old(s.matchExpressions), Lifted(oldLabels))
      ensures Apart(old(p.ingress), old(p.egress)) ==>
        && RulesValue(old(p.ingress)) == PurgedRules(old(RulesValue(p.ingress)), Lifted(oldLabels))
        && RulesValue(old(p.egress)) == PurgedRules(old(RulesValue(p.egress)), Lifted(oldLabels))
      ensures err.Some? <==> |newLabels| == 0
      ensures err.None? ==>
        RulesSelectors(old(p.ingress)) + RulesSelectors(old(p.egress)) !! Selectors(added.ingress) + Selectors(added.egress)
      ensures err.Some? ==> err.value == EmptyParam && p.ingress == old(p.ingress) && p.egress == old(p.egress)
      ensures err.None? ==>
        && fresh(Selectors(added.ingress)) && fresh(Selectors(added.egress))
        && LabelPeers(added, Lifted(newLabels), reqs)
        && p.ingress == ExtendRules(old(p.ingress), added.ingress) && p.egress == ExtendRules(old(p.egress), added.egress)
    {
      ghost var ri, re := p.ingress, p.egress;
      var convNewLabels := Relabel(oldLabels, newLabels, p);
      RulesValueSplit(ri, re);
      err, added, reqs := AddPeers(convNewLabels, p, ri + re);
      RulesValueSplit(ri, re);
      RulesSelectorsConcat(ri, re);
    }

    /**
     * The labels both HandleAdd and handleEnvVarChange target once the references resolve:
     * `objLabels` merged with the labels of every referenced pod and service. The errors are
     * those of GetLabelsFromEnvVars.
     */
    method EnvTargetLabels(objLabels: Labels, envVars: map<string, string>) returns (r: Result<Multimap>)
      requires Splittable(envVars)
      ensures |envVars| == 0 <==> r == Err(NoEnvVars)
      ensures r.Ok? <==> |envVars| > 0 && forall e :: e in envVars ==> ResolveRef(store, envVars[e]).Ok?
      ensures r.Err? && |envVars| > 0 ==> exists e :: e in envVars && ResolveRef(store, envVars[e]) == Err(r.error)
      ensures r.Ok? ==> EnvTarget(store, objLabels, envVars, r.value)
    {
      var el := GetLabelsFromEnvVars(store, envVars);
      if el.Err? {
        return Err(el.error);
      }
      var convLabels := ConvertLabels(objLabels);
      r := MergeLabels([convLabels, el.value]);
    }

    /**
     * handleEnvVarChange: only adds peers, built from `objLabels` merged with the labels of every
     * referenced pod and service (`res` is what each reference resolves to). No references, or a
     * reference that cannot be resolved, is an error, and so is a merge with no labels at all.
     */
    method HandleEnvVarChange(objLabels: Labels, envVars: map<string, string>, p: Policy, ghost kept: seq<seq<Peer>>,
                              ghost res: map<string, Result<Labels>>)
      returns (err: Option<Error>, ghost merged: Multimap, ghost added: PeerLists, ghost reqs: seq<Requirement>)
      requires Splittable(envVars) && res == Resolutions(store, envVars)
      modifies p
      ensures RulesValue(kept) == old(RulesValue(kept))
      ensures err.None? ==> RulesSelectors(kept) !! Selectors(added.ingress) + Selectors(added.egress)
      ensures p.matchLabels == old(p.matchLabels) && p.name == old(p.name) && p.namespace == old(p.namespace)
      ensures p.policyTypes == old(p.policyTypes)
      ensures |envVars| == 0 ==> err == Some(NoEnvVars)
      ensures (exists e :: e in res && res[e].Err?) ==> err.Some?
      ensures err.Some? ==>
        || (|envVars| == 0 && err == Some(NoEnvVars))
        || (exists e :: e in res && res[e] == Err(err.value))
        || (err == Some(EmptyParam) && EnvTargetFrom(res, envVars, objLabels, merged) && |merged| == 0)
      ensures err.Some? ==> p.ingress == old(p.ingress) && p.egress == old(p.egress)
      ensures err.None? ==>
        && EnvTargetFrom(res, envVars, objLabels, merged) && |merged| > 0
        && fresh(Selectors(added.ingress)) && fresh(Selectors(added.egress))
        && LabelPeers(added, merged, reqs)
        && p.ingress == ExtendRules(old(p.ingress), added.ingress) && p.egress == ExtendRules(old(p.egress), added.egress)
    {
      ghost var vk := RulesValue(kept);
      assert allocated(RulesSelectors(kept));
      var podLabels := EnvTargetLabels(objLabels, envVars);
      assert RulesValue(kept) == vk;
      if podLabels.Err? {
        if |envVars| > 0 {
          var e :| e in envVars && ResolveRef(store, envVars[e]) == Err(podLabels.error);
          assert e in res && res[e] == Err(podLabels.error);
        }
        return Some(podLabels.error), map[], PeerLists([], []), [];
      }
      merged := podLabels.value;
      err, added, reqs := AddPeers(podLabels.value, p, kept);
    }

    /**
     * The label step of HandleUpdate: when the labels changed, handleLabelChange; otherwise
     * nothing happens.
     */
    method LabelChange(oldLabels: Labels, newLabels: Labels, p: Policy) returns (err: Option<Error>, ghost byLabels: Addition)
      requires oldLabels != newLabels ==>
        && (forall i :: 0 <= i < |p.ingress| ==> |p.ingress[i]| > 0)
        && (forall i :: 0 <= i < |p.egress| ==> |p.egress[i]| > 0)
        && Apart(p.ingress, p.egress)
      modifies p, FirstSelectors(p.ingress) + FirstSelectors(p.egress)
      ensures p.name == old(p.name) && p.namespace == old(p.namespace) && p.policyTypes == old(p.policyTypes)
      ensures p.matchLabels == if oldLabels != newLabels then newLabels else old(p.matchLabels)
      ensures forall s :: s in old(FirstSelectors(p.ingress) + FirstSelectors(p.egress)) ==>
        s.matchExpressions == if oldLabels != newLabels then Purged(old(s.matchExpressions), Lifted(oldLabels))
                              else old(s.matchExpressions)
      ensures RulesValue(old(p.ingress)) == Relabelled(old(RulesValue(p.ingress)), oldLabels, newLabels)
      ensures RulesValue(old(p.egress)) == Relabelled(old(RulesValue(p.egress)), oldLabels, newLabels)
      ensures err.Some? <==> oldLabels != newLabels && |newLabels| == 0
      ensures err.Some? ==> err.value == EmptyParam
      ensures err.None? ==> RulesSelectors(old(p.ingress)) + RulesSelectors(old(p.egress))
                              !! Selectors(byLabels.peers.ingress) + Selectors(byLabels.peers.egress)
      ensures err.None? ==>
        && (oldLabels != newLabels ==> byLabels.target == Lifted(newLabels) && Built(byLabels))
        && (oldLabels == newLabels ==> byLabels == NoAddition)
        && fresh(Selectors(byLabels.peers.ingress)) && fresh(Selectors(byLabels.peers.egress))
        && p.ingress == ExtendRules(old(p.ingress), byLabels.peers.ingress)
        && p.egress == ExtendRules(old(p.egress), byLabels.peers.egress)
    {
      byLabels := NoAddition;
      ghost var vi, ve := RulesValue(p.ingress), RulesValue(p.egress);
      assert allocated(RulesSelectors(p.ingress)) && allocated(RulesSelectors(p.egress));
      var sameLabels := MapsEqual(newLabels, oldLabels);
      assert RulesValue(p.ingress) == vi && RulesValue(p.egress) == ve;
      if !sameLabels {
        ghost var added, reqs;
        err, added, reqs := HandleLabelChange(oldLabels, newLabels, p);
        byLabels := Addition(added, Lifted(newLabels), reqs);
      } else {
        ExtendRulesNothing(p.ingress);
        ExtendRulesNothing(p.egress);
        err := None;
      }
    }

    /**
     * The reference step of HandleUpdate: when the cluster-local references changed,
     * handleEnvVarChange with the new labels; otherwise nothing happens. The peer lists of
     * `kept` keep their stored form.
     */
    method EnvChange(newLabels: Labels, oldEnv: map<string, string>, newEnv: map<string, string>, p: Policy,
                     ghost kept: seq<seq<Peer>>, ghost res: map<string, Result<Labels>>)
      returns (err: Option<Error>, ghost byEnv: Addition)
      requires Splittable(newEnv) && res == Resolutions(store, newEnv)
      modifies p
      ensures RulesValue(kept) == old(RulesValue(kept))
      ensures err.None? ==> RulesSelectors(kept) !! Selectors(byEnv.peers.ingress) + Selectors(byEnv.peers.egress)
      ensures p.matchLabels == old(p.matchLabels) && p.name == old(p.name) && p.namespace == old(p.namespace)
      ensures p.policyTypes == old(p.policyTypes)
      ensures oldEnv == newEnv ==> err.None?
      ensures oldEnv != newEnv && |newEnv| == 0 ==> err == Some(NoEnvVars)
      ensures oldEnv != newEnv && (exists e :: e in res && res[e].Err?) ==> err.Some?
      ensures err.Some? ==> oldEnv != newEnv && EnvFailure(res, newEnv, newLabels, byEnv.target, err.value)
      ensures err.None? ==>
        && (oldEnv != newEnv ==> Built(byEnv) && EnvTargetFrom(res, newEnv, newLabels, byEnv.target))
        && (oldEnv == newEnv ==> byEnv == NoAddition)
        && fresh(Selectors(byEnv.peers.ingress)) && fresh(Selectors(byEnv.peers.egress))
        && p.ingress == ExtendRules(old(p.ingress), byEnv.peers.ingress)
        && p.egress == ExtendRules(old(p.egress), byEnv.peers.egress)
    {
      byEnv := NoAddition;
      ghost var vk := RulesValue(kept);
      assert allocated(RulesSelectors(kept));
      var sameEnv := MapsEqual(newEnv, oldEnv);
      assert RulesValue(kept) == vk;
      if !sameEnv {
        ghost var merged, added, reqs;
        err, merged, added, reqs := HandleEnvVarChange(newLabels, newEnv, p, kept, res);
        byEnv := Addition(added, merged, reqs);
      } else {
        ExtendRulesNothing(p.ingress);
        ExtendRulesNothing(p.egress);
        err := None;
      }
    }

    /**
     * The middle of HandleUpdate once the policy is found: changed labels are handled first, then
     * changed cluster-local references; the first error stops it.
     */
    method ChangePeers(oldLabels: Labels, newLabels: Labels, oldEnv: map<string, string>,
                       newEnv: map<string, string>, p: Policy, ghost res: map<string, Result<Labels>>)
      returns (err: Option<Error>, ghost byLabels: Addition, ghost byEnv: Addition)
      requires Splittable(newEnv) && res == Resolutions(store, newEnv)
      requires oldLabels != newLabels ==>
        && (forall i :: 0 <= i < |p.ingress| ==> |p.ingress[i]| > 0)
        && (forall i :: 0 <= i < |p.egress| ==> |p.egress[i]| > 0)
        && Apart(p.ingress, p.egress)
      modifies p, FirstSelectors(p.ingress) + FirstSelectors(p.egress)
      ensures p.name == old(p.name) && p.namespace == old(p.namespace) && p.policyTypes == old(p.policyTypes)
      ensures p.matchLabels == if oldLabels != newLabels then newLabels else old(p.matchLabels)
      ensures oldLabels != newLabels && |newLabels| == 0 ==> err == Some(EmptyParam)
      ensures oldEnv != newEnv && (|newEnv| == 0 || exists e :: e in res && res[e].Err?) ==> err.Some?
      ensures err.Some? ==>
        || (oldLabels != newLabels && |newLabels| == 0 && err == Some(EmptyParam))
        || (oldEnv != newEnv && EnvFailure(res, newEnv, newLabels, byEnv.target, err.value))
      ensures err.None? ==>
        && (oldLabels != newLabels ==> byLabels.target == Lifted(newLabels) && Built(byLabels))
        && (oldLabels == newLabels ==> byLabels == NoAddition)
        && (oldEnv != newEnv ==> Built(byEnv) && EnvTargetFrom(res, newEnv, newLabels, byEnv.target))
        && (oldEnv == newEnv ==> byEnv == NoAddition)
        && fresh(Selectors(byLabels.peers.ingress)) && fresh(Selectors(byLabels.peers.egress))
        && fresh(Selectors(byEnv.peers.ingress)) && fresh(Selectors(byEnv.peers.egress))
        && p.ingress == ExtendRules(ExtendRules(old(p.ingress), byLabels.peers.ingress), byEnv.peers.ingress)
        && p.egress == ExtendRules(ExtendRules(old(p.egress), byLabels.peers.egress), byEnv.peers.egress)
        && RulesValue(p.ingress) == UpdatedRules(old(RulesValue(p.ingress)), oldLabels, newLabels,
                                                 PeersValue(byLabels.peers.ingress), PeersValue(byEnv.peers.ingress))
        && RulesValue(p.egress) == UpdatedRules(old(RulesValue(p.egress)), oldLabels, newLabels,
                                                PeersValue(byLabels.peers.egress), PeersValue(byEnv.peers.egress))
    {
      ghost var ri, re := p.ingress, p.egress;
      FirstSelectorsInRules(ri);
      FirstSelectorsInRules(re);
      err, byLabels := LabelChange(oldLabels, newLabels, p);
      if err.Some? {
        return err, byLabels, NoAddition;
      }
      if oldLabels != newLabels {
        LabelShapeOwn(byLabels.peers, |byLabels.target|);
      }
      RulesValueParts(ri, re, byLabels.peers.ingress, byLabels.peers.egress);
      err, byEnv := EnvChange(newLabels, oldEnv, newEnv, p, ri + re + [byLabels.peers.ingress, byLabels.peers.egress], res);
      RulesValueParts(ri, re, byLabels.peers.ingress, byLabels.peers.egress);
      RulesSelectorsParts(ri, re, byLabels.peers.ingress, byLabels.peers.egress);
      if err.None? {
        if oldEnv != newEnv {
          LabelShapeOwn(byEnv.peers, |byEnv.target|);
        }
        ExtendedValue(ri, byLabels.peers.ingress, byEnv.peers.ingress);
        ExtendedValue(re, byLabels.peers.egress, byEnv.peers.egress);
      }
    }

    /** The last write went through a handler for a policy. */
    predicate PolicyWritten()
      reads this
    {
      objectHandler != null && objectHandler.obj.PolicyTarget?
    }

    /** The memory of the policy last written. */
    function Written(): set<object>
      reads this, if PolicyWritten() then {objectHandler.obj.p} else {}
    {
      if PolicyWritten() then objectHandler.obj.p.Repr() else {}
    }

    /**
     * CreatePolicy's outcome for `obj`, whose pod selector is `objLabels`, on a store that held
     * `s1`. Either the policy was not built and nothing was written: `EmptyParam` for empty labels,
     * an empty namespace or an empty target (see AddTargets), `ReadFailed` for a reference whose
     * read failed. Or the policy built for the object (see CreatedFor) was sent as one create,
     * which fails exactly when the API refuses it (see Cluster.Store.Issued).
     */
    ghost predicate CreatedFrom(obj: Workload, objLabels: Labels, s1: StoreState, err: Option<Error>,
                                target: Multimap, reqs: seq<Requirement>)
      reads this, store, obj, Written()
    {
      || (&& store.State() == s1
          && (|| (err == Some(EmptyParam)
                  && (|objLabels| == 0 || obj.namespace == "" || (|target| == 0 && AddTargets(store, obj, objLabels, target))))
              || (err == Some(ReadFailed)
                  && exists e :: e in LocalEnv(obj) && ResolveRef(store, LocalEnv(obj)[e]) == Err(ReadFailed))))
      || (&& PolicyWritten()
          && var p := objectHandler.obj.p;
          && |objLabels| > 0 && obj.namespace != ""
          && CreatedFor(obj, objLabels, p, target, reqs)
          && AddTargets(store, obj, objLabels, target) && |target| > 0
          && store.Issued(s1, Write(Create, PolicyGVR, p.namespace, p.name, PolicyBody(p.Value())), err))
    }

    /**
     * HandleAdd's outcome once `obj` converted to the pod selector `objLabels`, on a store that
     * held `s0`; `unlabelled` says the object had no metadata labels. kube-system is refused with
     * no write. An unlabelled object is first sent its `netpol-ctrl` label, and a refused label
     * write ends the handler. Then the policy is built and created (see CreatedFrom).
     */
    ghost predicate AddedAfter(obj: Workload, objLabels: Labels, s0: StoreState, unlabelled: bool, err: Option<Error>,
                               target: Multimap, reqs: seq<Requirement>)
      reads this, store, obj, Written()
    {
      if obj.namespace == SystemNamespace then
        err == Some(ReservedNamespace) && store.State() == s0
      else if !unlabelled then
        CreatedFrom(obj, objLabels, s0, err, target, reqs)
      else
        && IsWorkloadKind(obj.kind) && obj.labels == Object.NetpolLabel(obj)
        && var w := LabelWrite(obj);
        && (s0.After(w).None? ==> store.Issued(s0, w, err))
        && (s0.After(w).Some? ==> CreatedFrom(obj, objLabels, s0.Accepted(w), err, target, reqs))
    }

    /**
     * HandleAdd succeeds whenever nothing stands in its way: the object is outside kube-system,
     * with a nonempty namespace and pod selector, its namespace is reachable, it has metadata
     * labels or its label write is accepted, no reference's read fails, and the namespace holds
     * no policy of the new policy's name. The namespace then holds the new policy, appended to
     * its list.
     *
     * The references are read after the label write and before the create, yet the premise
     * about them is stated on the final store: the two agree because neither write changes the
     * services, the reachable namespaces or (the create) the labelled objects, as Issued and
     * Cluster.StoreState.After state.
     */
    lemma AddedSucceeds(obj: Workload, objLabels: Labels, s0: StoreState, unlabelled: bool, err: Option<Error>,
                        target: Multimap, reqs: seq<Requirement>)
      requires AddedAfter(obj, objLabels, s0, unlabelled, err, target, reqs)
      requires obj.namespace != SystemNamespace && obj.namespace != "" && |objLabels| > 0
      requires obj.namespace !in s0.unreachable
      requires unlabelled ==> IsWorkloadKind(obj.kind) && s0.After(LabelWrite(obj)).Some?
      requires !unlabelled ==> |obj.labels| > 0
      requires forall e :: e in LocalEnv(obj) ==> ResolveRef(store, LocalEnv(obj)[e]) != Err(ReadFailed)
      requires var ps := if obj.namespace in s0.policies then s0.policies[obj.namespace] else [];
        FindByName(ps, PolicyName(obj.name, obj.namespace)).None?
      ensures err.None? && PolicyWritten()
      ensures var ps := if obj.namespace in s0.policies then s0.policies[obj.namespace] else [];
        store.policies == s0.policies[obj.namespace := ps + [objectHandler.obj.p.Value()]]
    {
      var s1 := if unlabelled then s0.Accepted(LabelWrite(obj)) else s0;
      assert CreatedFrom(obj, objLabels, s1, err, target, reqs);
      assert s1.policies == s0.policies;
      assert |obj.labels| > 0 by {
        if unlabelled {
          assert obj.labels == Object.NetpolLabel(obj);
          assert "netpol-ctrl" in obj.labels;
        }
      }
      if AddTargets(store, obj, objLabels, target) {
        AddTargetsNonEmpty(store, obj, objLabels, target);
      }
      assert PolicyWritten();
      var p := objectHandler.obj.p;
      var w := Write(Create, PolicyGVR, p.namespace, p.name, PolicyBody(p.Value()));
      assert store.Issued(s1, w, err);
    }

    /**
     * HandleUpdate's outcome for a policy fetched as `v` from a store that held `s0`, whose
     * references in `newEnv` resolved as `res`: at most one write was added, and none only when
     * changed labels are empty (`EmptyParam`) or the reference step fails (see EnvFailure), both
     * errors, with the store unchanged; once the changed policy (see
     * Updated, its peers for changed references built for the new labels merged with the
     * referenced ones) is sent as an update, that update is the one write added, it fails exactly
     * when the store refuses it, and on success the store holds what that write leaves
     * (see Cluster.StoreState.After).
     */
    ghost predicate UpdatedAfter(v: PolicyValue, oldLabels: Labels, newLabels: Labels, oldEnv: map<string, string>,
                                 newEnv: map<string, string>, s0: StoreState, res: map<string, Result<Labels>>,
                                 err: Option<Error>, byLabels: Addition, byEnv: Addition)
      reads this, store, Written(), Selectors(byLabels.peers.ingress), Selectors(byLabels.peers.egress)
      reads Selectors(byEnv.peers.ingress), Selectors(byEnv.peers.egress)
    {
      && s0.writes <= store.writes && |store.writes| <= |s0.writes| + 1
      && (|store.writes| == |s0.writes| ==> err.Some? && store.State() == s0)
      && (|store.writes| == |s0.writes| ==>
            || (oldLabels != newLabels && |newLabels| == 0 && err == Some(EmptyParam))
            || (oldEnv != newEnv && err.Some? && EnvFailure(res, newEnv, newLabels, byEnv.target, err.value)))
      && (oldLabels != newLabels && |newLabels| == 0 ==> err == Some(EmptyParam) && store.State() == s0)
      && (oldEnv != newEnv && (|newEnv| == 0 || exists e :: e in res && res[e].Err?) ==> err.Some? && store.State() == s0)
      && (|store.writes| > |s0.writes| ==>
            && PolicyWritten()
            && var p := objectHandler.obj.p;
            && Updated(p, v, oldLabels, newLabels, oldEnv, newEnv, byLabels, byEnv)
            && (oldEnv != newEnv ==> EnvTargetFrom(res, newEnv, newLabels, byEnv.target))
            && var w := Write(Update, PolicyGVR, v.namespace, v.name, PolicyBody(p.Value()));
            && store.writes == s0.writes + [w]
            && (err.None? <==> s0.After(w).Some?)
            && (err.None? ==> (store.objects, store.policies) == s0.After(w).value)
            && (err.Some? ==> err == Some(WriteFailed(Update)) && store.objects == s0.objects && store.policies == s0.policies))
    }

    /**
     * HandleUpdate writes the found policy back and succeeds whenever nothing stands in its way:
     * the new labels are nonempty, changed references are nonempty and all resolve, and the
     * fetched policy is still stored in its namespace, which is reachable. That namespace then
     * holds the changed policy in its place.
     */
    lemma UpdatedSucceeds(v: PolicyValue, oldLabels: Labels, newLabels: Labels, oldEnv: map<string, string>,
                          newEnv: map<string, string>, s0: StoreState, res: map<string, Result<Labels>>,
                          err: Option<Error>, byLabels: Addition, byEnv: Addition)
      requires UpdatedAfter(v, oldLabels, newLabels, oldEnv, newEnv, s0, res, err, byLabels, byEnv)
      requires |newLabels| > 0
      requires oldEnv != newEnv ==> |newEnv| > 0 && forall e :: e in res ==> res[e].Ok?
      requires v.namespace in s0.policies && v in s0.policies[v.namespace] && v.namespace !in s0.unreachable
      ensures err.None? && PolicyWritten()
      ensures var ps := s0.policies[v.namespace];
        && FindByName(ps, v.name).Some?
        && store.policies == s0.policies[v.namespace := ps[FindByName(ps, v.name).value := objectHandler.obj.p.Value()]]
    {
      var ps := s0.policies[v.namespace];
      assert FindByName(ps, v.name).Some? by {
        var i :| 0 <= i < |ps| && ps[i] == v;
      }
      if oldEnv != newEnv && EnvTargetFrom(res, newEnv, newLabels, byEnv.target) {
        EnvTargetNonEmpty(res, newEnv, newLabels, byEnv.target);
      }
      assert |store.writes| > |s0.writes|;
    }

    /** The update write of a policy (see WritePolicy), which leaves the peers of two additions as they were. */
    method UpdateKeeping(p: Policy, ghost byLabels: Addition, ghost byEnv: Addition) returns (err: Option<Error>)
      modifies this, store
      ensures PeersValue(byLabels.peers.ingress) == old(PeersValue(byLabels.peers.ingress))
      ensures PeersValue(byLabels.peers.egress) == old(PeersValue(byLabels.peers.egress))
      ensures PeersValue(byEnv.peers.ingress) == old(PeersValue(byEnv.peers.ingress))
      ensures PeersValue(byEnv.peers.egress) == old(PeersValue(byEnv.peers.egress))
      ensures unchanged(p.Repr())
      ensures objectHandler != null && objectHandler.obj == Object.PolicyTarget(p)
      ensures var w := Write(Update, PolicyGVR, p.namespace, p.name, PolicyBody(p.Value()));
        && store.writes == old(store.writes) + [w]
        && store.services == old(store.services) && store.unreachable == old(store.unreachable)
        && (err.None? <==> old(store.After(w)).Some?)
        && (err.None? ==> (store.objects, store.policies) == old(store.After(w)).value)
        && (err.Some? ==> err.value == WriteFailed(Update))
        && (err.Some? ==> store.objects == old(store.objects) && store.policies == old(store.policies))
    {
      assert allocated(Selectors(byLabels.peers.ingress)) && allocated(Selectors(byLabels.peers.egress));
      assert allocated(Selectors(byEnv.peers.ingress)) && allocated(Selectors(byEnv.peers.egress));
      err := WritePolicy(p, Update);
    }

    /**
     * The update HandleUpdate ends with (see WritePolicy), once the policy fetched as `v` was
     * changed without error.
     */
    method SendUpdate(p: Policy, ghost v: PolicyValue, ghost oldLabels: Labels, ghost newLabels: Labels,
                      ghost oldEnv: map<string, string>, ghost newEnv: map<string, string>, ghost s0: StoreState,
                      ghost res: map<string, Result<Labels>>, ghost byLabels: Addition, ghost byEnv: Addition)
      returns (err: Option<Error>)
      requires s0 == store.State()
      requires !(oldLabels != newLabels && |newLabels| == 0)
      requires !(oldEnv != newEnv && (|newEnv| == 0 || exists e :: e in res && res[e].Err?))
      requires Updated(p, v, oldLabels, newLabels, oldEnv, newEnv, byLabels, byEnv)
      requires oldEnv != newEnv ==> EnvTargetFrom(res, newEnv, newLabels, byEnv.target)
      modifies this, store
      ensures UpdatedAfter(v, oldLabels, newLabels, oldEnv, newEnv, s0, res, err, byLabels, byEnv)
      ensures PolicyWritten() && objectHandler.obj.p == p
      ensures |store.writes| == |s0.writes| + 1
    {
      err := UpdateKeeping(p, byLabels, byEnv);
    }

    /**
     * The found policy's part of HandleUpdate, for a policy fetched as `v` from a store holding
     * `s0`: its peers are changed (see ChangePeers) and it is sent back with one update; a failed
     * change stops before any write.
     */
    method UpdateFound(p: Policy, ghost v: PolicyValue, oldLabels: Labels, newLabels: Labels,
                       oldEnv: map<string, string>, newEnv: map<string, string>,
                       ghost s0: StoreState, ghost res: map<string, Result<Labels>>)
      returns (err: Option<Error>, ghost byLabels: Addition, ghost byEnv: Addition)
      requires Splittable(newEnv) && res == Resolutions(store, newEnv) && s0 == store.State()
      requires p.Value() == v && Apart(p.ingress, p.egress)
      requires oldLabels != newLabels ==> RulesNonEmpty(v.ingress) && RulesNonEmpty(v.egress)
      requires this !in p.Repr() && store !in p.Repr()
      modifies this, store, p.Repr()
      ensures UpdatedAfter(v, oldLabels, newLabels, oldEnv, newEnv, s0, res, err, byLabels, byEnv)
      ensures err.None? ==> PolicyWritten() && objectHandler.obj.p == p
    {
      if oldLabels != newLabels {
        NonEmptyInMemory(p.ingress);
        NonEmptyInMemory(p.egress);
      }
      FirstSelectorsInRules(p.ingress);
      FirstSelectorsInRules(p.egress);
      err, byLabels, byEnv := ChangePeers(oldLabels, newLabels, oldEnv, newEnv, p, res);
      if err.Some? {
        return;
      }
      err := SendUpdate(p, v, oldLabels, newLabels, oldEnv, newEnv, s0, res, byLabels, byEnv);
    }

    /**
     * HandleUpdate without a policy for the old labels: a new object handler for the workload,
     * and the workload, whose pod selector is `objLabels`, handled as added (see HandleAdd).
     */
    method AddInstead(obj: Workload, ghost objLabels: Labels, ghost s0: StoreState)
      returns (err: Option<Error>, ghost target: Multimap, ghost reqs: seq<Requirement>)
      requires Object.MetaLabels(obj) == Ok(objLabels) && s0 == store.State()
      modifies this, store, obj
      ensures AddedAfter(obj, objLabels, s0, |old(obj.labels)| == 0, err, target, reqs)
      ensures |old(obj.labels)| > 0 ==> obj.labels == old(obj.labels)
      ensures err.None? ==> PolicyWritten() && fresh(objectHandler.obj.p)
    {
      objectHandler := new Object.Handler(store, Object.WorkloadTarget(obj));
      err, target, reqs := HandleAdd(obj);
    }

    /**
     * The lookup of HandleUpdate, on a store holding `s0` whose policies in `namespace` list as
     * `listed` and whose references in `newEnv` resolve as `res`: the policy for the old labels is
     * looked up. A failed lookup is returned, and `missing` tells "no policy" apart; a found policy
     * gets the changed peers (see ChangePeers) and is sent back with one update.
     */
    method UpdateListed(namespace: string, oldLabels: Labels, newLabels: Labels,
                        oldEnv: map<string, string>, newEnv: map<string, string>,
                        ghost s0: StoreState, ghost listed: Lookup<seq<PolicyValue>>, ghost res: map<string, Result<Labels>>)
      returns (err: Option<Error>, missing: bool, ghost search: Option<Search>, ghost v: PolicyValue,
               ghost byLabels: Addition, ghost byEnv: Addition)
      requires Splittable(newEnv) && res == Resolutions(store, newEnv)
      requires s0 == store.State() && listed == store.ListPolicies(namespace)
      requires LookupSafe(store, namespace, oldLabels, newLabels)
      modifies this, store
      ensures search == (if listed.Found? then Some(PoliciesSearch(listed.value, oldLabels)) else None)
      ensures missing <==> search == Some(Nowhere)
      ensures search.Some? && search.value.At? ==> v == listed.value[search.value.index]
      ensures search.None? ==> err == Some(ReadFailed) && store.State() == s0
      ensures missing ==> store.State() == s0
      ensures search.Some? && search.value.At? ==> UpdatedAfter(v, oldLabels, newLabels, oldEnv, newEnv, s0, res, err, byLabels, byEnv)
      ensures err.None? && !missing ==> PolicyWritten() && fresh(objectHandler.obj.p)
    {
      byLabels, byEnv := NoAddition, NoAddition;
      search := if listed.Found? then Some(PoliciesSearch(listed.value, oldLabels)) else None;
      v := PolicyValue("", "", map[], [], [], []);
      var found := GetPolicyByPodLabels(store, namespace, oldLabels);
      if found.Err? {
        missing := found.error == PolicyNotFound;
        return Some(found.error), missing, search, v, byLabels, byEnv;
      }
      missing := false;
      v := listed.value[search.value.index];
      err, byLabels, byEnv := UpdateFound(found.value, v, oldLabels, newLabels, oldEnv, newEnv, s0, res);
    }

    /**
     * The end of HandleUpdate (see UpdateListed): when no policy matches the old labels, the
     * workload, whose pod selector is `newLabels`, is handled as added (see HandleAdd).
     */
    method UpdatePolicy(newObj: Workload, namespace: string, oldLabels: Labels, newLabels: Labels,
                        oldEnv: map<string, string>, newEnv: map<string, string>,
                        ghost s0: StoreState, ghost listed: Lookup<seq<PolicyValue>>, ghost res: map<string, Result<Labels>>)
      returns (err: Option<Error>, ghost search: Option<Search>, ghost v: PolicyValue, ghost target: Multimap,
               ghost reqs: seq<Requirement>, ghost byLabels: Addition, ghost byEnv: Addition)
      requires Splittable(newEnv) && res == Resolutions(store, newEnv)
      requires s0 == store.State() && listed == store.ListPolicies(namespace)
      requires LookupSafe(store, namespace, oldLabels, newLabels)
      requires Object.MetaLabels(newObj) == Ok(newLabels)
      modifies this, store, newObj
      ensures search == (if listed.Found? then Some(PoliciesSearch(listed.value, oldLabels)) else None)
      ensures search.Some? && search.value.At? ==> v == listed.value[search.value.index]
      ensures search.None? ==> err == Some(ReadFailed) && store.State() == s0
      ensures search == Some(Nowhere) ==> AddedAfter(newObj, newLabels, s0, |old(newObj.labels)| == 0, err, target, reqs)
      ensures search.Some? && search.value.At? ==> UpdatedAfter(v, oldLabels, newLabels, oldEnv, newEnv, s0, res, err, byLabels, byEnv)
      ensures |old(newObj.labels)| > 0 || search != Some(Nowhere) ==> newObj.labels == old(newObj.labels)
      ensures err.None? ==> PolicyWritten() && fresh(objectHandler.obj.p)
    {
      target, reqs := map[], [];
      var missing;
      err, missing, search, v, byLabels, byEnv := UpdateListed(namespace, oldLabels, newLabels, oldEnv, newEnv, s0, listed, res);
      if missing {
        err, target, reqs := AddInstead(newObj, newLabels, s0);
      }
    }

    /**
     * HandleUpdate: objects the controller does not handle, kube-system and an update that changes
     * neither the cluster-local references nor the labels cause no write. Otherwise the policy
     * for the old labels is updated, or a policy is created when there is none (see UpdatePolicy).
     */
    method HandleUpdate(oldObj: Workload?, newObj: Workload?)
      returns (err: Option<Error>, ghost search: Option<Search>, ghost v: PolicyValue, ghost target: Multimap,
               ghost reqs: seq<Requirement>, ghost byLabels: Addition, ghost byEnv: Addition)
      requires UpdateSafe(store, oldObj, newObj)
      modifies this, store, newObj
      ensures old(Object.MetaLabels(newObj)).Err? ==> err == Some(old(Object.MetaLabels(newObj)).error) && unchanged(store)
      ensures old(Object.MetaLabels(newObj)).Ok? && newObj.namespace == SystemNamespace ==>
        err == Some(ReservedNamespace) && unchanged(store)
      ensures old(Object.MetaLabels(newObj)).Ok? && newObj.namespace != SystemNamespace && old(Object.MetaLabels(oldObj)).Err? ==>
        err == Some(old(Object.MetaLabels(oldObj)).error) && unchanged(store)
      ensures old(Object.MetaLabels(newObj)).Ok? && newObj.namespace != SystemNamespace && old(Object.MetaLabels(oldObj)).Ok?
              && LocalEnv(newObj) == LocalEnv(oldObj) && old(Object.MetaLabels(newObj)).value == old(Object.MetaLabels(oldObj)).value ==>
        err == None && unchanged(store)
      ensures old(UpdateReaches(oldObj, newObj)) ==>
        var oldLabels, newLabels, oldEnv, newEnv :=
          old(Object.MetaLabels(oldObj)).value, old(Object.MetaLabels(newObj)).value, LocalEnv(oldObj), LocalEnv(newObj);
        var s0, listed, res := old(store.State()), old(store.ListPolicies(oldObj.namespace)), old(Resolutions(store, newEnv));
        && search == (if listed.Found? then Some(PoliciesSearch(listed.value, oldLabels)) else None)
        && (search.Some? && search.value.At? ==> v == listed.value[search.value.index])
        && (search.None? ==> err == Some(ReadFailed) && store.State() == s0)
        && (search == Some(Nowhere) ==> AddedAfter(newObj, newLabels, s0, |old(newObj.labels)| == 0, err, target, reqs))
        && (search.Some? && search.value.At? ==> UpdatedAfter(v, oldLabels, newLabels, oldEnv, newEnv, s0, res, err, byLabels, byEnv))
        && (err.None? ==> PolicyWritten() && fresh(objectHandler.obj.p))
      ensures newObj != null && (|old(newObj.labels)| > 0 || search != Some(Nowhere)) ==> newObj.labels == old(newObj.labels)
    {
      search, v, target, reqs, byLabels, byEnv := None, PolicyValue("", "", map[], [], [], []), map[], [], NoAddition, NoAddition;
      ghost var s0 := store.State();
      ghost var listed := if oldObj != null then store.ListPolicies(oldObj.namespace) else Unreachable;
      ghost var res := if newObj != null then Resolutions(store, LocalEnv(newObj)) else map[];
      var newLabels := Object.ConvertToMeta(newObj);
      if newLabels.Err? {
        return Some(newLabels.error), search, v, target, reqs, byLabels, byEnv;
      }
      if newObj.namespace == SystemNamespace {
        return Some(ReservedNamespace), search, v, target, reqs, byLabels, byEnv;
      }
      var oldLabels := Object.ConvertToMeta(oldObj);
      if oldLabels.Err? {
        return Some(oldLabels.error), search, v, target, reqs, byLabels, byEnv;
      }
      var oldEnv := GetLocalEnvVars(oldObj);
      var newEnv := GetLocalEnvVars(newObj);
      match (oldEnv, newEnv) {
        case (Ok(oldEnvVars), Ok(newEnvVars)) =>
          assert oldEnvVars == LocalEnv(oldObj) && newEnvVars == LocalEnv(newObj);
          var sameEnv := MapsEqual(newEnvVars, oldEnvVars);
          var sameLabels := MapsEqual(newLabels.value, oldLabels.value);
          if sameEnv && sameLabels {
            return None, search, v, target, reqs, byLabels, byEnv;
          }
          assert store.State() == s0 && store.ListPolicies(oldObj.namespace) == listed && Resolutions(store, newEnvVars) == res;
          err, search, v, target, reqs, byLabels, byEnv :=
            UpdatePolicy(newObj, oldObj.namespace, oldLabels.value, newLabels.value, oldEnvVars, newEnvVars, s0, listed, res);
      }
    }

    /**
     * HandleDelete: for a workload the controller handles, outside kube-system, the policy found
     * for its labels is deleted with one write. Every lookup failure is returned as it is,
     * "no policy" included, and causes no write.
     */
    method HandleDelete(obj: Workload?) returns (err: Option<Error>, ghost search: Option<Search>)
      requires DeleteSafe(store, obj)
      modifies this, store
      ensures Object.MetaLabels(obj).Err? ==> err == Some(Object.MetaLabels(obj).error) && unchanged(store)
      ensures Object.MetaLabels(obj).Ok? && obj.namespace == SystemNamespace ==>
        err == Some(ReservedNamespace) && unchanged(store)
      ensures Object.MetaLabels(obj).Ok? && obj.namespace != SystemNamespace ==>
        var listed := old(store.ListPolicies(obj.namespace));
        && search == (if listed.Found? then Some(PoliciesSearch(listed.value, Object.MetaLabels(obj).value)) else None)
        && (search.None? ==> err == Some(ReadFailed) && unchanged(store))
        && (search == Some(Nowhere) ==> err == Some(PolicyNotFound) && unchanged(store))
        && (search.Some? && search.value.At? ==>
              var doomed := listed.value[search.value.index];
              var w := Write(Delete, PolicyGVR, doomed.namespace, doomed.name, NameOnly);
              && store.writes == old(store.writes) + [w]
              && store.services == old(store.services) && store.unreachable == old(store.unreachable)
              && (err.None? <==> old(store.After(w)).Some?)
              && (err.Some? ==> err.value == WriteFailed(Delete))
              && (err.None? ==> (store.objects, store.policies) == old(store.After(w)).value)
              && (err.Some? ==> store.objects == old(store.objects) && store.policies == old(store.policies)))
    {
      search := None;
      var objLabels := Object.ConvertToMeta(obj);
      if objLabels.Err? {
        return Some(objLabels.error), search;
      }
      if obj.namespace == SystemNamespace {
        return Some(ReservedNamespace), search;
      }
      var listed := store.ListPolicies(obj.namespace);
      search := if listed.Found? then Some(PoliciesSearch(listed.value, objLabels.value)) else None;
      var p := GetPolicyByPodLabels(store, obj.namespace, objLabels.value);
      if p.Err? {
        return Some(p.error), search;
      }
      err := WritePolicy(p.value, Delete);
    }
  }
}
