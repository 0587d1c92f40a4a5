/**
 * Workload classification and the single-write dispatch (handlers/object/object.go): which
 * objects the controller handles and with which labels, the resource each object is written
 * to, the `netpol-ctrl` label, and Mutate's one create, update or delete.
 */
module Object {
  import opened Kube
  import opened Cluster
  import opened NetworkPolicy

  /** The owner kinds under which a Pod is managed by a controller and therefore skipped. */
  predicate IsControllerOwnerKind(kind: string) {
    kind == "ReplicaSet" || kind == "Deployment" || kind == "StatefulSet" || kind == "DaemonSet"
  }

  /** The kind of the first owner reference that is a controller, if any. */
  function ControllerOwner(owners: seq<OwnerRef>): (r: Option<string>)
    ensures r.None? <==> forall i :: 0 <= i < |owners| ==> !IsControllerOwnerKind(owners[i].kind)
    ensures r.Some? ==> exists i :: (0 <= i < |owners| && owners[i].kind == r.value && IsControllerOwnerKind(r.value)
      && forall j :: 0 <= j < i ==> !IsControllerOwnerKind(owners[j].kind))
  {
    if owners == [] then None
    else if IsControllerOwnerKind(owners[0].kind) then Some(owners[0].kind)
    else
      var rest := ControllerOwner(owners[1..]);
      assert forall j :: 1 <= j < |owners| ==> owners[j] == owners[1..][j - 1];
      rest
  }

  /**
   * What ConvertToMeta returns for an object: nil and unsupported types are errors, a Pod owned
   * by a controller is skipped, any other Pod gives its metadata labels, and a Deployment,
   * StatefulSet or DaemonSet its spec selector.
   */
  function MetaLabels(obj: Workload?): Result<Labels>
    reads obj
  {
    if obj == null then Err(NilObject)
    else match obj.kind
      case Pod =>
        (match ControllerOwner(obj.owners)
         case Some(kind) => Err(OwnedPod(kind))
         case None => Ok(obj.labels))
      case Deployment => Ok(obj.selector)
      case StatefulSet => Ok(obj.selector)
      case DaemonSet => Ok(obj.selector)
      case _ => Err(TypeNotSupported)
  }

  /** ConvertToMeta: the type switch, with the loop over a Pod's owner references. */
  method ConvertToMeta(obj: Workload?) returns (r: Result<Labels>)
    ensures r == MetaLabels(obj)
    ensures obj == null ==> r == Err(NilObject)
    ensures obj != null && !IsWorkloadKind(obj.kind) ==> r == Err(TypeNotSupported)
    ensures obj != null && obj.kind == Pod ==>
      && (r.Ok? <==> forall i :: 0 <= i < |obj.owners| ==> !IsControllerOwnerKind(obj.owners[i].kind))
      && (r.Ok? ==> r.value == obj.labels)
      && (r.Err? ==> r.error.OwnedPod? && IsControllerOwnerKind(r.error.ownerKind))
    ensures obj != null && obj.kind in {Deployment, StatefulSet, DaemonSet} ==> r == Ok(obj.selector)
  {
    if obj == null {
      return Err(NilObject);
    }
    match obj.kind
    case Pod =>
      var i := 0;
      while i < |obj.owners|
        invariant 0 <= i <= |obj.owners|
        invariant forall j :: 0 <= j < i ==> !IsControllerOwnerKind(obj.owners[j].kind)
      {
        var or := obj.owners[i];
        if or.kind == "ReplicaSet" || or.kind == "Deployment" || or.kind == "StatefulSet" || or.kind == "DaemonSet" {
          FirstControllerOwner(obj.owners, i);
          return Err(OwnedPod(or.kind));
        }
        i := i + 1;
      }
      return Ok(obj.labels);
    case Deployment => return Ok(obj.selector);
    case StatefulSet => return Ok(obj.selector);
    case DaemonSet => return Ok(obj.selector);
    case _ => return Err(TypeNotSupported);
  }

  /** The first controller owner found by a scan from the front is the one ControllerOwner names. */
  lemma {:induction false} FirstControllerOwner(owners: seq<OwnerRef>, i: nat)
    requires i < |owners| && IsControllerOwnerKind(owners[i].kind)
    requires forall j :: 0 <= j < i ==> !IsControllerOwnerKind(owners[j].kind)
    ensures ControllerOwner(owners) == Some(owners[i].kind)
  {
    if i > 0 {
      FirstControllerOwner(owners[1..], i - 1);
    }
  }

  /** What an object handler writes: a workload or a policy. */
  datatype Target = WorkloadTarget(w: Workload) | PolicyTarget(p: Policy)

  /** getGVR: the resource each supported object type is written to. */
  function GetGVR(t: Target): (r: Result<GVR>)
    ensures r.Ok? <==> t.PolicyTarget? || IsWorkloadKind(t.w.kind)
    ensures r.Err? ==> r.error == UnsupportedResource
    ensures t.WorkloadTarget? && r.Ok? ==> r.value != PolicyGVR
  {
    match t
    case PolicyTarget(_) => Ok(PolicyGVR)
    case WorkloadTarget(w) =>
      match w.kind
      case Pod => Ok(GVR("", "v1", "pods"))
      case Deployment => Ok(GVR("apps", "v1", "deployments"))
      case StatefulSet => Ok(GVR("apps", "v1", "statefulsets"))
      case DaemonSet => Ok(GVR("apps", "v1", "daemonsets"))
      case _ => Err(UnsupportedResource)
  }

  /** Different workload kinds are written to different resources. */
  lemma GVRInjective(a: Target, b: Target)
    requires a.WorkloadTarget? && b.WorkloadTarget? && GetGVR(a).Ok? && GetGVR(a) == GetGVR(b)
    ensures a.w.kind == b.w.kind
  {
  }

  /** The label AddLabel sets: `netpol-ctrl` = `<name>-<namespace>`. */
  function NetpolLabel(w: Workload): Labels {
    map["netpol-ctrl" := w.name + "-" + w.namespace]
  }

  /** An object handler: the store it writes to and the object it writes. */
  class Handler {
    const store: Store
    const obj: Target

    /** NewHandler. */
    constructor (store: Store, obj: Target)
      ensures this.store == store && this.obj == obj
    {
      this.store := store;
      this.obj := obj;
    }

    /** The memory the written form of the object depends on. */
    function Footprint(): set<object>
      reads if obj.PolicyTarget? then {obj.p} else {}
    {
      match obj
      case WorkloadTarget(w) => {w}
      case PolicyTarget(p) => p.Repr()
    }

    /**
     * The write call Mutate issues for `action` once the resource is known: create and update
     * send the object, delete only its name.
     */
    function Request(action: Action, gvr: GVR): Write
      reads Footprint()
    {
      match obj
      case WorkloadTarget(w) =>
        Write(action, gvr, w.namespace, w.name, if action == Delete then NameOnly else LabelsBody(w.labels))
      case PolicyTarget(p) =>
        Write(action, gvr, p.namespace, p.name, if action == Delete then NameOnly else PolicyBody(p.Value()))
    }

    /**
     * Mutate: no resource for the object is an error without any call to the store; otherwise
     * exactly the one write the action names, whose refusal is an error.
     */
    method Mutate(action: Action) returns (err: Option<Error>)
      modifies store
      ensures unchanged(Footprint())
      ensures GetGVR(obj).Err? ==> err == Some(UnsupportedResource) && unchanged(store)
      ensures GetGVR(obj).Ok? ==> var w := old(Request(action, GetGVR(obj).value));
        && store.writes == old(store.writes) + [w]
        && store.services == old(store.services) && store.unreachable == old(store.unreachable)
        && (err.None? <==> old(store.After(w)).Some?)
        && (err.Some? ==> err.value == WriteFailed(action))
        && (err.None? ==> (store.objects, store.policies) == old(store.After(w)).value)
        && (err.Some? ==> store.objects == old(store.objects) && store.policies == old(store.policies))
    {
      assert store !in Footprint();
      var gvr := GetGVR(obj);
      if gvr.Err? {
        return Some(UnsupportedResource);
      }
      var w := Request(action, gvr.value);
      var accepted := store.Apply(w);
      if !accepted {
        return Some(WriteFailed(action));
      }
      return None;
    }

    /**
     * AddLabel: the workload's labels become exactly the `netpol-ctrl` label, which is then
     * written with one update; a refused update is an error.
     */
    method AddLabel() returns (err: Option<Error>)
      requires obj.WorkloadTarget?
      modifies obj.w, store
      ensures obj.w.labels == NetpolLabel(obj.w)
      ensures GetGVR(obj).Err? ==> err == Some(UnsupportedResource) && unchanged(store)
      ensures GetGVR(obj).Ok? ==>
        var w := Write(Update, GetGVR(obj).value, obj.w.namespace, obj.w.name, LabelsBody(NetpolLabel(obj.w)));
        && store.writes == old(store.writes) + [w]
        && store.services == old(store.services) && store.unreachable == old(store.unreachable)
        && (err.None? <==> old(store.After(w)).Some?)
        && (err.Some? ==> err.value == WriteFailed(Update))
        && (err.None? ==> (store.objects, store.policies) == old(store.After(w)).value)
        && (err.Some? ==> store.objects == old(store.objects) && store.policies == old(store.policies))
    {
      obj.w.labels := NetpolLabel(obj.w);
      err := Mutate(Update);
    }
  }
}
