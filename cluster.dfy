/**
 * The cluster API as the controller sees it: an in-memory object store with the lookups the
 * controller performs and a log of every write call it issues.
 */
module Cluster {
  import opened Kube

  /** The outcome of a lookup: the object, "not found", or any other API failure. */
  datatype Lookup<T> = Found(value: T) | Missing | Unreachable

  datatype ObjKey = ObjKey(resource: string, namespace: string, name: string)

  const PolicyGVR := GVR("networking.k8s.io", "v1", "networkpolicies")

  function FindByName(ps: seq<PolicyValue>, name: string): (r: Option<nat>)
    ensures r.Some? ==> r.value < |ps| && ps[r.value].name == name
    ensures r.Some? ==> forall j :: 0 <= j < r.value ==> ps[j].name != name
    ensures r.None? ==> forall i :: 0 <= i < |ps| ==> ps[i].name != name
  {
    if ps == [] then None
    else if ps[0].name == name then Some(0)
    else
      match FindByName(ps[1..], name)
      case None => None
      case Some(i) => Some(i + 1)
  }

  /** The policies of one namespace after a write to the policy resource, or None if refused. */
  function PolicyWrite(ps: seq<PolicyValue>, w: Write): Option<seq<PolicyValue>> {
    match w.action
    case Create =>
      if w.body.PolicyBody? && FindByName(ps, w.name).None? then Some(ps + [w.body.policy]) else None
    case Update =>
      if w.body.PolicyBody? && FindByName(ps, w.name).Some? then Some(ps[FindByName(ps, w.name).value := w.body.policy]) else None
    case Delete =>
      if FindByName(ps, w.name).Some? then
        var i := FindByName(ps, w.name).value; Some(ps[..i] + ps[i + 1..])
      else None
  }

  /** A name missing from a list is found, at the end, once a policy of that name is appended. */
  lemma {:induction false} FindAppended(ps: seq<PolicyValue>, v: PolicyValue)
    requires FindByName(ps, v.name).None?
    ensures FindByName(ps + [v], v.name) == Some(|ps|)
  {
    if ps != [] {
      assert (ps + [v])[1..] == ps[1..] + [v];
      FindAppended(ps[1..], v);
    }
  }

  /** Replacing the policy a name is found at by one of the same name keeps it found there. */
  lemma {:induction false} FindReplaced(ps: seq<PolicyValue>, i: nat, v: PolicyValue)
    requires FindByName(ps, v.name) == Some(i)
    ensures FindByName(ps[i := v], v.name) == Some(i)
  {
    if i > 0 {
      assert ps[i := v][1..] == ps[1..][i - 1 := v];
      FindReplaced(ps[1..], i - 1, v);
    }
  }

  /**
   * A create of a policy the namespace does not hold yet makes it findable by name; an update
   * replaces the policy of that name in place; a delete removes exactly one policy of that name.
   */
  lemma PolicyWriteEffect(ps: seq<PolicyValue>, w: Write)
    requires PolicyWrite(ps, w).Some?
    ensures var next := PolicyWrite(ps, w).value;
      && (w.action == Create ==>
            w.body.PolicyBody? && w.body.policy.name == w.name ==> FindByName(next, w.name) == Some(|ps|) && next[|ps|] == w.body.policy)
      && (w.action == Update ==>
            w.body.PolicyBody? && w.body.policy.name == w.name ==>
            FindByName(next, w.name) == FindByName(ps, w.name) && next[FindByName(ps, w.name).value] == w.body.policy)
      && (w.action == Delete ==> |next| + 1 == |ps| && multiset(next) + multiset{ps[FindByName(ps, w.name).value]} == multiset(ps))
  {
    var next := PolicyWrite(ps, w).value;
    match w.action
    case Create =>
      if w.body.PolicyBody? && w.body.policy.name == w.name {
        FindAppended(ps, w.body.policy);
      }
    case Update =>
      if w.body.PolicyBody? && w.body.policy.name == w.name {
        FindReplaced(ps, FindByName(ps, w.name).value, w.body.policy);
      }
    case Delete =>
      var i := FindByName(ps, w.name).value;
      assert ps == ps[..i] + [ps[i]] + ps[i + 1..];
  }

  /** The labelled objects after a write to any other resource, or None if refused. */
  function ObjectWrite(objects: map<ObjKey, Labels>, w: Write): Option<map<ObjKey, Labels>> {
    var key := ObjKey(w.gvr.resource, w.namespace, w.name);
    match w.action
    case Create => if w.body.LabelsBody? && key !in objects then Some(objects[key := w.body.labels]) else None
    case Update => if w.body.LabelsBody? && key in objects then Some(objects[key := w.body.labels]) else None
    case Delete => if key in objects then Some(objects - {key}) else None
  }

  /** Everything a store holds, as one value. */
  datatype StoreState = StoreState(objects: map<ObjKey, Labels>, services: map<(string, string), Labels>,
                                   policies: map<string, seq<PolicyValue>>, unreachable: set<string>, writes: seq<Write>)
  {
    /**
     * The labelled objects and the policies after the API accepts `w`, or None if it refuses it:
     * a write to an unreachable namespace fails, a write to the policy resource goes to that
     * namespace's policies, and any other to the objects.
     */
    function After(w: Write): (r: Option<(map<ObjKey, Labels>, map<string, seq<PolicyValue>>)>)
      ensures w.namespace in unreachable ==> r.None?
      ensures w.gvr == PolicyGVR && r.Some? ==> r.value.0 == objects
      ensures w.gvr != PolicyGVR && r.Some? ==> r.value.1 == policies
    {
      if w.namespace in unreachable then None
      else if w.gvr == PolicyGVR then
        var ps := if w.namespace in policies then policies[w.namespace] else [];
        match PolicyWrite(ps, w)
        case None => None
        case Some(next) => Some((objects, policies[w.namespace := next]))
      else
        match ObjectWrite(objects, w)
        case None => None
        case Some(next) => Some((next, policies))
    }

    /** The state once the API has accepted `w`: the write logged and applied. */
    function Accepted(w: Write): StoreState
      requires After(w).Some?
    {
      StoreState(After(w).value.0, services, After(w).value.1, unreachable, writes + [w])
    }
  }

  class Store {
    /** Metadata labels of the stored pods and workloads, keyed by resource, namespace and name. */
    var objects: map<ObjKey, Labels>
    /** Spec.Selector of the stored services, keyed by namespace and name. */
    var services: map<(string, string), Labels>
    /** The NetworkPolicies of each namespace, in list order. */
    var policies: map<string, seq<PolicyValue>>
    /** Namespaces whose reads fail with an error other than "not found". */
    var unreachable: set<string>
    /** Every write call issued, in order, whether or not the API accepted it. */
    var writes: seq<Write>

    constructor (objects: map<ObjKey, Labels>, services: map<(string, string), Labels>,
                 policies: map<string, seq<PolicyValue>>, unreachable: set<string>)
      ensures this.objects == objects && this.services == services
      ensures this.policies == policies && this.unreachable == unreachable
      ensures writes == []
    {
      this.objects := objects;
      this.services := services;
      this.policies := policies;
      this.unreachable := unreachable;
      this.writes := [];
    }

    function State(): StoreState
      reads this
    {
      StoreState(objects, services, policies, unreachable, writes)
    }

    /** CoreV1().Pods(namespace).Get(name): the pod's metadata labels. */
    function GetPod(namespace: string, name: string): Lookup<Labels>
      reads this
    {
      if namespace in unreachable then Unreachable
      else if ObjKey("pods", namespace, name) in objects then Found(objects[ObjKey("pods", namespace, name)])
      else Missing
    }

    /** CoreV1().Services(namespace).Get(name): the service's selector. */
    function GetService(namespace: string, name: string): Lookup<Labels>
      reads this
    {
      if namespace in unreachable then Unreachable
      else if (namespace, name) in services then Found(services[(namespace, name)])
      else Missing
    }

    /** NetworkingV1().NetworkPolicies(namespace).List(). */
    function ListPolicies(namespace: string): Lookup<seq<PolicyValue>>
      reads this
    {
      if namespace in unreachable then Unreachable
      else Found(if namespace in policies then policies[namespace] else [])
    }

    /** The objects and policies after the API accepts `w`, or None if it refuses it (see StoreState.After). */
    function After(w: Write): (r: Option<(map<ObjKey, Labels>, map<string, seq<PolicyValue>>)>)
      reads this
      ensures w.namespace in unreachable ==> r.None?
      ensures w.gvr == PolicyGVR && r.Some? ==> r.value.0 == objects
      ensures w.gvr != PolicyGVR && r.Some? ==> r.value.1 == policies
    {
      State().After(w)
    }

    /**
     * The store after `w` was issued on a store that held `s0`: the write is logged and applied
     * exactly when the API accepts it, and a refusal is `WriteFailed` of its action.
     */
    ghost predicate Issued(s0: StoreState, w: Write, err: Option<Error>)
      reads this
    {
      && writes == s0.writes + [w] && services == s0.services && unreachable == s0.unreachable
      && (err.None? <==> s0.After(w).Some?)
      && (err.None? ==> State() == s0.Accepted(w))
      && (err.Some? ==> err == Some(WriteFailed(w.action)) && objects == s0.objects && policies == s0.policies)
    }

    /** Issues one write call: it is logged, and applied when the API accepts it. */
    method Apply(w: Write) returns (accepted: bool)
      modifies this
      ensures writes == old(writes) + [w]
      ensures services == old(services) && unreachable == old(unreachable)
      ensures accepted == old(After(w)).Some?
      ensures accepted ==> (objects, policies) == old(After(w)).value
      ensures !accepted ==> objects == old(objects) && policies == old(policies)
    {
      writes := writes + [w];
      if w.namespace in unreachable {
        accepted := false;
      } else if w.gvr == PolicyGVR {
        var ps := if w.namespace in policies then policies[w.namespace] else [];
        var next := PolicyWrite(ps, w);
        accepted := next.Some?;
        if accepted {
          policies := policies[w.namespace := next.value];
        }
      } else {
        var next := ObjectWrite(objects, w);
        accepted := next.Some?;
        if accepted {
          objects := next.value;
        }
      }
    }
  }
}
