/**
 * Building, extending, purging and finding NetworkPolicies (handlers/networkpolicy/networkpolicy.go).
 * Peers point at selectors, as in the API types: two peers are equal when they point at the same
 * selector, and purging edits selectors in place, so every peer sharing one sees the edit.
 */
module NetworkPolicy {
  import opened Kube
  import opened Seqs
  import opened Attribute
  import opened Cluster

  /** A metav1.LabelSelector; only its MatchExpressions are edited in place. */
  class Selector {
    var matchExpressions: seq<Requirement>

    constructor (reqs: seq<Requirement>)
      ensures matchExpressions == reqs
    {
      matchExpressions := reqs;
    }
  }

  /** A NetworkPolicyPeer: its PodSelector pointer, which may be nil. */
  datatype Peer = Peer(podSelector: Selector?)

  /** The selectors the peers point at. */
  function Selectors(peers: seq<Peer>): set<Selector> {
    set i | 0 <= i < |peers| && peers[i].podSelector != null :: peers[i].podSelector
  }

  lemma SelectorsAppend(peers: seq<Peer>, p: Peer)
    ensures Selectors(peers + [p]) == Selectors(peers) + (if p.podSelector == null then {} else {p.podSelector})
  {
    var all := peers + [p];
    forall s | s in Selectors(all) ensures s in Selectors(peers) + (if p.podSelector == null then {} else {p.podSelector}) {
      var i :| 0 <= i < |all| && all[i].podSelector == s;
      if i < |peers| { assert all[i] == peers[i]; }
    }
    forall s | s in Selectors(peers) ensures s in Selectors(all) {
      var i :| 0 <= i < |peers| && peers[i].podSelector == s;
      assert all[i] == peers[i];
    }
    if p.podSelector != null {
      assert all[|peers|] == p;
    }
  }

  /** The selectors of every peer of every rule. */
  function RulesSelectors(rules: seq<seq<Peer>>): set<Selector> {
    set i, s | 0 <= i < |rules| && s in Selectors(rules[i]) :: s
  }

  /** The selectors of the first peer of every rule: the ones the purge edits. */
  function FirstSelectors(rules: seq<seq<Peer>>): set<Selector> {
    set i | 0 <= i < |rules| && |rules[i]| > 0 && rules[i][0].podSelector != null :: rules[i][0].podSelector
  }

  /** The stored form of a list of peers. */
  function PeersValue(peers: seq<Peer>): seq<PeerValue>
    reads Selectors(peers)
  {
    if peers == [] then []
    else
      var last := peers[|peers| - 1];
      PeersValue(peers[..|peers| - 1])
        + [if last.podSelector == null then PeerValue(None) else PeerValue(Some(last.podSelector.matchExpressions))]
  }

  /** The stored form of a list of rules. */
  function RulesValue(rules: seq<seq<Peer>>): seq<seq<PeerValue>>
    reads RulesSelectors(rules)
  {
    if rules == [] then []
    else
      assert Selectors(rules[|rules| - 1]) <= RulesSelectors(rules);
      RulesValue(rules[..|rules| - 1]) + [PeersValue(rules[|rules| - 1])]
  }

  /** Every stored peer list has its peers' values, one per peer. */
  lemma {:induction false} PeersValueLength(peers: seq<Peer>)
    ensures |PeersValue(peers)| == |peers|
  {
    if peers != [] {
      PeersValueLength(peers[..|peers| - 1]);
    }
  }

  /** Stored rules keep the number of rules and the number of peers of each. */
  lemma {:induction false} RulesValueShape(rules: seq<seq<Peer>>)
    ensures |RulesValue(rules)| == |rules|
    ensures forall i :: 0 <= i < |rules| ==> |RulesValue(rules)[i]| == |rules[i]|
  {
    if rules != [] {
      var init := rules[..|rules| - 1];
      RulesValueShape(init);
      PeersValueLength(rules[|rules| - 1]);
      forall i | 0 <= i < |rules| - 1 ensures |RulesValue(rules)[i]| == |rules[i]| {
        assert RulesValue(rules)[i] == RulesValue(init)[i] && init[i] == rules[i];
      }
    }
  }

  /** The stored form of two lists of rules one after the other. */
  lemma {:induction false} RulesValueConcat(a: seq<seq<Peer>>, b: seq<seq<Peer>>)
    ensures RulesValue(a + b) == RulesValue(a) + RulesValue(b)
  {
    if b == [] {
      assert a + b == a;
    } else {
      var init := b[..|b| - 1];
      RulesValueConcat(a, init);
      assert (a + b)[..|a + b| - 1] == a + init;
      assert (a + b)[|a + b| - 1] == b[|b| - 1];
    }
  }

  /** The stored forms of two lists of rules, read off the stored form of both together. */
  lemma RulesValueSplit(a: seq<seq<Peer>>, b: seq<seq<Peer>>)
    ensures |RulesValue(a + b)| == |a| + |b|
    ensures RulesValue(a) == RulesValue(a + b)[..|a|] && RulesValue(b) == RulesValue(a + b)[|a|..]
  {
    RulesValueConcat(a, b);
    RulesValueShape(a);
    RulesValueShape(b);
  }

  /** The stored form of two lists of rules followed by two more peer lists, part by part. */
  lemma RulesValueParts(a: seq<seq<Peer>>, b: seq<seq<Peer>>, c: seq<Peer>, d: seq<Peer>)
    ensures RulesValue(a + b + [c, d]) == RulesValue(a) + RulesValue(b) + [PeersValue(c), PeersValue(d)]
    ensures |RulesValue(a)| == |a| && |RulesValue(b)| == |b|
    ensures var v := RulesValue(a + b + [c, d]);
      && RulesValue(a) == v[..|a|] && RulesValue(b) == v[|a|..|a| + |b|]
      && PeersValue(c) == v[|a| + |b|] && PeersValue(d) == v[|a| + |b| + 1]
  {
    RulesValueConcat(a + b, [c, d]);
    RulesValueConcat(a, b);
    RulesValueShape(a);
    RulesValueShape(b);
    assert RulesValue([c]) == [PeersValue(c)] by {
      assert [c][..0] == [];
    }
    assert RulesValue([c, d]) == [PeersValue(c), PeersValue(d)] by {
      assert [c, d][..1] == [c];
    }
  }

  /** The first selectors are among all the selectors of the rules. */
  lemma FirstSelectorsInRules(rules: seq<seq<Peer>>)
    ensures FirstSelectors(rules) <= RulesSelectors(rules)
  {
    forall s | s in FirstSelectors(rules) ensures s in RulesSelectors(rules) {
      var i :| 0 <= i < |rules| && |rules[i]| > 0 && rules[i][0].podSelector == s;
      assert s in Selectors(rules[i]);
    }
  }

  /**
   * A networkingv1.NetworkPolicy held in memory: each ingress rule is its `From` peer list and
   * each egress rule its `To` peer list.
   */
  class Policy {
    var name: string
    var namespace: string
    var matchLabels: Labels
    var ingress: seq<seq<Peer>>
    var egress: seq<seq<Peer>>
    var policyTypes: seq<PolicyType>

    constructor (name: string, namespace: string, matchLabels: Labels,
                 ingress: seq<seq<Peer>>, egress: seq<seq<Peer>>, policyTypes: seq<PolicyType>)
      ensures this.name == name && this.namespace == namespace && this.matchLabels == matchLabels
      ensures this.ingress == ingress && this.egress == egress && this.policyTypes == policyTypes
    {
      this.name := name;
      this.namespace := namespace;
      this.matchLabels := matchLabels;
      this.ingress := ingress;
      this.egress := egress;
      this.policyTypes := policyTypes;
    }

    /** The policy object and every selector its rules point at. */
    function Repr(): set<object>
      reads this
    {
      {this} + RulesSelectors(ingress) + RulesSelectors(egress)
    }

    /** What the API stores when this policy is sent to it. */
    function Value(): PolicyValue
      reads this, RulesSelectors(ingress), RulesSelectors(egress)
    {
      PolicyValue(name, namespace, matchLabels, RulesValue(ingress), RulesValue(egress), policyTypes)
    }

    /** Sets the pod selector's labels; the stored form of the rules stays as it was. */
    method SetMatchLabels(labels: Labels)
      modifies this
      ensures matchLabels == labels && ingress == old(ingress) && egress == old(egress)
      ensures name == old(name) && namespace == old(namespace) && policyTypes == old(policyTypes)
      ensures RulesValue(ingress) == old(RulesValue(ingress)) && RulesValue(egress) == old(RulesValue(egress))
    {
      ghost var keep: set<object> := RulesSelectors(ingress) + RulesSelectors(egress);
      assert this !in keep;
      matchLabels := labels;
    }
  }

  // ---------------------------------------------------------------------------------------------
  // Purging the requirements of old labels

  /** A requirement on one of the old keys that lists one of that key's old values. */
  predicate Stale(req: Requirement, oldLabels: Multimap) {
    req.key in oldLabels && exists v :: v in oldLabels[req.key] && v in req.values
  }

  /** isInOldLabels: whether some old value of the requirement's key is among its values. */
  method IsInOldLabels(req: Requirement, oldLabels: Multimap) returns (r: bool)
    ensures r <==> Stale(req, oldLabels)
  {
    if req.key !in oldLabels {
      return false;
    }
    var oldVals := oldLabels[req.key];
    var i := 0;
    while i < |oldVals|
      invariant 0 <= i <= |oldVals|
      invariant forall i' :: 0 <= i' < i ==> oldVals[i'] !in req.values
    {
      var j := 0;
      while j < |req.values|
        invariant 0 <= j <= |req.values|
        invariant forall j' :: 0 <= j' < j ==> req.values[j'] != oldVals[i]
      {
        if oldVals[i] == req.values[j] {
          assert oldVals[i] in oldVals && req.values[j] in req.values;
          return true;
        }
        j := j + 1;
      }
      i := i + 1;
    }
    return false;
  }

  /** The requirements that are not stale, in their order. */
  function Purged(reqs: seq<Requirement>, oldLabels: Multimap): seq<Requirement> {
    if reqs == [] then []
    else
      var last := reqs[|reqs| - 1];
      Purged(reqs[..|reqs| - 1], oldLabels) + (if Stale(last, oldLabels) then [] else [last])
  }

  /** The purge keeps exactly the requirements that are not stale. */
  lemma {:induction false} PurgedMembers(reqs: seq<Requirement>, oldLabels: Multimap)
    ensures forall r :: r in Purged(reqs, oldLabels) <==> r in reqs && !Stale(r, oldLabels)
    decreases |reqs|
  {
    if reqs != [] {
      var init := reqs[..|reqs| - 1];
      PurgedMembers(init, oldLabels);
      assert reqs == init + [reqs[|reqs| - 1]];
    }
  }

  /** A list without stale requirements is left as it is. */
  lemma {:induction false} PurgedKeepsClean(reqs: seq<Requirement>, oldLabels: Multimap)
    requires forall i :: 0 <= i < |reqs| ==> !Stale(reqs[i], oldLabels)
    ensures Purged(reqs, oldLabels) == reqs
    decreases |reqs|
  {
    if reqs != [] {
      var init := reqs[..|reqs| - 1];
      PurgedKeepsClean(init, oldLabels);
      assert reqs == init + [reqs[|reqs| - 1]];
    }
  }

  /** Without old labels nothing is purged. */
  lemma PurgedNothingOld(reqs: seq<Requirement>)
    ensures Purged(reqs, map[]) == reqs
  {
    PurgedKeepsClean(reqs, map[]);
  }

  /** Purging twice is purging once. */
  lemma PurgedIdempotent(reqs: seq<Requirement>, oldLabels: Multimap)
    ensures Purged(Purged(reqs, oldLabels), oldLabels) == Purged(reqs, oldLabels)
  {
    PurgedMembers(reqs, oldLabels);
    PurgedKeepsClean(Purged(reqs, oldLabels), oldLabels);
  }

  lemma FirstSelectorsPrefix(rules: seq<seq<Peer>>, i: nat)
    requires i < |rules| && |rules[i]| > 0
    ensures FirstSelectors(rules[..i + 1]) ==
      FirstSelectors(rules[..i]) + (if rules[i][0].podSelector == null then {} else {rules[i][0].podSelector})
  {
    var pre := rules[..i + 1];
    assert forall j :: 0 <= j < i ==> pre[j] == rules[..i][j];
  }

  /** The inner loop of the rule update: the requirements that are not stale, in their order. */
  method PurgeRequirements(reqs: seq<Requirement>, oldLabels: Multimap) returns (updated: seq<Requirement>)
    ensures updated == Purged(reqs, oldLabels)
  {
    updated := [];
    var j := 0;
    while j < |reqs|
      invariant 0 <= j <= |reqs|
      invariant updated == Purged(reqs[..j], oldLabels)
    {
      assert reqs[..j + 1][..j] == reqs[..j];
      var stale := IsInOldLabels(reqs[j], oldLabels);
      if !stale {
        updated := updated + [reqs[j]];
      }
      j := j + 1;
    }
    assert reqs[..j] == reqs;
  }

  /**
   * updateIngressRules / updateEgressRules: in every rule, the first peer's selector, when it has
   * one, loses its stale requirements. A selector shared by several rules is purged once in effect.
   */
  method UpdateRules(oldLabels: Multimap, rules: seq<seq<Peer>>)
    requires forall i :: 0 <= i < |rules| ==> |rules[i]| > 0
    modifies FirstSelectors(rules)
    ensures forall s :: s in FirstSelectors(rules) ==> s.matchExpressions == Purged(old(s.matchExpressions), oldLabels)
  {
    var i := 0;
    ghost var done: set<Selector> := {};
    while i < |rules|
      invariant 0 <= i <= |rules|
      invariant done == FirstSelectors(rules[..i])
      invariant forall s :: s in FirstSelectors(rules) ==>
        s.matchExpressions == if s in done then Purged(old(s.matchExpressions), oldLabels) else old(s.matchExpressions)
    {
      FirstSelectorsPrefix(rules, i);
      var sel := rules[i][0].podSelector;
      if sel != null {
        assert sel in FirstSelectors(rules);
        var updated := PurgeRequirements(sel.matchExpressions, oldLabels);
        PurgedIdempotent(old(sel.matchExpressions), oldLabels);
        sel.matchExpressions := updated;
        done := done + {sel};
      }
      i := i + 1;
    }
    assert rules[..i] == rules;
  }

  /**
   * UpdateRules on rules read back from the API, which share no selector (see Unshared): the
   * rules then store the purged rules (see PurgedRules), every peer after the first unchanged.
   */
  method PurgeRules(oldLabels: Multimap, rules: seq<seq<Peer>>)
    requires forall i :: 0 <= i < |rules| ==> |rules[i]| > 0
    modifies FirstSelectors(rules)
    ensures forall s :: s in FirstSelectors(rules) ==> s.matchExpressions == Purged(old(s.matchExpressions), oldLabels)
    ensures Unshared(rules) ==> StoresAt(rules, PurgedRules(old(RulesValue(rules)), oldLabels))
  {
    ghost var vs := RulesValue(rules);
    StoresAtValue(rules, vs);
    UpdateRules(oldLabels, rules);
    if Unshared(rules) {
      PurgedRulesShape(vs, oldLabels);
      forall i, j | 0 <= i < |rules| && 0 <= j < |rules[i]| ensures PurgedRules(vs, oldLabels)[i][j] == PeerValueOf(rules[i][j]) {
        var s := rules[i][j].podSelector;
        if s != null {
          if j > 0 {
            OnlyFirst(rules, i, j);
            assert s.matchExpressions == old(s.matchExpressions);
          } else {
            assert s in FirstSelectors(rules);
          }
        }
      }
    }
  }

  /** RemoveOldLabels: purges the first peer of every ingress rule, then of every egress rule. */
  method RemoveOldLabels(oldLabels: Multimap, ingressRules: seq<seq<Peer>>, egressRules: seq<seq<Peer>>)
    requires forall i :: 0 <= i < |ingressRules| ==> |ingressRules[i]| > 0
    requires forall i :: 0 <= i < |egressRules| ==> |egressRules[i]| > 0
    modifies FirstSelectors(ingressRules) + FirstSelectors(egressRules)
    ensures forall s :: s in FirstSelectors(ingressRules) + FirstSelectors(egressRules) ==>
      s.matchExpressions == Purged(old(s.matchExpressions), oldLabels)
    ensures Apart(ingressRules, egressRules) ==>
      && RulesValue(ingressRules) == PurgedRules(old(RulesValue(ingressRules)), oldLabels)
      && RulesValue(egressRules) == PurgedRules(old(RulesValue(egressRules)), oldLabels)
  {
    ghost var apart := Apart(ingressRules, egressRules);
    ghost var vi, ve := RulesValue(ingressRules), RulesValue(egressRules);
    if apart {
      FirstSelectorsInRules(ingressRules);
      FirstSelectorsInRules(egressRules);
    }
    PurgeRules(oldLabels, ingressRules);
    if apart {
      StoresAtValue(ingressRules, PurgedRules(vi, oldLabels));
      assert RulesValue(egressRules) == ve;
    }
    ghost var ri := RulesValue(ingressRules);
    PurgeRules(oldLabels, egressRules);
    if apart {
      assert RulesValue(ingressRules) == ri;
      StoresAtValue(egressRules, PurgedRules(ve, oldLabels));
    }
    forall s | s in FirstSelectors(ingressRules) + FirstSelectors(egressRules)
      ensures s.matchExpressions == Purged(old(s.matchExpressions), oldLabels)
    {
      PurgedIdempotent(old(s.matchExpressions), oldLabels);
    }
  }

  /**
   * The purge of handleLabelChange: both label sets become label multimaps, and the old labels'
   * requirements are taken out of the first peer of every rule; for rules read back from the
   * API (see Apart) the stored rules become the purged ones (see PurgedRules).
   */
  method PurgeOldLabels(oldLabels: Labels, newLabels: Labels, ingressRules: seq<seq<Peer>>, egressRules: seq<seq<Peer>>)
    returns (convNewLabels: Multimap)
    requires forall i :: 0 <= i < |ingressRules| ==> |ingressRules[i]| > 0
    requires forall i :: 0 <= i < |egressRules| ==> |egressRules[i]| > 0
    modifies FirstSelectors(ingressRules) + FirstSelectors(egressRules)
    ensures convNewLabels == Lifted(newLabels) && convNewLabels.Keys == newLabels.Keys
    ensures forall s :: s in FirstSelectors(ingressRules) + FirstSelectors(egressRules) ==>
      s.matchExpressions == Purged(old(s.matchExpressions), Lifted(oldLabels))
    ensures Apart(ingressRules, egressRules) ==>
      && RulesValue(ingressRules) == PurgedRules(old(RulesValue(ingressRules)), Lifted(oldLabels))
      && RulesValue(egressRules) == PurgedRules(old(RulesValue(egressRules)), Lifted(oldLabels))
  {
    convNewLabels := ConvertLabels(newLabels);
    var convOldLabels := ConvertLabels(oldLabels);
    RemoveOldLabels(convOldLabels, ingressRules, egressRules);
  }

  /**
   * The first half of handleLabelChange: the pod selector becomes the new labels, and the old
   * labels' requirements are purged (see PurgeOldLabels).
   */
  method Relabel(oldLabels: Labels, newLabels: Labels, p: Policy) returns (convNewLabels: Multimap)
    requires forall i :: 0 <= i < |p.ingress| ==> |p.ingress[i]| > 0
    requires forall i :: 0 <= i < |p.egress| ==> |p.egress[i]| > 0
    modifies p, FirstSelectors(p.ingress) + FirstSelectors(p.egress)
    ensures convNewLabels == Lifted(newLabels) && convNewLabels.Keys == newLabels.Keys
    ensures p.matchLabels == newLabels && p.ingress == old(p.ingress) && p.egress == old(p.egress)
    ensures p.name == old(p.name) && p.namespace == old(p.namespace) && p.policyTypes == old(p.policyTypes)
    ensures forall s :: s in old(FirstSelectors(p.ingress) + FirstSelectors(p.egress)) ==>
      s.matchExpressions == Purged(old(s.matchExpressions), Lifted(oldLabels))
    ensures Apart(p.ingress, p.egress) ==>
      && RulesValue(p.ingress) == PurgedRules(old(RulesValue(p.ingress)), Lifted(oldLabels))
      && RulesValue(p.egress) == PurgedRules(old(RulesValue(p.egress)), Lifted(oldLabels))
  {
    p.SetMatchLabels(newLabels);
    convNewLabels := PurgeOldLabels(oldLabels, newLabels, p.ingress, p.egress);
  }

  // ---------------------------------------------------------------------------------------------
  // The stored form of rules, peer by peer

  /** The stored form of one peer. */
  function PeerValueOf(q: Peer): PeerValue
    reads q.podSelector
  {
    if q.podSelector == null then PeerValue(None) else PeerValue(Some(q.podSelector.matchExpressions))
  }

  /** The selector of a peer of a rule is among the selectors of the rules. */
  lemma SelectorInRules(rules: seq<seq<Peer>>, i: nat, j: nat)
    requires i < |rules| && j < |rules[i]| && rules[i][j].podSelector != null
    ensures rules[i][j].podSelector in Selectors(rules[i]) && rules[i][j].podSelector in RulesSelectors(rules)
  {
  }

  /** The rules currently store `vs`, peer by peer. */
  ghost predicate StoresAt(rules: seq<seq<Peer>>, vs: seq<seq<PeerValue>>)
    reads RulesSelectors(rules)
  {
    && |vs| == |rules|
    && (forall i :: 0 <= i < |rules| ==> |vs[i]| == |rules[i]|)
    && (forall i, j :: 0 <= i < |rules| && 0 <= j < |rules[i]| ==>
          (assert rules[i][j].podSelector != null ==> rules[i][j].podSelector in Selectors(rules[i]);
           assert Selectors(rules[i]) <= RulesSelectors(rules);
           vs[i][j] == PeerValueOf(rules[i][j])))
  }

  /** The stored form of one rule among the rules. */
  lemma {:induction false} RulesValueAt(rules: seq<seq<Peer>>, i: nat)
    requires i < |rules|
    ensures |RulesValue(rules)| == |rules| && RulesValue(rules)[i] == PeersValue(rules[i])
  {
    RulesValueShape(rules);
    var init := rules[..|rules| - 1];
    if i < |init| {
      RulesValueAt(init, i);
      assert init[i] == rules[i];
    }
  }

  /** The rules store `vs` peer by peer exactly when `vs` is their stored form. */
  lemma StoresAtValue(rules: seq<seq<Peer>>, vs: seq<seq<PeerValue>>)
    ensures StoresAt(rules, vs) <==> RulesValue(rules) == vs
  {
    RulesValueShape(rules);
    forall i, j | 0 <= i < |rules| && 0 <= j < |rules[i]| ensures RulesValue(rules)[i][j] == PeerValueOf(rules[i][j]) {
      RulesValueAt(rules, i);
      PeersValueAt(rules[i], j);
    }
    if StoresAt(rules, vs) {
      forall i | 0 <= i < |rules| ensures vs[i] == RulesValue(rules)[i] {
      }
    }
  }

  /** No selector is pointed at twice: not by two peers of a rule, not by two rules. */
  predicate Unshared(rules: seq<seq<Peer>>) {
    && (forall i, j, k :: 0 <= i < |rules| && 0 <= j < k < |rules[i]| && rules[i][j].podSelector != null ==>
          rules[i][j].podSelector != rules[i][k].podSelector)
    && (forall i, i' :: 0 <= i < i' < |rules| ==> Selectors(rules[i]) !! Selectors(rules[i']))
  }

  /**
   * The rules of a policy read back from the API: each side unshared, and no selector pointed
   * at from both sides.
   */
  predicate Apart(ingress: seq<seq<Peer>>, egress: seq<seq<Peer>>) {
    Unshared(ingress) && Unshared(egress) && RulesSelectors(ingress) !! RulesSelectors(egress)
  }

  /** In unshared rules, the selector of a peer after the first is no rule's first selector. */
  lemma OnlyFirst(rules: seq<seq<Peer>>, i: nat, j: nat)
    requires Unshared(rules) && i < |rules| && 0 < j < |rules[i]| && rules[i][j].podSelector != null
    ensures rules[i][j].podSelector !in FirstSelectors(rules)
  {
    var s := rules[i][j].podSelector;
    forall i' | 0 <= i' < |rules| && |rules[i']| > 0 && rules[i'][0].podSelector != null
      ensures rules[i'][0].podSelector != s
    {
      if i' != i {
        SelectorInRules(rules, i, j);
        SelectorInRules(rules, i', 0);
        if i < i' {
          assert Selectors(rules[i]) !! Selectors(rules[i']);
        } else {
          assert Selectors(rules[i']) !! Selectors(rules[i]);
        }
      }
    }
  }

  /** A stored rule with the old labels' requirements taken out of its first peer's selector. */
  function PurgedRule(rule: seq<PeerValue>, oldLabels: Multimap): seq<PeerValue> {
    if |rule| == 0 || rule[0].podSelector.None? then rule
    else [PeerValue(Some(Purged(rule[0].podSelector.value, oldLabels)))] + rule[1..]
  }

  /** Every stored rule purged (see PurgedRule). */
  function PurgedRules(rules: seq<seq<PeerValue>>, oldLabels: Multimap): seq<seq<PeerValue>> {
    seq(|rules|, i requires 0 <= i < |rules| => PurgedRule(rules[i], oldLabels))
  }

  /** Every stored rule followed by the stored peers `added`. */
  function ExtendedRules(rules: seq<seq<PeerValue>>, added: seq<PeerValue>): seq<seq<PeerValue>> {
    seq(|rules|, i requires 0 <= i < |rules| => rules[i] + added)
  }

  /**
   * Purged stored rules keep their number and their peers; only a first peer's requirements
   * change, to those that are not stale.
   */
  lemma PurgedRulesShape(rules: seq<seq<PeerValue>>, oldLabels: Multimap)
    ensures |PurgedRules(rules, oldLabels)| == |rules|
    ensures forall i :: 0 <= i < |rules| ==>
      var r := PurgedRules(rules, oldLabels)[i];
      && |r| == |rules[i]|
      && (|r| > 0 ==> r[1..] == rules[i][1..] && r[0].podSelector.Some? == rules[i][0].podSelector.Some?)
      && (|r| > 0 && r[0].podSelector.Some? ==>
            forall q :: q in r[0].podSelector.value <==> q in rules[i][0].podSelector.value && !Stale(q, oldLabels))
  {
    forall i | 0 <= i < |rules| ensures
      var r := PurgedRules(rules, oldLabels)[i];
      |r| > 0 && r[0].podSelector.Some? ==>
        forall q :: q in r[0].podSelector.value <==> q in rules[i][0].podSelector.value && !Stale(q, oldLabels)
    {
      if |rules[i]| > 0 && rules[i][0].podSelector.Some? {
        PurgedMembers(rules[i][0].podSelector.value, oldLabels);
      }
    }
  }

  // ---------------------------------------------------------------------------------------------
  // Extending the rules of a policy with peers

  /** Every rule with the peers it does not hold yet appended, compared by selector pointer. */
  function ExtendRules(rules: seq<seq<Peer>>, peers: seq<Peer>): seq<seq<Peer>> {
    seq(|rules|, i requires 0 <= i < |rules| => AppendMissing(rules[i], peers))
  }

  /** The loop ExtendPeers runs over one side of the policy: peer by peer, rule by rule. */
  method ExtendRuleList(rules: seq<seq<Peer>>, peers: seq<Peer>) returns (r: seq<seq<Peer>>)
    ensures r == ExtendRules(rules, peers)
  {
    r := rules;
    var j := 0;
    while j < |peers|
      invariant 0 <= j <= |peers|
      invariant r == ExtendRules(rules, peers[..j])
    {
      var pol := peers[j];
      assert peers[..j + 1][..j] == peers[..j];
      var i := 0;
      while i < |r|
        invariant 0 <= i <= |r| && |r| == |rules|
        invariant forall i' :: 0 <= i' < i ==> r[i'] == AppendMissing(rules[i'], peers[..j + 1])
        invariant forall i' :: i <= i' < |r| ==> r[i'] == AppendMissing(rules[i'], peers[..j])
      {
        var present := Contains(r[i], pol);
        if !present {
          r := r[i := r[i] + [pol]];
        }
        i := i + 1;
      }
      j := j + 1;
    }
    assert peers[..j] == peers;
  }

  /** ExtendPeers: both sides of the policy extended; nothing else about it changes. */
  method ExtendPeers(ingressPol: seq<Peer>, egressPol: seq<Peer>, p: Policy)
    modifies p
    ensures p.ingress == ExtendRules(old(p.ingress), ingressPol)
    ensures p.egress == ExtendRules(old(p.egress), egressPol)
    ensures p.name == old(p.name) && p.namespace == old(p.namespace) && p.matchLabels == old(p.matchLabels)
    ensures p.policyTypes == old(p.policyTypes)
  {
    p.ingress := ExtendRuleList(p.ingress, ingressPol);
    p.egress := ExtendRuleList(p.egress, egressPol);
  }

  /** Extending with no peers changes nothing. */
  lemma ExtendRulesNothing(rules: seq<seq<Peer>>)
    ensures ExtendRules(rules, []) == rules
  {
  }

  /** Extending twice with the same peers is extending once. */
  lemma ExtendRulesIdempotent(rules: seq<seq<Peer>>, peers: seq<Peer>)
    ensures ExtendRules(ExtendRules(rules, peers), peers) == ExtendRules(rules, peers)
  {
    forall i | 0 <= i < |rules|
      ensures ExtendRules(ExtendRules(rules, peers), peers)[i] == ExtendRules(rules, peers)[i]
    {
      AppendMissingIdempotent(rules[i], peers);
    }
  }

  /** Every rule keeps its peers as a prefix and afterwards holds every given peer. */
  lemma ExtendRulesKeepsAndAdds(rules: seq<seq<Peer>>, peers: seq<Peer>)
    ensures |ExtendRules(rules, peers)| == |rules|
    ensures forall i :: 0 <= i < |rules| ==>
      |ExtendRules(rules, peers)[i]| >= |rules[i]| && ExtendRules(rules, peers)[i][..|rules[i]|] == rules[i]
    ensures forall i, q :: 0 <= i < |rules| && q in peers ==> q in ExtendRules(rules, peers)[i]
  {
    forall i | 0 <= i < |rules|
      ensures |ExtendRules(rules, peers)[i]| >= |rules[i]| && ExtendRules(rules, peers)[i][..|rules[i]|] == rules[i]
      ensures forall q :: q in peers ==> q in ExtendRules(rules, peers)[i]
    {
      AppendMissingPrefix(rules[i], peers);
      AppendMissingElems(rules[i], peers);
      assert forall q :: q in peers ==> q in Elems(peers);
    }
  }

  /**
   * Peers that are new objects are always appended, whole: rebuilding the same labels as fresh
   * peers and extending with them adds them again next to the equal-looking ones.
   */
  lemma ExtendRulesWithNewPeers(rules: seq<seq<Peer>>, peers: seq<Peer>)
    requires Distinct(peers)
    requires forall i, q :: 0 <= i < |rules| && q in rules[i] ==> q !in peers
    ensures forall i :: 0 <= i < |rules| ==> ExtendRules(rules, peers)[i] == rules[i] + peers
  {
    forall i | 0 <= i < |rules| ensures ExtendRules(rules, peers)[i] == rules[i] + peers {
      AppendMissingFresh(rules[i], peers);
    }
  }

  /** The stored form of two peer lists one after the other. */
  lemma {:induction false} PeersValueConcat(a: seq<Peer>, b: seq<Peer>)
    ensures PeersValue(a + b) == PeersValue(a) + PeersValue(b)
  {
    if b == [] {
      assert a + b == a;
    } else {
      var init := b[..|b| - 1];
      PeersValueConcat(a, init);
      assert (a + b)[..|a + b| - 1] == a + init;
      assert (a + b)[|a + b| - 1] == b[|b| - 1];
    }
  }

  /** Peers with selectors of their own are distinct peers. */
  lemma OwnSelectorsDistinct(peers: seq<Peer>)
    requires OwnSelectors(peers)
    ensures Distinct(peers)
  {
  }

  /** No peer of the rules is among peers whose own selectors the rules do not point at. */
  lemma NotAmong(rules: seq<seq<Peer>>, peers: seq<Peer>)
    requires OwnSelectors(peers) && RulesSelectors(rules) !! Selectors(peers)
    ensures forall i, q :: 0 <= i < |rules| && q in rules[i] ==> q !in peers
  {
    forall i, q | 0 <= i < |rules| && q in rules[i] ensures q !in peers {
      var k :| 0 <= k < |rules[i]| && rules[i][k] == q;
      forall j | 0 <= j < |peers| ensures peers[j] != q {
        assert peers[j].podSelector in Selectors(peers);
        if q.podSelector != null {
          assert q.podSelector in Selectors(rules[i]);
        }
      }
    }
  }

  /**
   * Rules extended first with `a`, then with `b`, each a list of peers with selectors of their
   * own that nothing before points at, store every rule followed by the stored `a` and `b`.
   */
  lemma ExtendedValue(rules: seq<seq<Peer>>, a: seq<Peer>, b: seq<Peer>)
    requires OwnSelectors(a) && OwnSelectors(b) && Selectors(a) !! Selectors(b)
    requires RulesSelectors(rules) !! Selectors(a) && RulesSelectors(rules) !! Selectors(b)
    ensures RulesValue(ExtendRules(ExtendRules(rules, a), b))
         == ExtendedRules(ExtendedRules(RulesValue(rules), PeersValue(a)), PeersValue(b))
  {
    OwnSelectorsDistinct(a);
    OwnSelectorsDistinct(b);
    NotAmong(rules, a);
    ExtendRulesWithNewPeers(rules, a);
    var once := ExtendRules(rules, a);
    forall i, q | 0 <= i < |once| && q in once[i] ensures q !in b {
      assert once[i] == rules[i] + a;
      forall j | 0 <= j < |b| ensures b[j] != q {
        assert b[j].podSelector in Selectors(b);
        if q in a {
          var k :| 0 <= k < |a| && a[k] == q;
          assert q.podSelector in Selectors(a);
        } else {
          var k :| 0 <= k < |rules[i]| && rules[i][k] == q;
          if q.podSelector != null {
            assert q.podSelector in Selectors(rules[i]);
          }
        }
      }
    }
    ExtendRulesWithNewPeers(once, b);
    var twice := ExtendRules(once, b);
    RulesValueShape(twice);
    RulesValueShape(rules);
    forall i | 0 <= i < |rules|
      ensures RulesValue(twice)[i] == RulesValue(rules)[i] + PeersValue(a) + PeersValue(b)
    {
      RulesValueAt(twice, i);
      RulesValueAt(rules, i);
      PeersValueConcat(rules[i], a);
      PeersValueConcat(rules[i] + a, b);
    }
  }

  /** Both lists AppendLabelsToPeers returns point at selectors of their own. */
  lemma LabelShapeOwn(r: PeerLists, n: nat)
    requires LabelShape(r, n)
    ensures OwnSelectors(r.ingress) && OwnSelectors(r.egress)
  {
    assert r.egress == r.egress[..2] + r.egress[2..];
    assert r.ingress[..2] == r.egress[..2];
    assert OwnSelectors(r.egress[..2]) by {
      forall i | 0 <= i < 2 ensures r.egress[..2][i] == r.ingress[i] { }
    }
    OwnSelectorsConcat(r.egress[..2], r.egress[2..]);
  }

  // ---------------------------------------------------------------------------------------------
  // Building peers

  /** The supported ingress-controller and DNS pod labels, by product name. */
  const DefaultLabels: map<string, Labels> := map[
    "nginx" := map["app.kubernetes.io/name" := "ingress-nginx"],
    "contour" := map["app.kubernetes.io/name" := "contour"],
    "traefik" := map["app.kubernetes.io/name" := "traefik"],
    "haproxy" := map["app.kubernetes.io/name" := "haproxy"],
    "coredns" := map["k8s-app" := "kube-dns"]
  ]

  /** A table of label sets seen as references that all resolved to their own label set. */
  function AsResolved(table: map<string, Labels>): map<string, Result<Labels>> {
    map name | name in table :: Ok(table[name])
  }

  /** The values of a requirement built from a key's list: the list itself, or the list without duplicates. */
  predicate ValuesFor(values: seq<string>, listed: seq<string>, exact: bool) {
    if exact then values == listed else Distinct(values) && Elems(values) == Elems(listed)
  }

  /**
   * `reqs` hold one requirement `key In values` for each key of `added`, a subset of the keys of
   * `kv`, with the values that key lists in `kv` (see ValuesFor).
   */
  predicate KeysCovered(reqs: seq<Requirement>, kv: Multimap, added: set<string>, exact: bool) {
    && added <= kv.Keys
    && |reqs| == |added|
    && (forall i :: 0 <= i < |reqs| ==>
          reqs[i].op == In && reqs[i].key in added && ValuesFor(reqs[i].values, kv[reqs[i].key], exact))
    && (forall k :: k in added ==> exists i :: 0 <= i < |reqs| && reqs[i].key == k)
    && (forall i, j :: 0 <= i < j < |reqs| ==> reqs[i].key != reqs[j].key)
  }

  /** One requirement `key In values` per key of `kv`, in some order. */
  predicate RequirementsFor(reqs: seq<Requirement>, kv: Multimap, exact: bool) {
    KeysCovered(reqs, kv, kv.Keys, exact)
  }

  /** Each peer points at a selector of its own holding exactly the matching requirement. */
  ghost predicate Carry(peers: seq<Peer>, reqs: seq<Requirement>)
    reads Selectors(peers)
  {
    && |peers| == |reqs|
    && (forall i :: 0 <= i < |peers| ==>
          peers[i].podSelector != null && peers[i].podSelector.matchExpressions == [reqs[i]])
    && (forall i, j :: 0 <= i < j < |peers| ==> peers[i].podSelector != peers[j].podSelector)
  }

  /** One peer per key of `kv`, each with a selector of its own (see RequirementsFor). */
  ghost predicate PeersFor(peers: seq<Peer>, kv: Multimap, exact: bool)
    reads Selectors(peers)
  {
    exists reqs :: Carry(peers, reqs) && RequirementsFor(reqs, kv, exact)
  }

  /** One peer per label key of `table`, requiring the values the table gives that key (duplicates kept). */
  ghost predicate GroupedPeers(table: map<string, Labels>, peers: seq<Peer>)
    reads Selectors(peers)
  {
    exists kv :: Collected(AsResolved(table), table.Keys, kv) && PeersFor(peers, kv, true)
  }

  /** The first loop of getDefaultSupportedPeers: every label's value appended under its key. */
  method GroupByKey(table: map<string, Labels>) returns (keyValueMap: Multimap)
    ensures Collected(AsResolved(table), table.Keys, keyValueMap)
  {
    keyValueMap := map[];
    var remaining := table.Keys;
    ghost var res := AsResolved(table);
    CollectedEmpty(res);
    while remaining != {}
      invariant remaining <= table.Keys
      invariant Collected(res, table.Keys - remaining, keyValueMap)
      decreases remaining
    {
      var name :| name in remaining;
      assert table.Keys - (remaining - {name}) == (table.Keys - remaining) + {name};
      CollectedStep(res, table.Keys - remaining, keyValueMap, name, table[name]);
      keyValueMap := AppendLabelValues(keyValueMap, table[name]);
      remaining := remaining - {name};
    }
    assert table.Keys - remaining == table.Keys;
  }

  lemma KeysCoveredStep(reqs: seq<Requirement>, kv: Multimap, added: set<string>, exact: bool, req: Requirement)
    requires KeysCovered(reqs, kv, added, exact) && req.key in kv && req.key !in added
    requires req.op == In && ValuesFor(req.values, kv[req.key], exact)
    ensures KeysCovered(reqs + [req], kv, added + {req.key}, exact)
  {
    var next := reqs + [req];
    assert forall i :: 0 <= i < |reqs| ==> next[i] == reqs[i];
    forall i | 0 <= i < |next|
      ensures next[i].op == In && next[i].key in added + {req.key} && ValuesFor(next[i].values, kv[next[i].key], exact)
    {
    }
    forall i, j | 0 <= i < j < |next| ensures next[i].key != next[j].key {
      if j == |reqs| {
        assert reqs[i].key in added;
      }
    }
    forall k | k in added + {req.key} ensures exists i :: 0 <= i < |next| && next[i].key == k {
      if k == req.key {
        assert next[|reqs|].key == k;
      } else {
        var i :| 0 <= i < |reqs| && reqs[i].key == k;
        assert next[i] == reqs[i];
      }
    }
  }

  lemma CarryStep(peers: seq<Peer>, reqs: seq<Requirement>, sel: Selector, req: Requirement)
    requires Carry(peers, reqs) && sel.matchExpressions == [req] && sel !in Selectors(peers)
    ensures Carry(peers + [Peer(sel)], reqs + [req])
  {
    var next := peers + [Peer(sel)];
    forall i | 0 <= i < |peers| ensures next[i] == peers[i] && peers[i].podSelector in Selectors(peers) {
    }
  }

  /**
   * Loop invariant of the peer-building loops: one peer per key of `kv` outside `keys`, each with
   * a selector of its own holding the key's requirement.
   */
  ghost predicate Building(peers: seq<Peer>, reqs: seq<Requirement>, kv: Multimap, keys: set<string>, exact: bool)
    reads Selectors(peers)
  {
    keys <= kv.Keys && KeysCovered(reqs, kv, kv.Keys - keys, exact) && Carry(peers, reqs)
  }

  lemma BuildingStep(peers: seq<Peer>, reqs: seq<Requirement>, kv: Multimap, keys: set<string>, exact: bool,
                     req: Requirement, sel: Selector)
    requires Building(peers, reqs, kv, keys, exact) && req.key in keys
    requires req.op == In && ValuesFor(req.values, kv[req.key], exact)
    requires sel.matchExpressions == [req] && sel !in Selectors(peers)
    ensures Building(peers + [Peer(sel)], reqs + [req], kv, keys - {req.key}, exact)
  {
    assert kv.Keys - (keys - {req.key}) == (kv.Keys - keys) + {req.key};
    KeysCoveredStep(reqs, kv, kv.Keys - keys, exact, req);
    CarryStep(peers, reqs, sel, req);
  }

  lemma BuildingDone(peers: seq<Peer>, reqs: seq<Requirement>, kv: Multimap, exact: bool)
    requires Building(peers, reqs, kv, {}, exact)
    ensures PeersFor(peers, kv, exact)
  {
    assert kv.Keys - {} == kv.Keys;
  }

  /** Appending a peer with a new selector to peers with new selectors. */
  twostate lemma FreshAppend(new peers: seq<Peer>, new sel: Selector)
    requires fresh(Selectors(peers)) && fresh(sel)
    ensures fresh(Selectors(peers + [Peer(sel)]))
  {
    SelectorsAppend(peers, Peer(sel));
  }

  /** The second loop of getDefaultSupportedPeers: a new peer requiring `key In values` per key. */
  method PeersOfKeys(keyValueMap: Multimap) returns (peers: seq<Peer>)
    ensures PeersFor(peers, keyValueMap, true)
    ensures fresh(Selectors(peers))
  {
    peers := [];
    var keys := keyValueMap.Keys;
    ghost var reqs: seq<Requirement> := [];
    while keys != {}
      invariant Building(peers, reqs, keyValueMap, keys, true)
      invariant fresh(Selectors(peers))
      decreases keys
    {
      var k :| k in keys;
      var req := Requirement(k, In, keyValueMap[k]);
      var sel := new Selector([req]);
      BuildingStep(peers, reqs, keyValueMap, keys, true, req, sel);
      FreshAppend(peers, sel);
      peers := peers + [Peer(sel)];
      reqs := reqs + [req];
      keys := keys - {k};
    }
    BuildingDone(peers, reqs, keyValueMap, true);
  }

  /**
   * getDefaultSupportedPeers: no table gives no peers; otherwise the values are grouped by label
   * key and each key becomes a new peer requiring `key In values`.
   */
  method GetDefaultSupportedPeers(defaultLabels: map<string, Labels>) returns (peers: seq<Peer>)
    ensures |defaultLabels| == 0 ==> peers == []
    ensures |defaultLabels| > 0 ==> GroupedPeers(defaultLabels, peers)
    ensures fresh(Selectors(peers))
  {
    if |defaultLabels| == 0 {
      return [];
    }
    var keyValueMap := GroupByKey(defaultLabels);
    peers := PeersOfKeys(keyValueMap);
  }

  /** The products whose labels have key `k`. */
  lemma DefaultContributors(k: string)
    ensures Contributors(AsResolved(DefaultLabels), DefaultLabels.Keys, k) ==
      if k == "app.kubernetes.io/name" then {"nginx", "contour", "traefik", "haproxy"}
      else if k == "k8s-app" then {"coredns"}
      else {}
  {
    var res := AsResolved(DefaultLabels);
    assert DefaultLabels.Keys == {"nginx", "contour", "traefik", "haproxy", "coredns"};
    assert res["nginx"] == Ok(map["app.kubernetes.io/name" := "ingress-nginx"]);
    assert res["contour"] == Ok(map["app.kubernetes.io/name" := "contour"]);
    assert res["traefik"] == Ok(map["app.kubernetes.io/name" := "traefik"]);
    assert res["haproxy"] == Ok(map["app.kubernetes.io/name" := "haproxy"]);
    assert res["coredns"] == Ok(map["k8s-app" := "kube-dns"]);
  }

  /** The ingress-controller products, and the value each gives `app.kubernetes.io/name`. */
  const Controllers: set<string> := {"nginx", "contour", "traefik", "haproxy"}
  const ControllerNames: set<string> := {"ingress-nginx", "contour", "traefik", "haproxy"}

  lemma ControllersCount()
    ensures |Controllers| == 4
  {
    assert "nginx" != "contour" && "nginx" != "traefik" && "nginx" != "haproxy";
    assert "contour"[0] != "traefik"[0] && "contour"[0] != "haproxy"[0] && "traefik"[0] != "haproxy"[0];
    assert Controllers == {"nginx"} + {"contour"} + {"traefik"} + {"haproxy"};
  }

  /** The values the ingress-controller products give `app.kubernetes.io/name`. */
  lemma DefaultImages()
    ensures (set e | e in Contributors(AsResolved(DefaultLabels), DefaultLabels.Keys, "app.kubernetes.io/name")
               :: AsResolved(DefaultLabels)[e].value["app.kubernetes.io/name"]) == ControllerNames
  {
    var res := AsResolved(DefaultLabels);
    DefaultContributors("app.kubernetes.io/name");
    assert res["nginx"].value["app.kubernetes.io/name"] == "ingress-nginx";
    assert res["contour"].value["app.kubernetes.io/name"] == "contour";
    assert res["traefik"].value["app.kubernetes.io/name"] == "traefik";
    assert res["haproxy"].value["app.kubernetes.io/name"] == "haproxy";
  }

  /** The value the DNS product gives `k8s-app`. */
  lemma DefaultDnsImage()
    ensures (set e | e in Contributors(AsResolved(DefaultLabels), DefaultLabels.Keys, "k8s-app")
               :: AsResolved(DefaultLabels)[e].value["k8s-app"]) == {"kube-dns"}
  {
    var res := AsResolved(DefaultLabels);
    DefaultContributors("k8s-app");
    assert res["coredns"].value["k8s-app"] == "kube-dns";
  }

  /** Exactly two keys have a product whose labels carry them. */
  lemma DefaultKeyed(k: string)
    ensures Contributors(AsResolved(DefaultLabels), DefaultLabels.Keys, k) != {} <==> k == "app.kubernetes.io/name" || k == "k8s-app"
  {
    DefaultContributors(k);
    if k == "app.kubernetes.io/name" {
      assert "nginx" in Contributors(AsResolved(DefaultLabels), DefaultLabels.Keys, k);
    } else if k == "k8s-app" {
      assert "coredns" in Contributors(AsResolved(DefaultLabels), DefaultLabels.Keys, k);
    }
  }

  lemma DefaultKeys(kv: Multimap)
    requires Collected(AsResolved(DefaultLabels), DefaultLabels.Keys, kv)
    ensures kv.Keys == {"app.kubernetes.io/name", "k8s-app"}
  {
    var keys := {"app.kubernetes.io/name", "k8s-app"};
    forall k ensures Contributors(AsResolved(DefaultLabels), DefaultLabels.Keys, k) != {} <==> k in keys {
      DefaultKeyed(k);
    }
    CollectedKeys(AsResolved(DefaultLabels), DefaultLabels.Keys, kv, keys);
  }

  /**
   * DefaultLabels groups into two keys: `app.kubernetes.io/name` with the four ingress-controller
   * names (one value per product, in some order) and `k8s-app` with `kube-dns`.
   */
  lemma DefaultGrouping(kv: Multimap)
    requires Collected(AsResolved(DefaultLabels), DefaultLabels.Keys, kv)
    ensures kv.Keys == {"app.kubernetes.io/name", "k8s-app"}
    ensures |kv["app.kubernetes.io/name"]| == 4 && Elems(kv["app.kubernetes.io/name"]) == ControllerNames
    ensures kv["k8s-app"] == ["kube-dns"]
  {
    DefaultKeys(kv);
    DefaultControllerValues(kv);
    DefaultDnsValues(kv);
  }

  lemma DefaultControllerValues(kv: Multimap)
    requires Collected(AsResolved(DefaultLabels), DefaultLabels.Keys, kv) && "app.kubernetes.io/name" in kv
    ensures |kv["app.kubernetes.io/name"]| == 4 && Elems(kv["app.kubernetes.io/name"]) == ControllerNames
  {
    DefaultContributors("app.kubernetes.io/name");
    ControllersCount();
    CollectedValues(AsResolved(DefaultLabels), DefaultLabels.Keys, kv, "app.kubernetes.io/name");
    DefaultImages();
  }

  lemma DefaultDnsValues(kv: Multimap)
    requires Collected(AsResolved(DefaultLabels), DefaultLabels.Keys, kv) && "k8s-app" in kv
    ensures kv["k8s-app"] == ["kube-dns"]
  {
    DefaultContributors("k8s-app");
    CollectedValues(AsResolved(DefaultLabels), DefaultLabels.Keys, kv, "k8s-app");
    DefaultDnsImage();
    var dns := kv["k8s-app"];
    assert |dns| == 1 && dns[0] in Elems(dns);
  }

  lemma DefaultKeyCount()
    ensures |{"app.kubernetes.io/name", "k8s-app"}| == 2
  {
    assert "app.kubernetes.io/name"[0] != "k8s-app"[0];
  }

  /** The requirement of the DNS peer. */
  const DnsRequirement := Requirement("k8s-app", In, ["kube-dns"])

  /** The requirement of the ingress-controller peer: the four controller names, once each. */
  predicate ControllersRequirement(req: Requirement) {
    req.key == "app.kubernetes.io/name" && req.op == In && |req.values| == 4 && Elems(req.values) == ControllerNames
  }

  /**
   * Two peers with selectors of their own: one requiring only DnsRequirement, the other only a
   * ControllersRequirement, in either order.
   */
  ghost predicate DefaultPeerPair(peers: seq<Peer>)
    reads Selectors(peers)
  {
    && |peers| == 2
    && peers[0].podSelector != null && peers[1].podSelector != null
    && peers[0].podSelector != peers[1].podSelector
    && var m0, m1 := peers[0].podSelector.matchExpressions, peers[1].podSelector.matchExpressions;
       || (m0 == [DnsRequirement] && |m1| == 1 && ControllersRequirement(m1[0]))
       || (m1 == [DnsRequirement] && |m0| == 1 && ControllersRequirement(m0[0]))
  }

  /** The peers built from the default grouping (see DefaultGrouping). */
  lemma PeersOfDefaultGrouping(peers: seq<Peer>, kv: Multimap)
    requires PeersFor(peers, kv, true)
    requires kv.Keys == {"app.kubernetes.io/name", "k8s-app"}
    requires |kv["app.kubernetes.io/name"]| == 4 && Elems(kv["app.kubernetes.io/name"]) == ControllerNames
    requires kv["k8s-app"] == ["kube-dns"]
    ensures DefaultPeerPair(peers)
  {
    var reqs: seq<Requirement> :| Carry(peers, reqs) && RequirementsFor(reqs, kv, true);
    DefaultKeyCount();
    var d :| 0 <= d < |reqs| && reqs[d].key == "k8s-app";
    assert peers[d].podSelector.matchExpressions == [DnsRequirement];
    var a :| 0 <= a < |reqs| && reqs[a].key == "app.kubernetes.io/name";
    assert peers[a].podSelector.matchExpressions == [reqs[a]];
    assert ControllersRequirement(reqs[a]);
    assert a == 1 - d;
  }

  /**
   * The default peers are a DefaultPeerPair: one requiring `k8s-app In [kube-dns]` and one
   * requiring `app.kubernetes.io/name In` the four ingress-controller names.
   */
  lemma DefaultPeers(peers: seq<Peer>)
    requires GroupedPeers(DefaultLabels, peers)
    ensures DefaultPeerPair(peers)
  {
    var kv :| Collected(AsResolved(DefaultLabels), DefaultLabels.Keys, kv) && PeersFor(peers, kv, true);
    DefaultGrouping(kv);
    PeersOfDefaultGrouping(peers, kv);
  }

  /** The two loops over `uniqueValues` in AppendLabelsToPeers: the values once each, in some order. */
  method UniqueValues(values: seq<string>) returns (finalValues: seq<string>)
    ensures Distinct(finalValues) && Elems(finalValues) == Elems(values)
  {
    var uniqueValues: set<string> := {};
    var i := 0;
    while i < |values|
      invariant 0 <= i <= |values|
      invariant uniqueValues == Elems(values[..i])
    {
      assert values[..i + 1] == values[..i] + [values[i]];
      uniqueValues := uniqueValues + {values[i]};
      i := i + 1;
    }
    assert values[..i] == values;
    finalValues := [];
    var remaining := uniqueValues;
    while remaining != {}
      invariant remaining <= uniqueValues
      invariant Distinct(finalValues) && Elems(finalValues) == uniqueValues - remaining
      decreases remaining
    {
      var v :| v in remaining;
      assert Elems(finalValues + [v]) == Elems(finalValues) + {v};
      finalValues := finalValues + [v];
      remaining := remaining - {v};
    }
  }

  /** The ingress and the egress peers AppendLabelsToPeers returns. */
  datatype PeerLists = PeerLists(ingress: seq<Peer>, egress: seq<Peer>)

  /** Loop invariant of AppendLabelsToPeers: two twin lists, no selector shared with each other or with `avoid`. */
  ghost predicate PairBuilding(ingress: seq<Peer>, egress: seq<Peer>, reqs: seq<Requirement>, kv: Multimap,
                               keys: set<string>, avoid: set<Selector>)
    reads Selectors(ingress), Selectors(egress)
  {
    && Building(ingress, reqs, kv, keys, false)
    && Carry(egress, reqs)
    && Selectors(ingress) !! Selectors(egress)
    && Selectors(ingress) !! avoid
    && Selectors(egress) !! avoid
  }

  lemma PairStep(ingress: seq<Peer>, egress: seq<Peer>, reqs: seq<Requirement>, kv: Multimap, keys: set<string>,
                 avoid: set<Selector>, req: Requirement, si: Selector, se: Selector)
    requires PairBuilding(ingress, egress, reqs, kv, keys, avoid) && req.key in keys
    requires req.op == In && ValuesFor(req.values, kv[req.key], false)
    requires si.matchExpressions == [req] && se.matchExpressions == [req] && si != se
    requires si !in Selectors(ingress) + Selectors(egress) + avoid && se !in Selectors(ingress) + Selectors(egress) + avoid
    ensures PairBuilding(ingress + [Peer(si)], egress + [Peer(se)], reqs + [req], kv, keys - {req.key}, avoid)
  {
    BuildingStep(ingress, reqs, kv, keys, false, req, si);
    CarryStep(egress, reqs, se, req);
    SelectorsAppend(ingress, Peer(si));
    SelectorsAppend(egress, Peer(se));
  }

  /** Once every key is handled, the two lists carry requirements for exactly the keys of `kv`. */
  lemma PairDone(ingress: seq<Peer>, egress: seq<Peer>, reqs: seq<Requirement>, kv: Multimap, avoid: set<Selector>)
    requires PairBuilding(ingress, egress, reqs, kv, {}, avoid)
    ensures Carry(ingress, reqs) && Carry(egress, reqs) && RequirementsFor(reqs, kv, false)
  {
    assert kv.Keys - {} == kv.Keys;
  }

  /** The selectors of two lists put together. */
  lemma SelectorsConcat(a: seq<Peer>, b: seq<Peer>)
    ensures Selectors(a + b) == Selectors(a) + Selectors(b)
  {
    var ab := a + b;
    forall s | s in Selectors(ab) ensures s in Selectors(a) + Selectors(b) {
      var i :| 0 <= i < |ab| && ab[i].podSelector == s;
      if i < |a| { assert ab[i] == a[i]; } else { assert ab[i] == b[i - |a|]; }
    }
    forall s | s in Selectors(a) ensures s in Selectors(ab) {
      var i :| 0 <= i < |a| && a[i].podSelector == s;
      assert ab[i] == a[i];
    }
    forall s | s in Selectors(b) ensures s in Selectors(ab) {
      var i :| 0 <= i < |b| && b[i].podSelector == s;
      assert ab[|a| + i] == b[i];
    }
  }

  /** The selectors of both parts of a list are selectors of the list. */
  lemma SelectorsSplit(peers: seq<Peer>, n: nat)
    requires n <= |peers|
    ensures Selectors(peers[..n]) <= Selectors(peers) && Selectors(peers[n..]) <= Selectors(peers)
  {
    assert peers == peers[..n] + peers[n..];
    SelectorsConcat(peers[..n], peers[n..]);
  }

  twostate lemma FreshConcat(new a: seq<Peer>, new b: seq<Peer>)
    requires fresh(Selectors(a)) && fresh(Selectors(b))
    ensures fresh(Selectors(a + b))
  {
    SelectorsConcat(a, b);
  }

  /** Peers pointing at selectors of their own: none is nil and no two share one. */
  predicate OwnSelectors(peers: seq<Peer>) {
    && (forall i :: 0 <= i < |peers| ==> peers[i].podSelector != null)
    && (forall i, j :: 0 <= i < j < |peers| ==> peers[i].podSelector != peers[j].podSelector)
  }

  /** The stored form of the default peers: the DNS requirement and the controllers requirement, in either order. */
  predicate DefaultValues(v: seq<PeerValue>) {
    && |v| == 2
    && v[0].podSelector.Some? && v[1].podSelector.Some?
    && var m0, m1 := v[0].podSelector.value, v[1].podSelector.value;
       || (m0 == [DnsRequirement] && |m1| == 1 && ControllersRequirement(m1[0]))
       || (m1 == [DnsRequirement] && |m0| == 1 && ControllersRequirement(m0[0]))
  }

  /**
   * The stored form of the two lists AppendLabelsToPeers returns: the same default peers first,
   * then for each `reqs[i]` one peer selecting exactly that requirement in both lists, with one
   * requirement per key of `target` (values without duplicates).
   */
  predicate LabelValues(vi: seq<PeerValue>, ve: seq<PeerValue>, target: Multimap, reqs: seq<Requirement>) {
    && |vi| == 2 + |reqs| && |ve| == 2 + |reqs|
    && vi[..2] == ve[..2] && DefaultValues(vi[..2])
    && (forall i :: 0 <= i < |reqs| ==> vi[2 + i] == PeerValue(Some([reqs[i]])) && ve[2 + i] == vi[2 + i])
    && RequirementsFor(reqs, target, false)
  }

  /**
   * What AppendLabelsToPeers returns for `target`: both lists start with the same two default
   * peers, followed by one peer per target key; the i-th peers of the two tails hold the same
   * requirement `reqs[i]` (see LabelValues), each in a selector of its own.
   */
  ghost predicate LabelPeers(r: PeerLists, target: Multimap, reqs: seq<Requirement>)
    reads Selectors(r.ingress), Selectors(r.egress)
  {
    LabelShape(r, |target|) && LabelValues(PeersValue(r.ingress), PeersValue(r.egress), target, reqs)
  }

  /**
   * The pointers of the two lists: `n` peers after the same two defaults, every peer with a
   * selector of its own, and no selector shared between the two lists except the defaults.
   */
  predicate LabelShape(r: PeerLists, n: nat) {
    && |r.ingress| == 2 + n && |r.egress| == 2 + n
    && r.ingress[..2] == r.egress[..2]
    && OwnSelectors(r.ingress) && OwnSelectors(r.egress[2..])
    && Selectors(r.ingress[2..]) !! Selectors(r.egress[2..])
    && Selectors(r.ingress[..2]) !! Selectors(r.egress[2..])
  }

  /** The stored form of one peer of a list. */
  lemma {:induction false} PeersValueAt(peers: seq<Peer>, i: nat)
    requires i < |peers|
    ensures |PeersValue(peers)| == |peers|
    ensures PeersValue(peers)[i] ==
      if peers[i].podSelector == null then PeerValue(None) else PeerValue(Some(peers[i].podSelector.matchExpressions))
  {
    PeersValueLength(peers);
    var init := peers[..|peers| - 1];
    if i < |init| {
      PeersValueAt(init, i);
      assert init[i] == peers[i];
    }
  }

  /** Two lists of peers with selectors of their own, sharing none, make one such list. */
  lemma OwnSelectorsConcat(a: seq<Peer>, b: seq<Peer>)
    requires OwnSelectors(a) && OwnSelectors(b) && Selectors(a) !! Selectors(b)
    ensures OwnSelectors(a + b)
  {
    var ab := a + b;
    forall i, j | 0 <= i < j < |ab| ensures ab[i].podSelector != ab[j].podSelector {
      if i < |a| && |a| <= j {
        assert ab[i] == a[i] && ab[j] == b[j - |a|];
        assert a[i].podSelector in Selectors(a) && b[j - |a|].podSelector in Selectors(b);
      } else if |a| <= i {
        assert ab[i] == b[i - |a|] && ab[j] == b[j - |a|];
      }
    }
  }

  /** The stored form of the default peers followed by peers carrying `reqs`. */
  lemma {:induction false} DefaultsThenCarried(defaults: seq<Peer>, tail: seq<Peer>, reqs: seq<Requirement>)
    requires DefaultPeerPair(defaults) && Carry(tail, reqs)
    ensures var v := PeersValue(defaults + tail);
      && |v| == 2 + |reqs| && v[..2] == PeersValue(defaults) && DefaultValues(v[..2])
      && (forall i :: 0 <= i < |reqs| ==> v[2 + i] == PeerValue(Some([reqs[i]])))
  {
    var all := defaults + tail;
    PeersValueLength(all);
    PeersValueAt(all, 0);
    PeersValueAt(all, 1);
    PeersValueAt(defaults, 0);
    PeersValueAt(defaults, 1);
    assert all[0] == defaults[0] && all[1] == defaults[1];
    assert PeersValue(all)[..2] == PeersValue(defaults);
    forall i | 0 <= i < |reqs| ensures PeersValue(all)[2 + i] == PeerValue(Some([reqs[i]])) {
      PeersValueAt(all, 2 + i);
      assert all[2 + i] == tail[i];
    }
  }

  lemma LabelPeersIntro(defaults: seq<Peer>, ingressTail: seq<Peer>, egressTail: seq<Peer>, reqs: seq<Requirement>,
                        target: Multimap)
    requires DefaultPeerPair(defaults)
    requires PairBuilding(ingressTail, egressTail, reqs, target, {}, Selectors(defaults))
    ensures LabelPeers(PeerLists(defaults + ingressTail, defaults + egressTail), target, reqs)
  {
    PairDone(ingressTail, egressTail, reqs, target, Selectors(defaults));
    LabelShapeIntro(defaults, ingressTail, egressTail, reqs);
    DefaultsThenCarried(defaults, ingressTail, reqs);
    DefaultsThenCarried(defaults, egressTail, reqs);
  }

  /** The pointer shape of the defaults followed by two tails with selectors of their own. */
  lemma LabelShapeIntro(defaults: seq<Peer>, ingressTail: seq<Peer>, egressTail: seq<Peer>, reqs: seq<Requirement>)
    requires DefaultPeerPair(defaults) && Carry(ingressTail, reqs) && Carry(egressTail, reqs)
    requires Selectors(ingressTail) !! Selectors(egressTail)
    requires Selectors(ingressTail) !! Selectors(defaults) && Selectors(egressTail) !! Selectors(defaults)
    ensures LabelShape(PeerLists(defaults + ingressTail, defaults + egressTail), |reqs|)
  {
    var ingress, egress := defaults + ingressTail, defaults + egressTail;
    assert ingress[..2] == defaults && ingress[2..] == ingressTail;
    assert egress[..2] == defaults && egress[2..] == egressTail;
    assert OwnSelectors(defaults) && OwnSelectors(ingressTail) && OwnSelectors(egressTail);
    OwnSelectorsConcat(defaults, ingressTail);
  }

  /**
   * The two selectors AppendLabelsToPeers makes for one target key: each holds the key's
   * requirement, one for the ingress list and a separate one for the egress list.
   */
  method NewKeySelectors(ghost ingress: seq<Peer>, ghost egress: seq<Peer>, ghost reqs: seq<Requirement>,
                         ghost kv: Multimap, ghost keys: set<string>, ghost avoid: set<Selector>, req: Requirement)
    returns (si: Selector, se: Selector)
    requires PairBuilding(ingress, egress, reqs, kv, keys, avoid) && req.key in keys
    requires req.op == In && ValuesFor(req.values, kv[req.key], false)
    ensures fresh(si) && fresh(se)
    ensures PairBuilding(ingress + [Peer(si)], egress + [Peer(se)], reqs + [req], kv, keys - {req.key}, avoid)
  {
    si := new Selector([req]);
    se := new Selector([req]);
    PairStep(ingress, egress, reqs, kv, keys, avoid, req, si, se);
  }

  /**
   * The loop over the target keys of AppendLabelsToPeers: per key, a new ingress peer and a
   * separate new egress peer requiring `key In` the key's values without duplicates.
   */
  method KeyPeers(targetPodLabels: Multimap, ghost avoid: set<Selector>)
    returns (ingressPeers: seq<Peer>, egressPeers: seq<Peer>, ghost reqs: seq<Requirement>)
    ensures PairBuilding(ingressPeers, egressPeers, reqs, targetPodLabels, {}, avoid)
    ensures fresh(Selectors(ingressPeers)) && fresh(Selectors(egressPeers))
  {
    ingressPeers, egressPeers, reqs := [], [], [];
    var remaining := targetPodLabels.Keys;
    while remaining != {}
      invariant PairBuilding(ingressPeers, egressPeers, reqs, targetPodLabels, remaining, avoid)
      invariant fresh(Selectors(ingressPeers)) && fresh(Selectors(egressPeers))
      decreases remaining
    {
      var k :| k in remaining;
      var finalValues := UniqueValues(targetPodLabels[k]);
      var req := Requirement(k, In, finalValues);
      var si, se := NewKeySelectors(ingressPeers, egressPeers, reqs, targetPodLabels, remaining, avoid, req);
      FreshAppend(ingressPeers, si);
      FreshAppend(egressPeers, se);
      ingressPeers := ingressPeers + [Peer(si)];
      egressPeers := egressPeers + [Peer(se)];
      reqs := reqs + [req];
      remaining := remaining - {k};
    }
  }

  /** getDefaultSupportedPeers applied to DefaultLabels: two new peers. */
  method DefaultSupportedPeers() returns (peers: seq<Peer>)
    ensures DefaultPeerPair(peers)
    ensures fresh(Selectors(peers))
  {
    peers := GetDefaultSupportedPeers(DefaultLabels);
    assert "nginx" in DefaultLabels.Keys;
    DefaultPeers(peers);
  }

  /** The loop of AppendLabelsToPeers that appends each default peer to both lists. */
  method CopyPeers(defaultPeers: seq<Peer>) returns (ingressPeers: seq<Peer>, egressPeers: seq<Peer>)
    ensures ingressPeers == defaultPeers && egressPeers == defaultPeers
  {
    ingressPeers, egressPeers := [], [];
    var n := 0;
    while n < |defaultPeers|
      invariant 0 <= n <= |defaultPeers|
      invariant ingressPeers == defaultPeers[..n] && egressPeers == defaultPeers[..n]
    {
      ingressPeers := ingressPeers + [defaultPeers[n]];
      egressPeers := egressPeers + [defaultPeers[n]];
      n := n + 1;
    }
  }

  /**
   * AppendLabelsToPeers: an empty target map is an EmptyParam error; otherwise both lists are the
   * default peers (the same two peers in both) followed by one new peer per target key.
   */
  method AppendLabelsToPeers(targetPodLabels: Multimap) returns (r: Result<PeerLists>, ghost reqs: seq<Requirement>)
    ensures |targetPodLabels| == 0 <==> r.Err?
    ensures r.Err? ==> r.error == EmptyParam
    ensures r.Ok? ==> LabelPeers(r.value, targetPodLabels, reqs)
    ensures r.Ok? ==> fresh(Selectors(r.value.ingress)) && fresh(Selectors(r.value.egress))
  {
    var defaultPeers := DefaultSupportedPeers();
    if |targetPodLabels| == 0 || |defaultPeers| == 0 {
      return Err(EmptyParam), [];
    }
    var ingressPeers, egressPeers := CopyPeers(defaultPeers);
    var keyIngress, keyEgress;
    keyIngress, keyEgress, reqs := KeyPeers(targetPodLabels, Selectors(defaultPeers));
    FreshConcat(ingressPeers, keyIngress);
    FreshConcat(egressPeers, keyEgress);
    LabelPeersIntro(defaultPeers, keyIngress, keyEgress, reqs, targetPodLabels);
    return Ok(PeerLists(ingressPeers + keyIngress, egressPeers + keyEgress)), reqs;
  }

  /**
   * NewPolicy: an empty name, namespace or pod selector, or an empty target map, is an EmptyParam
   * error; otherwise a new policy selecting `podSelectorLabels`, with one ingress and one egress
   * rule holding the peers of AppendLabelsToPeers, for both policy types.
   */
  method NewPolicy(name: string, namespace: string, podSelectorLabels: Labels, targetPodLabels: Multimap)
    returns (r: Result<Policy>, ghost reqs: seq<Requirement>)
    ensures r.Err? <==> name == "" || namespace == "" || |podSelectorLabels| == 0 || |targetPodLabels| == 0
    ensures r.Err? ==> r.error == EmptyParam
    ensures r.Ok? ==> fresh(r.value)
    ensures r.Ok? ==> var p := r.value;
      && p.name == name && p.namespace == namespace && p.matchLabels == podSelectorLabels
      && |p.ingress| == 1 && |p.egress| == 1
      && LabelPeers(PeerLists(p.ingress[0], p.egress[0]), targetPodLabels, reqs)
      && fresh(Selectors(p.ingress[0])) && fresh(Selectors(p.egress[0]))
      && p.policyTypes == [IngressType, EgressType]
  {
    if name == "" || namespace == "" || |podSelectorLabels| == 0 {
      return Err(EmptyParam), [];
    }
    var peers;
    peers, reqs := AppendLabelsToPeers(targetPodLabels);
    if peers.Err? {
      return Err(peers.error), reqs;
    }
    var policy := new Policy(name, namespace, podSelectorLabels, [peers.value.ingress], [peers.value.egress],
                             [IngressType, EgressType]);
    return Ok(policy), reqs;
  }

  // ---------------------------------------------------------------------------------------------
  // Finding the policy of a pod

  /** A requirement that lets the pod in: operator In, and the pod's value for the key is listed. */
  predicate RequirementMatches(req: Requirement, podLabels: Labels) {
    req.op == In && req.key in podLabels && podLabels[req.key] in req.values
  }

  /** How a scan over peers ends: a matching requirement, a nil PodSelector (a panic), or neither. */
  datatype Scan = Hit | NilSelector | Miss

  /** Scanning peers in order: the first peer without a selector stops the scan. */
  function PeersScan(peers: seq<PeerValue>, podLabels: Labels): Scan {
    if peers == [] then Miss
    else if peers[0].podSelector.None? then NilSelector
    else if exists req :: req in peers[0].podSelector.value && RequirementMatches(req, podLabels) then Hit
    else PeersScan(peers[1..], podLabels)
  }

  /** Scanning the peers of rule after rule. */
  function RulesScan(rules: seq<seq<PeerValue>>, podLabels: Labels): Scan {
    if rules == [] then Miss
    else if PeersScan(rules[0], podLabels) != Miss then PeersScan(rules[0], podLabels)
    else RulesScan(rules[1..], podLabels)
  }

  /** Scanning a policy: its ingress rules, then its egress rules. */
  function PolicyScan(p: PolicyValue, podLabels: Labels): Scan {
    if RulesScan(p.ingress, podLabels) != Miss then RulesScan(p.ingress, podLabels)
    else RulesScan(p.egress, podLabels)
  }

  /** The outcome of scanning policy after policy: the first hit, a panic, or nothing found. */
  datatype Search = At(index: nat) | Panic | Nowhere

  function PoliciesSearch(ps: seq<PolicyValue>, podLabels: Labels): (r: Search)
    ensures r.At? ==> r.index < |ps|
  {
    if ps == [] then Nowhere
    else match PolicyScan(ps[0], podLabels)
      case Hit => At(0)
      case NilSelector => Panic
      case Miss => match PoliciesSearch(ps[1..], podLabels)
        case At(i) => At(i + 1)
        case other => other
  }

  /** A peer whose selector has a requirement that lets the pod in. */
  predicate PeerMatches(peer: PeerValue, podLabels: Labels) {
    peer.podSelector.Some? && exists req :: req in peer.podSelector.value && RequirementMatches(req, podLabels)
  }

  predicate RulesMatch(rules: seq<seq<PeerValue>>, podLabels: Labels) {
    exists i, j :: 0 <= i < |rules| && 0 <= j < |rules[i]| && PeerMatches(rules[i][j], podLabels)
  }

  /** The policy of a pod: one of its ingress or egress peers lets the pod in. */
  predicate PolicyMatches(p: PolicyValue, podLabels: Labels) {
    RulesMatch(p.ingress, podLabels) || RulesMatch(p.egress, podLabels)
  }

  /** Every peer of every rule has a PodSelector. */
  predicate RulesNilFree(rules: seq<seq<PeerValue>>) {
    forall i, j :: 0 <= i < |rules| && 0 <= j < |rules[i]| ==> rules[i][j].podSelector.Some?
  }

  /**
   * A hit names a matching peer, a stop names a peer without a selector, and a miss means no peer
   * matches and none lacks a selector.
   */
  lemma {:induction false} PeersScanMeaning(peers: seq<PeerValue>, podLabels: Labels)
    ensures PeersScan(peers, podLabels) == Hit ==> exists j :: 0 <= j < |peers| && PeerMatches(peers[j], podLabels)
    ensures PeersScan(peers, podLabels) == NilSelector ==> exists j :: 0 <= j < |peers| && peers[j].podSelector.None?
    ensures PeersScan(peers, podLabels) == Miss <==>
      forall j :: 0 <= j < |peers| ==> peers[j].podSelector.Some? && !PeerMatches(peers[j], podLabels)
  {
    if peers != [] {
      PeersScanMeaning(peers[1..], podLabels);
      if PeersScan(peers, podLabels) == Hit && peers[0].podSelector.Some? {
        assert PeerMatches(peers[0], podLabels) || PeersScan(peers[1..], podLabels) == Hit;
      }
      assert forall j :: 1 <= j < |peers| ==> peers[j] == peers[1..][j - 1];
    }
  }

  lemma {:induction false} RulesScanMeaning(rules: seq<seq<PeerValue>>, podLabels: Labels)
    ensures RulesScan(rules, podLabels) == Hit ==> RulesMatch(rules, podLabels)
    ensures RulesScan(rules, podLabels) == NilSelector ==> !RulesNilFree(rules)
    ensures RulesScan(rules, podLabels) == Miss <==> RulesNilFree(rules) && !RulesMatch(rules, podLabels)
  {
    if rules != [] {
      PeersScanMeaning(rules[0], podLabels);
      RulesScanMeaning(rules[1..], podLabels);
      assert forall i :: 1 <= i < |rules| ==> rules[i] == rules[1..][i - 1];
      if RulesScan(rules, podLabels) == Hit && PeersScan(rules[0], podLabels) != Hit {
        var i, j :| 0 <= i < |rules[1..]| && 0 <= j < |rules[1..][i]| && PeerMatches(rules[1..][i][j], podLabels);
        assert PeerMatches(rules[i + 1][j], podLabels);
      }
      if RulesScan(rules, podLabels) == NilSelector && PeersScan(rules[0], podLabels) != NilSelector {
        var i, j :| 0 <= i < |rules[1..]| && 0 <= j < |rules[1..][i]| && rules[1..][i][j].podSelector.None?;
        assert rules[i + 1][j].podSelector.None?;
      }
      if RulesNilFree(rules) && !RulesMatch(rules, podLabels) {
        assert forall j :: 0 <= j < |rules[0]| ==> rules[0][j].podSelector.Some? && !PeerMatches(rules[0][j], podLabels);
      }
    }
  }

  /**
   * The search finds the first policy that matches: every earlier one has neither a match nor a
   * nil PodSelector. Nothing is found exactly when no policy matches and none has a nil selector.
   */
  lemma {:induction false} PoliciesSearchMeaning(ps: seq<PolicyValue>, podLabels: Labels)
    ensures PoliciesSearch(ps, podLabels).At? ==>
      var i := PoliciesSearch(ps, podLabels).index;
      && i < |ps| && PolicyMatches(ps[i], podLabels)
      && forall j :: 0 <= j < i ==> !PolicyMatches(ps[j], podLabels)
    ensures PoliciesSearch(ps, podLabels) == Nowhere <==>
      forall j :: 0 <= j < |ps| ==>
        && RulesNilFree(ps[j].ingress) && RulesNilFree(ps[j].egress) && !PolicyMatches(ps[j], podLabels)
  {
    if ps != [] {
      RulesScanMeaning(ps[0].ingress, podLabels);
      RulesScanMeaning(ps[0].egress, podLabels);
      PoliciesSearchMeaning(ps[1..], podLabels);
      assert forall j :: 1 <= j < |ps| ==> ps[j] == ps[1..][j - 1];
    }
  }

  /** With a selector on every peer, the search never panics: it finds a policy or reports none. */
  lemma {:induction false} PoliciesSearchNilFree(ps: seq<PolicyValue>, podLabels: Labels)
    requires forall j :: 0 <= j < |ps| ==> RulesNilFree(ps[j].ingress) && RulesNilFree(ps[j].egress)
    ensures PoliciesSearch(ps, podLabels) != Panic
    ensures PoliciesSearch(ps, podLabels).At? <==> exists j :: 0 <= j < |ps| && PolicyMatches(ps[j], podLabels)
  {
    PoliciesSearchMeaning(ps, podLabels);
    if ps != [] {
      RulesScanMeaning(ps[0].ingress, podLabels);
      RulesScanMeaning(ps[0].egress, podLabels);
      PoliciesSearchNilFree(ps[1..], podLabels);
      assert forall j :: 1 <= j < |ps| ==> ps[j] == ps[1..][j - 1];
    }
  }

  /**
   * The innermost loops of GetPolicyByPodLabels: a requirement other than In is skipped, and an
   * In requirement matches when some pod label has its key and one of its values.
   */
  method RequirementHit(req: Requirement, podLabels: Labels) returns (hit: bool)
    ensures hit == RequirementMatches(req, podLabels)
  {
    if req.op != In {
      return false;
    }
    var remaining := podLabels.Keys;
    while remaining != {}
      invariant remaining <= podLabels.Keys
      invariant req.key in podLabels.Keys - remaining ==> podLabels[req.key] !in req.values
      decreases remaining
    {
      var key :| key in remaining;
      var listed := Contains(req.values, podLabels[key]);
      if key == req.key && listed {
        return true;
      }
      remaining := remaining - {key};
    }
    return false;
  }

  /** The loop over the peers of one rule; NilSelector stands for the nil dereference. */
  method ScanPeers(peers: seq<PeerValue>, podLabels: Labels) returns (s: Scan)
    ensures s == PeersScan(peers, podLabels)
  {
    var i := 0;
    while i < |peers|
      invariant 0 <= i <= |peers|
      invariant PeersScan(peers[i..], podLabels) == PeersScan(peers, podLabels)
    {
      assert peers[i..][1..] == peers[i + 1..];
      if peers[i].podSelector.None? {
        return NilSelector;
      }
      var reqs := peers[i].podSelector.value;
      var j := 0;
      while j < |reqs|
        invariant 0 <= j <= |reqs|
        invariant forall j' :: 0 <= j' < j ==> !RequirementMatches(reqs[j'], podLabels)
      {
        var hit := RequirementHit(reqs[j], podLabels);
        if hit {
          return Hit;
        }
        j := j + 1;
      }
      i := i + 1;
    }
    return Miss;
  }

  /** The loop over the rules of one side of a policy. */
  method ScanRules(rules: seq<seq<PeerValue>>, podLabels: Labels) returns (s: Scan)
    ensures s == RulesScan(rules, podLabels)
  {
    var i := 0;
    while i < |rules|
      invariant 0 <= i <= |rules|
      invariant RulesScan(rules[i..], podLabels) == RulesScan(rules, podLabels)
    {
      assert rules[i..][1..] == rules[i + 1..];
      s := ScanPeers(rules[i], podLabels);
      if s != Miss {
        return s;
      }
      i := i + 1;
    }
    return Miss;
  }

  lemma RulesSelectorsAppend(rules: seq<seq<Peer>>, peers: seq<Peer>)
    ensures RulesSelectors(rules + [peers]) == RulesSelectors(rules) + Selectors(peers)
  {
    var all := rules + [peers];
    assert all[|rules|] == peers;
    forall s | s in RulesSelectors(all) ensures s in RulesSelectors(rules) + Selectors(peers) {
      var i :| 0 <= i < |all| && s in Selectors(all[i]);
      if i < |rules| { assert all[i] == rules[i]; }
    }
    forall s | s in RulesSelectors(rules) ensures s in RulesSelectors(all) {
      var i :| 0 <= i < |rules| && s in Selectors(rules[i]);
      assert all[i] == rules[i];
    }
  }

  /** The selectors of two lists of rules one after the other. */
  lemma RulesSelectorsConcat(a: seq<seq<Peer>>, b: seq<seq<Peer>>)
    ensures RulesSelectors(a + b) == RulesSelectors(a) + RulesSelectors(b)
  {
    var all := a + b;
    forall s | s in RulesSelectors(all) ensures s in RulesSelectors(a) + RulesSelectors(b) {
      var i :| 0 <= i < |all| && s in Selectors(all[i]);
      if i < |a| { assert all[i] == a[i]; } else { assert all[i] == b[i - |a|]; }
    }
    forall s | s in RulesSelectors(a) + RulesSelectors(b) ensures s in RulesSelectors(all) {
      if s in RulesSelectors(a) {
        var i :| 0 <= i < |a| && s in Selectors(a[i]);
        assert all[i] == a[i];
      } else {
        var i :| 0 <= i < |b| && s in Selectors(b[i]);
        assert all[|a| + i] == b[i];
      }
    }
  }

  /** The selectors of two lists of rules followed by two more peer lists, part by part. */
  lemma RulesSelectorsParts(a: seq<seq<Peer>>, b: seq<seq<Peer>>, c: seq<Peer>, d: seq<Peer>)
    ensures RulesSelectors(a + b + [c, d]) == RulesSelectors(a) + RulesSelectors(b) + Selectors(c) + Selectors(d)
  {
    RulesSelectorsConcat(a + b, [c, d]);
    RulesSelectorsConcat(a, b);
    RulesSelectorsAppend([], c);
    RulesSelectorsAppend([c], d);
    assert [] + [c] == [c] && [c] + [d] == [c, d];
    assert RulesSelectors([]) == {};
  }

  /** Unshared rules stay unshared with a rule of their own selectors appended. */
  lemma UnsharedAppend(rules: seq<seq<Peer>>, peers: seq<Peer>)
    requires Unshared(rules) && RulesSelectors(rules) !! Selectors(peers)
    requires forall j, k :: 0 <= j < k < |peers| && peers[j].podSelector != null ==> peers[j].podSelector != peers[k].podSelector
    ensures Unshared(rules + [peers])
  {
    var all := rules + [peers];
    forall i, i' | 0 <= i < i' < |all| ensures Selectors(all[i]) !! Selectors(all[i']) {
      if i' == |rules| {
        assert all[i] == rules[i] && Selectors(rules[i]) <= RulesSelectors(rules);
      }
    }
  }

  /** A stored peer list as peers pointing at new selectors. */
  method MaterializePeers(vs: seq<PeerValue>, ghost avoid: set<Selector>) returns (peers: seq<Peer>)
    ensures PeersValue(peers) == vs
    ensures fresh(Selectors(peers)) && avoid !! Selectors(peers)
    ensures forall j, k :: 0 <= j < k < |peers| && peers[j].podSelector != null ==> peers[j].podSelector != peers[k].podSelector
  {
    peers := [];
    while |peers| < |vs|
      invariant |peers| <= |vs| && PeersValue(peers) == vs[..|peers|]
      invariant fresh(Selectors(peers)) && avoid !! Selectors(peers)
      invariant forall j, k :: 0 <= j < k < |peers| && peers[j].podSelector != null ==> peers[j].podSelector != peers[k].podSelector
      decreases |vs| - |peers|
    {
      var v := vs[|peers|];
      var p := Peer(null);
      if v.podSelector.Some? {
        assert forall j :: 0 <= j < |peers| && peers[j].podSelector != null ==> peers[j].podSelector in Selectors(peers);
        var sel := new Selector(v.podSelector.value);
        FreshAppend(peers, sel);
        p := Peer(sel);
      } else {
        SelectorsAppend(peers, p);
      }
      assert (peers + [p])[..|peers|] == peers;
      PrefixStep(vs, |peers|);
      peers := peers + [p];
    }
    assert vs[..|peers|] == vs;
  }

  /** A rule of peers with selectors of their own, appended to unshared rules. */
  lemma MaterializedStep(rules: seq<seq<Peer>>, peers: seq<Peer>)
    requires Unshared(rules) && RulesSelectors(rules) !! Selectors(peers)
    requires forall j, k :: 0 <= j < k < |peers| && peers[j].podSelector != null ==> peers[j].podSelector != peers[k].podSelector
    ensures Unshared(rules + [peers])
    ensures RulesSelectors(rules + [peers]) == RulesSelectors(rules) + Selectors(peers)
    ensures RulesValue(rules + [peers]) == RulesValue(rules) + [PeersValue(peers)]
  {
    RulesSelectorsAppend(rules, peers);
    UnsharedAppend(rules, peers);
    assert (rules + [peers])[..|rules|] == rules;
  }

  /** Stored rules as rules of peers pointing at new selectors. */
  method MaterializeRules(vss: seq<seq<PeerValue>>) returns (rules: seq<seq<Peer>>)
    ensures RulesValue(rules) == vss
    ensures fresh(RulesSelectors(rules))
    ensures Unshared(rules)
  {
    rules := [];
    while |rules| < |vss|
      invariant |rules| <= |vss| && RulesValue(rules) == vss[..|rules|]
      invariant fresh(RulesSelectors(rules))
      invariant Unshared(rules)
      decreases |vss| - |rules|
    {
      ghost var done := RulesValue(rules);
      var peers := MaterializePeers(vss[|rules|], RulesSelectors(rules));
      assert RulesValue(rules) == done;
      MaterializedStep(rules, peers);
      PrefixStep(vss, |rules|);
      rules := rules + [peers];
    }
    assert vss[..|rules|] == vss;

  }

  /** A stored policy as a new in-memory policy: what GetPolicyByPodLabels hands back. */
  method Materialize(v: PolicyValue) returns (p: Policy)
    ensures fresh(p) && fresh(RulesSelectors(p.ingress)) && fresh(RulesSelectors(p.egress))
    ensures p.Value() == v
    ensures Apart(p.ingress, p.egress)
  {
    var ingress := MaterializeRules(v.ingress);
    var egress := MaterializeRules(v.egress);
    p := new Policy(v.name, v.namespace, v.matchLabels, ingress, egress, v.policyTypes);
  }

  /** A search outcome over a suffix, seen from `n` policies earlier. */
  function Shifted(s: Search, n: nat): Search {
    if s.At? then At(s.index + n) else s
  }

  /** The search over a suffix, unfolded once. */
  lemma SearchFrom(ps: seq<PolicyValue>, i: nat, podLabels: Labels)
    requires i < |ps|
    ensures PoliciesSearch(ps[i..], podLabels) ==
      match PolicyScan(ps[i], podLabels)
      case Hit => At(0)
      case NilSelector => Panic
      case Miss => Shifted(PoliciesSearch(ps[i + 1..], podLabels), 1)
  {
    assert ps[i..][0] == ps[i] && ps[i..][1..] == ps[i + 1..];
  }

  /** Every stored rule has at least one peer: the purge reads the first peer of each. */
  predicate RulesNonEmpty(rules: seq<seq<PeerValue>>) {
    forall i :: 0 <= i < |rules| ==> |rules[i]| > 0
  }

  /** A policy whose stored rules are nonempty has nonempty rules in memory. */
  lemma NonEmptyInMemory(rules: seq<seq<Peer>>)
    requires RulesNonEmpty(RulesValue(rules))
    ensures forall i :: 0 <= i < |rules| ==> |rules[i]| > 0
  {
    RulesValueShape(rules);
  }

  /**
   * GetPolicyByPodLabels dereferences every PodSelector it reaches: listing the namespace must
   * not reach a peer without one before the matching policy.
   */
  predicate NoNilDeref(store: Store, namespace: string, podLabels: Labels)
    reads store
  {
    store.ListPolicies(namespace).Found? ==> PoliciesSearch(store.ListPolicies(namespace).value, podLabels) != Panic
  }

  /**
   * The loop of GetPolicyByPodLabels over the listed policies: the first one with a peer requiring
   * one of the pod's labels, policy by policy, ingress rules before egress rules.
   */
  method SearchPolicies(ps: seq<PolicyValue>, podLabels: Labels) returns (r: Search)
    requires PoliciesSearch(ps, podLabels) != Panic
    ensures r == PoliciesSearch(ps, podLabels)
  {
    var i := 0;
    while i < |ps|
      invariant 0 <= i <= |ps|
      invariant PoliciesSearch(ps, podLabels) == Shifted(PoliciesSearch(ps[i..], podLabels), i)
    {
      SearchFrom(ps, i, podLabels);
      var s := ScanRules(ps[i].ingress, podLabels);
      if s == Miss {
        s := ScanRules(ps[i].egress, podLabels);
      }
      if s == NilSelector {
        assert false;
      }
      if s == Hit {
        return At(i);
      }
      i := i + 1;
    }
    return Nowhere;
  }

  /**
   * GetPolicyByPodLabels: a failed list is a read error; otherwise the first listed policy that
   * PoliciesSearch finds is returned as a new object, and none found (an empty list included) is
   * PolicyNotFound.
   */
  method GetPolicyByPodLabels(store: Store, namespace: string, podLabels: Labels) returns (r: Result<Policy>)
    requires NoNilDeref(store, namespace, podLabels)
    ensures !store.ListPolicies(namespace).Found? ==> r == Err(ReadFailed)
    ensures store.ListPolicies(namespace).Found? ==>
      var ps := store.ListPolicies(namespace).value;
      && (PoliciesSearch(ps, podLabels) == Nowhere ==> r == Err(PolicyNotFound))
      && (PoliciesSearch(ps, podLabels).At? ==>
            && r.Ok? && fresh(r.value) && fresh(RulesSelectors(r.value.ingress)) && fresh(RulesSelectors(r.value.egress))
            && r.value.Value() == ps[PoliciesSearch(ps, podLabels).index]
            && Apart(r.value.ingress, r.value.egress))
  {
    var allPolicies := store.ListPolicies(namespace);
    if !allPolicies.Found? {
      return Err(ReadFailed);
    }
    var ps := allPolicies.value;
    if |ps| == 0 {
      return Err(PolicyNotFound);
    }
    var found := SearchPolicies(ps, podLabels);
    if found.At? {
      var policy := Materialize(ps[found.index]);
      return Ok(policy);
    }
    return Err(PolicyNotFound);
  }
}
