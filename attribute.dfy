/**
 * Label and attribute algebra: label multimaps, cluster-local environment references and their
 * resolution to the labels of the pods and services they name (handlers/attribute/attribute.go).
 */
module Attribute {
  import opened Kube
  import opened Seqs
  import opened Strings
  import opened Cluster

  /** Contains: whether some element of `elems` equals `v`. */
  method Contains<T(==)>(elems: seq<T>, v: T) returns (r: bool)
    ensures r <==> v in elems
  {
    if |elems| == 0 {
      return false;
    }
    var i := 0;
    while i < |elems|
      invariant 0 <= i <= |elems|
      invariant v !in elems[..i]
    {
      if v == elems[i] {
        return true;
      }
      i := i + 1;
    }
    assert elems[..i] == elems;
    return false;
  }

  /** MapsEqual: same size and every key of `a` maps to the same value in `b`, i.e. map equality. */
  method MapsEqual<K, V(==)>(a: map<K, V>, b: map<K, V>) returns (r: bool)
    ensures r <==> a == b
  {
    if |a| != |b| {
      return false;
    }
    var remaining := a.Keys;
    while remaining != {}
      invariant remaining <= a.Keys
      invariant forall k :: k in a.Keys - remaining ==> k in b && a[k] == b[k]
      decreases remaining
    {
      var k :| k in remaining;
      if k !in b || a[k] != b[k] {
        return false;
      }
      remaining := remaining - {k};
    }
    assert a.Keys <= b.Keys;
    assert |a.Keys| == |a| && |b.Keys| == |b|;
    SameSizeSubsetIsEqual(a.Keys, b.Keys);
    return true;
  }

  lemma SameSizeSubsetIsEqual<K>(a: set<K>, b: set<K>)
    requires a <= b && |a| == |b|
    ensures a == b
  {
    assert b * a == a;
    assert |b - a| == |b| - |b * a| == 0;
    assert b - a == {};
  }

  /** The character class [a-zA-Z0-9-]. */
  predicate IsNameChar(c: char) {
    ('a' <= c <= 'z') || ('A' <= c <= 'Z') || ('0' <= c <= '9') || c == '-'
  }

  /** One or more characters of [a-zA-Z0-9-]. */
  predicate IsNameSegment(s: string) {
    |s| > 0 && forall i :: 0 <= i < |s| ==> IsNameChar(s[i])
  }

  /**
   * isValidLocalEnvVar: the whole string is `<name>.<namespace>.pod.cluster.local` or
   * `<name>.<namespace>.svc.cluster.local`. Written as a check of the dot-separated segments:
   * neither name nor namespace can hold a dot, so the segments pin the pattern down.
   */
  predicate IsValidLocalEnvVar(s: string) {
    var parts := Split(s);
    && |parts| == 5
    && IsNameSegment(parts[0])
    && IsNameSegment(parts[1])
    && (parts[2] == "pod" || parts[2] == "svc")
    && parts[3] == "cluster"
    && parts[4] == "local"
  }

  lemma NameSegmentDotFree(s: string)
    requires IsNameSegment(s)
    ensures DotFree(s)
  {
    forall i | 0 <= i < |s| ensures s[i] != '.' {
      assert IsNameChar(s[i]);
    }
  }

  /** Every `<name>.<namespace>.{pod|svc}.cluster.local` with well-formed name and namespace is accepted. */
  lemma LocalEnvVarAccepts(name: string, namespace: string, t: string)
    requires IsNameSegment(name) && IsNameSegment(namespace)
    requires t == "pod" || t == "svc"
    ensures IsValidLocalEnvVar(name + "." + namespace + "." + t + ".cluster.local")
  {
    var parts := [name, namespace, t, "cluster", "local"];
    NameSegmentDotFree(name);
    NameSegmentDotFree(namespace);
    assert DotFree("cluster") && DotFree("local") && DotFree(t);
    SplitJoin(parts);
    var tail := t + ".cluster.local";
    assert parts[2..][1..] == parts[3..] && parts[1..][1..] == parts[2..];
    assert Join(parts[3..]) == "cluster.local";
    assert Join(parts[2..]) == tail;
    assert Join(parts[1..]) == namespace + "." + tail;
    assert Join(parts) == name + "." + (namespace + "." + tail);
    var front := name + "." + namespace + ".";
    assert front + t + ".cluster.local" == front + tail;
    assert front + tail == name + "." + (namespace + "." + tail);
  }

  /** Conversely every accepted string has exactly that shape, with its own segments 0, 1 and 2. */
  lemma LocalEnvVarDecomposes(s: string)
    requires IsValidLocalEnvVar(s)
    ensures IsNameSegment(Split(s)[0]) && IsNameSegment(Split(s)[1])
    ensures Split(s)[2] == "pod" || Split(s)[2] == "svc"
    ensures s == Split(s)[0] + "." + Split(s)[1] + "." + Split(s)[2] + ".cluster.local"
  {
    var parts := Split(s);
    JoinSplit(s);
    assert parts[3..][1..] == parts[4..] && parts[2..][1..] == parts[3..];
    assert parts[1..][1..] == parts[2..] && parts[1..] == parts[1..];
    assert Join(parts[4..]) == "local";
    assert Join(parts[3..]) == "cluster" + "." + "local";
    assert Join(parts[2..]) == parts[2] + "." + ("cluster" + "." + "local");
    assert Join(parts[1..]) == parts[1] + "." + (parts[2] + "." + ("cluster" + "." + "local"));
    assert s == parts[0] + "." + (parts[1] + "." + (parts[2] + "." + ("cluster" + "." + "local")));
    assert "." + ("cluster" + "." + "local") == ".cluster.local";
    var front := parts[0] + "." + parts[1] + "." + parts[2];
    assert s == front + ".cluster.local";
  }

  /** A trailing extra segment (`... .cluster.local.extra`) is rejected. */
  lemma LocalEnvVarRejectsExtraSegment(s: string, extra: string)
    requires IsValidLocalEnvVar(s)
    ensures !IsValidLocalEnvVar(s + "." + extra)
  {
    SplitAroundDot(s, extra);
  }

  /** An accepted string contains the `.pod.cluster.local` or `.svc.cluster.local` suffix its segment names. */
  lemma LocalEnvVarHasSuffix(s: string)
    requires IsValidLocalEnvVar(s)
    ensures HasSubstring(s, ".svc.cluster.local") || HasSubstring(s, ".pod.cluster.local")
  {
    LocalEnvVarDecomposes(s);
    var parts := Split(s);
    var prefix := parts[0] + "." + parts[1];
    if parts[2] == "pod" {
      assert s == prefix + ".pod.cluster.local";
      HasOwnSuffix(prefix, ".pod.cluster.local");
    } else {
      assert s == prefix + ".svc.cluster.local";
      HasOwnSuffix(prefix, ".svc.cluster.local");
    }
  }

  /** appendUnique: `dst` followed by each element of `src` not yet present. */
  method AppendUnique(dst: seq<string>, src: seq<string>) returns (r: seq<string>)
    ensures r == AppendMissing(dst, src)
  {
    var present: set<string> := Elems(dst);
    r := dst;
    var j := 0;
    while j < |src|
      invariant 0 <= j <= |src|
      invariant r == AppendMissing(dst, src[..j])
      invariant present == Elems(r)
    {
      assert src[..j + 1][..j] == src[..j];
      if src[j] !in present {
        r := r + [src[j]];
        present := present + {src[j]};
      }
      j := j + 1;
    }
    assert src[..j] == src;
  }

  /** The keys of all the multimaps. */
  function UnionKeys(maps: seq<Multimap>): set<string> {
    if maps == [] then {} else UnionKeys(maps[..|maps| - 1]) + maps[|maps| - 1].Keys
  }

  /** The values of key `k` in all the multimaps. */
  function UnionValues(maps: seq<Multimap>, k: string): set<string> {
    if maps == [] then {}
    else UnionValues(maps[..|maps| - 1], k) + (if k in maps[|maps| - 1] then Elems(maps[|maps| - 1][k]) else {})
  }

  /** `m` is a merge of `maps`: their keys, each holding the duplicate-free union of its values. */
  predicate MergedFrom(maps: seq<Multimap>, m: Multimap) {
    && m.Keys == UnionKeys(maps)
    && forall k :: k in m ==> Distinct(m[k]) && Elems(m[k]) == UnionValues(maps, k)
  }

  /** Part-way through merging `target` into a merge of `prior`: the keys in `done` are merged. */
  predicate MergingInto(prior: seq<Multimap>, target: Multimap, done: set<string>, m: Multimap) {
    && done <= target.Keys
    && m.Keys == UnionKeys(prior) + done
    && forall k :: k in m ==>
         && Distinct(m[k])
         && Elems(m[k]) == UnionValues(prior, k) + (if k in done then Elems(target[k]) else {})
  }

  lemma MergingStart(prior: seq<Multimap>, target: Multimap, m: Multimap)
    requires MergedFrom(prior, m)
    ensures MergingInto(prior, target, {}, m)
  {
  }

  lemma MergingStep(prior: seq<Multimap>, target: Multimap, done: set<string>, m: Multimap, k: string)
    requires MergingInto(prior, target, done, m) && k in target && k !in done
    ensures MergingInto(prior, target, done + {k},
                        m[k := AppendMissing(if k in m then m[k] else [], target[k])])
  {
    var current := if k in m then m[k] else [];
    AppendMissingElems(current, target[k]);
    AppendMissingDistinct(current, target[k]);
    if k !in m {
      UnionValuesOutsideKeys(prior, k);
    }
  }

  lemma MergingEnd(prior: seq<Multimap>, target: Multimap, m: Multimap)
    requires MergingInto(prior, target, target.Keys, m)
    ensures MergedFrom(prior + [target], m)
  {
    assert (prior + [target])[..|prior|] == prior;
  }

  /** MergeLabels: zero maps is EmptyParam; otherwise the key-wise, duplicate-free union. */
  method MergeLabels(targetLabels: seq<Multimap>) returns (r: Result<Multimap>)
    ensures |targetLabels| == 0 <==> r.Err?
    ensures r.Err? ==> r.error == EmptyParam
    ensures r.Ok? ==> MergedFrom(targetLabels, r.value)
  {
    if |targetLabels| == 0 {
      return Err(EmptyParam);
    }
    var merged: Multimap := map[];
    var i := 0;
    while i < |targetLabels|
      invariant 0 <= i <= |targetLabels|
      invariant MergedFrom(targetLabels[..i], merged)
    {
      var target := targetLabels[i];
      var remaining := target.Keys;
      ghost var done: set<string> := {};
      MergingStart(targetLabels[..i], target, merged);
      while remaining != {}
        invariant remaining == target.Keys - done
        invariant MergingInto(targetLabels[..i], target, done, merged)
        decreases remaining
      {
        var k :| k in remaining;
        var current := if k in merged then merged[k] else [];
        var appended := AppendUnique(current, target[k]);
        MergingStep(targetLabels[..i], target, done, merged, k);
        merged := merged[k := appended];
        remaining := remaining - {k};
        done := done + {k};
      }
      assert done == target.Keys;
      assert targetLabels[..i + 1] == targetLabels[..i] + [target];
      MergingEnd(targetLabels[..i], target, merged);
      i := i + 1;
    }
    assert targetLabels[..i] == targetLabels;
    return Ok(merged);
  }

  lemma {:induction false} UnionValuesOutsideKeys(maps: seq<Multimap>, k: string)
    requires k !in UnionKeys(maps)
    ensures UnionValues(maps, k) == {}
    decreases |maps|
  {
    if maps != [] {
      UnionValuesOutsideKeys(maps[..|maps| - 1], k);
    }
  }

  /** Each label as a key holding the singleton list of its value. */
  function Lifted(labels: Labels): Multimap {
    map k | k in labels :: [labels[k]]
  }

  /** ConvertLabels: each label becomes a key holding the singleton list of its value. */
  method ConvertLabels(labels: Labels) returns (newMap: Multimap)
    ensures newMap.Keys == labels.Keys
    ensures forall k :: k in newMap ==> newMap[k] == [labels[k]]
    ensures newMap == Lifted(labels)
  {
    newMap := map[];
    var remaining := labels.Keys;
    while remaining != {}
      invariant remaining <= labels.Keys
      invariant newMap.Keys == labels.Keys - remaining
      invariant forall k :: k in newMap ==> newMap[k] == [labels[k]]
      decreases remaining
    {
      var k :| k in remaining;
      newMap := newMap[k := [labels[k]]];
      remaining := remaining - {k};
    }
  }

  lemma DistinctWithOneElement(s: seq<string>, x: string)
    requires Distinct(s) && Elems(s) == {x}
    ensures s == [x]
  {
    DistinctElemsCount(s);
    assert |s| == 1;
    assert s[0] in Elems(s);
  }

  lemma MergedFromTwo(a: Multimap, b: Multimap)
    ensures UnionKeys([a, b]) == a.Keys + b.Keys
    ensures forall k :: (UnionValues([a, b], k) ==
      (if k in a then Elems(a[k]) else {}) + (if k in b then Elems(b[k]) else {}))
  {
    assert [a, b][..1] == [a] && [a][..0] == [];
    assert UnionKeys([a]) == a.Keys;
    forall k ensures UnionValues([a], k) == (if k in a then Elems(a[k]) else {}) {
    }
  }

  /** Merging a lifted label set with itself gives the lifted label set back. */
  lemma MergeLiftedWithItself(labels: Labels, m: Multimap)
    requires MergedFrom([Lifted(labels), Lifted(labels)], m)
    ensures m == Lifted(labels)
  {
    var lifted := Lifted(labels);
    MergedFromTwo(lifted, lifted);
    forall k | k in m ensures m[k] == [labels[k]] {
      assert Elems([labels[k]]) == {labels[k]};
      DistinctWithOneElement(m[k], labels[k]);
    }
  }

  /** Merging is commutative in content: the same keys, each with the same set of values. */
  lemma MergeCommutes(a: Multimap, b: Multimap, ab: Multimap, ba: Multimap)
    requires MergedFrom([a, b], ab) && MergedFrom([b, a], ba)
    ensures ab.Keys == ba.Keys
    ensures forall k :: k in ab ==> Elems(ab[k]) == Elems(ba[k])
  {
    MergedFromTwo(a, b);
    MergedFromTwo(b, a);
  }

  /** All the environment entries of the containers, in container order. */
  function AllEnv(containers: seq<Container>): seq<EnvVar> {
    if containers == [] then []
    else AllEnv(containers[..|containers| - 1]) + containers[|containers| - 1].env
  }

  /** The entries of the containers up to `i`, one container further. */
  lemma AllEnvStep(containers: seq<Container>, i: nat)
    requires i < |containers|
    ensures AllEnv(containers[..i + 1]) == AllEnv(containers[..i]) + containers[i].env
  {
    assert containers[..i + 1][..i] == containers[..i];
  }

  /** The entries of `env` whose value passes `keep`, a later entry of the same name replacing an earlier one. */
  function LastWins(env: seq<EnvVar>, keep: string -> bool): map<string, string> {
    if env == [] then map[]
    else
      var m := LastWins(env[..|env| - 1], keep);
      var e := env[|env| - 1];
      if keep(e.value) then m[e.name := e.value] else m
  }

  /** One more entry overrides its name when it passes and changes nothing otherwise. */
  lemma LastWinsSnoc(env: seq<EnvVar>, e: EnvVar, keep: string -> bool)
    ensures LastWins(env + [e], keep) == if keep(e.value) then LastWins(env, keep)[e.name := e.value] else LastWins(env, keep)
  {
    assert (env + [e])[..|env|] == env;
  }

  /** A name is kept iff some entry of that name passes. */
  lemma {:induction false} LastWinsKeys(env: seq<EnvVar>, keep: string -> bool, k: string)
    ensures k in LastWins(env, keep) <==> exists i :: 0 <= i < |env| && env[i].name == k && keep(env[i].value)
    decreases |env|
  {
    if env != [] {
      var init := env[..|env| - 1];
      LastWinsKeys(init, keep, k);
      if exists i :: 0 <= i < |env| && env[i].name == k && keep(env[i].value) {
        var i :| 0 <= i < |env| && env[i].name == k && keep(env[i].value);
        if i < |init| { assert init[i] == env[i]; }
      }
      if exists i :: 0 <= i < |init| && init[i].name == k && keep(init[i].value) {
        var i :| 0 <= i < |init| && init[i].name == k && keep(init[i].value);
        assert env[i] == init[i];
      }
    }
  }

  /** A kept name holds the value of the last passing entry of that name. */
  lemma {:induction false} LastWinsValue(env: seq<EnvVar>, keep: string -> bool, k: string)
    requires k in LastWins(env, keep)
    ensures exists i :: (0 <= i < |env| && env[i] == EnvVar(k, LastWins(env, keep)[k]) && keep(env[i].value)
      && forall j :: i < j < |env| && env[j].name == k ==> !keep(env[j].value))
    decreases |env|
  {
    var init := env[..|env| - 1];
    var e := env[|env| - 1];
    if e.name == k && keep(e.value) {
      assert env[|env| - 1] == EnvVar(k, LastWins(env, keep)[k]);
    } else {
      LastWinsValue(init, keep, k);
      var i :| 0 <= i < |init| && init[i] == EnvVar(k, LastWins(init, keep)[k]) && keep(init[i].value)
        && forall j :: i < j < |init| && init[j].name == k ==> !keep(init[j].value);
      assert env[i] == init[i];
      forall j | i < j < |env| && env[j].name == k ensures !keep(env[j].value) {
        if j < |init| { assert env[j] == init[j]; }
      }
    }
  }

  /** The filter GetLocalEnvVars applies to an entry's value. */
  predicate IsLocalRef(v: string) {
    (HasSubstring(v, ".svc.cluster.local") || HasSubstring(v, ".pod.cluster.local")) && IsValidLocalEnvVar(v)
  }

  /** The substring test in front of the validity test never rejects a valid reference. */
  lemma LocalRefIsValidLocalEnvVar(v: string)
    ensures IsLocalRef(v) <==> IsValidLocalEnvVar(v)
  {
    if IsValidLocalEnvVar(v) {
      LocalEnvVarHasSuffix(v);
    }
  }

  /**
   * The cluster-local environment of `env`: a name is present iff some entry of that name holds
   * a valid cluster-local reference, and then it maps to the last such reference.
   */
  lemma LocalEnvExact(env: seq<EnvVar>, k: string)
    ensures k in LastWins(env, IsLocalRef) <==>
      exists i :: 0 <= i < |env| && env[i].name == k && IsValidLocalEnvVar(env[i].value)
    ensures k in LastWins(env, IsLocalRef) ==>
      exists i :: (0 <= i < |env| && env[i] == EnvVar(k, LastWins(env, IsLocalRef)[k]) && IsValidLocalEnvVar(env[i].value)
        && forall j :: i < j < |env| && env[j].name == k ==> !IsValidLocalEnvVar(env[j].value))
  {
    forall v { LocalRefIsValidLocalEnvVar(v); }
    LastWinsKeys(env, IsLocalRef, k);
    if k in LastWins(env, IsLocalRef) {
      LastWinsValue(env, IsLocalRef, k);
    }
  }

  /** Every cluster-local reference splits into at least a name and a namespace segment. */
  lemma LocalEnvSplittable(env: seq<EnvVar>)
    ensures Splittable(LastWins(env, IsLocalRef))
  {
    forall e | e in LastWins(env, IsLocalRef) ensures |Split(LastWins(env, IsLocalRef)[e])| >= 2 {
      var v := LastWins(env, IsLocalRef)[e];
      LastWinsValue(env, IsLocalRef, e);
      LocalRefIsValidLocalEnvVar(v);
      LocalEnvVarDecomposes(v);
    }
  }

  /** GetLocalEnvVars: the cluster-local environment entries of a Pod, Deployment, StatefulSet or DaemonSet. */
  method GetLocalEnvVars(obj: Workload) returns (r: Result<map<string, string>>)
    ensures !IsWorkloadKind(obj.kind) <==> r.Err?
    ensures r.Err? ==> r.error == TypeNotSupported
    ensures r.Ok? ==> r.value == LastWins(AllEnv(obj.containers), IsLocalRef)
  {
    if !IsWorkloadKind(obj.kind) {
      return Err(TypeNotSupported);
    }
    var containers := obj.containers;
    var envVars: map<string, string> := map[];
    var i := 0;
    while i < |containers|
      invariant 0 <= i <= |containers|
      invariant envVars == LastWins(AllEnv(containers[..i]), IsLocalRef)
    {
      var env := containers[i].env;
      ghost var before := AllEnv(containers[..i]);
      assert before + env[..0] == before;
      var j := 0;
      while j < |env|
        invariant 0 <= j <= |env|
        invariant envVars == LastWins(before + env[..j], IsLocalRef)
      {
        var v := env[j].value;
        AppendPrefixStep(before, env, j);
        LastWinsSnoc(before + env[..j], env[j], IsLocalRef);
        if IsLocalRef(v) {
          envVars := envVars[env[j].name := v];
        }
        j := j + 1;
      }
      assert env[..j] == env;
      AllEnvStep(containers, i);
      i := i + 1;
    }
    assert containers[..i] == containers;
    return Ok(envVars);
  }

  /** getLabelsFromSvc: a service's selector; a missing service or an empty selector is ResourceNotFound. */
  function LabelsFromService(store: Store, name: string, namespace: string): (r: Result<Labels>)
    reads store
    ensures store.GetService(namespace, name).Unreachable? <==> r == Err(ReadFailed)
    ensures r.Ok? <==> store.GetService(namespace, name).Found? && |store.GetService(namespace, name).value| > 0
    ensures r.Ok? ==> r.value == store.GetService(namespace, name).value
    ensures r.Err? ==> r.error == ReadFailed || r.error == ResourceNotFound
  {
    match store.GetService(namespace, name)
    case Unreachable => Err(ReadFailed)
    case Missing => Err(ResourceNotFound)
    case Found(selector) => if |selector| == 0 then Err(ResourceNotFound) else Ok(selector)
  }

  /** The labels one cluster-local reference resolves to: segment 0 names the object, segment 1 its namespace. */
  function ResolveRef(store: Store, v: string): (r: Result<Labels>)
    requires |Split(v)| >= 2
    reads store
    ensures r.Err? ==> r.error == ResourceNotFound || r.error == ReadFailed
  {
    var name := Split(v)[0];
    var namespace := Split(v)[1];
    if HasSubstring(v, ".pod.cluster.local") then
      match store.GetPod(namespace, name)
      case Found(labels) => Ok(labels)
      case Missing => Err(ResourceNotFound)
      case Unreachable => Err(ReadFailed)
    else LabelsFromService(store, name, namespace)
  }

  /** Every value can be split into a name and a namespace. */
  predicate Splittable(envVars: map<string, string>) {
    forall e :: e in envVars ==> |Split(envVars[e])| >= 2
  }

  /** What each environment entry's reference resolves to. */
  ghost function Resolutions(store: Store, envVars: map<string, string>): map<string, Result<Labels>>
    requires Splittable(envVars)
    reads store
  {
    map e | e in envVars :: ResolveRef(store, envVars[e])
  }

  /** The entries among `names` whose reference resolved to labels holding key `k`. */
  function Contributors(res: map<string, Result<Labels>>, names: set<string>, k: string): set<string> {
    set e | e in names && e in res && res[e].Ok? && k in res[e].value
  }

  /** `acc` with every label of `labels` appended to its key's list. */
  function AddLabelValues(acc: Multimap, labels: Labels): Multimap {
    map k | k in acc.Keys + labels.Keys ::
      (if k in acc then acc[k] else []) + (if k in labels then [labels[k]] else [])
  }

  /** The inner append loop of GetLabelsFromEnvVars: each label's value is appended to its key's list. */
  method AppendLabelValues(acc: Multimap, labels: Labels) returns (r: Multimap)
    ensures r == AddLabelValues(acc, labels)
  {
    r := acc;
    var remaining := labels.Keys;
    ghost var done: set<string> := {};
    while remaining != {}
      invariant done <= labels.Keys && remaining == labels.Keys - done
      invariant r.Keys == acc.Keys + done
      invariant forall k :: k in r ==> r[k] == (if k in acc then acc[k] else []) + (if k in done then [labels[k]] else [])
      decreases remaining
    {
      var k :| k in remaining;
      r := r[k := (if k in r then r[k] else []) + [labels[k]]];
      remaining := remaining - {k};
      done := done + {k};
    }
  }

  /** The entries among `names` whose reference resolved to labels mapping key `k` to `v`. */
  function Givers(res: map<string, Result<Labels>>, names: set<string>, k: string, v: string): set<string> {
    set e | e in names && e in res && res[e].Ok? && k in res[e].value && res[e].value[k] == v
  }

  /**
   * `labels` holds what the references named in `done` resolve to: every one of them resolves,
   * a key is present iff one of them has it, and it holds one value per such reference: each
   * value as many times as there are references giving the key that value.
   */
  ghost predicate Collected(res: map<string, Result<Labels>>, done: set<string>, labels: Multimap) {
    && (forall e :: e in done ==> e in res && res[e].Ok?)
    && (forall k :: k in labels <==> Contributors(res, done, k) != {})
    && (forall k :: k in labels ==> |labels[k]| == |Contributors(res, done, k)|)
    && (forall k, v :: k in labels ==> multiset(labels[k])[v] == |Givers(res, done, k, v)|)
  }

  lemma ContributorsStep(res: map<string, Result<Labels>>, done: set<string>, e: string, found: Labels, k: string)
    requires e in res && e !in done && res[e] == Ok(found)
    ensures Contributors(res, done + {e}, k) == Contributors(res, done, k) + (if k in found then {e} else {})
    ensures k in found ==> |Contributors(res, done + {e}, k)| == |Contributors(res, done, k)| + 1
    ensures k !in found ==> |Contributors(res, done + {e}, k)| == |Contributors(res, done, k)|
  {
    var c := Contributors(res, done, k);
    assert e !in c;
    if k in found {
      assert |c + {e}| == |c| + 1;
    }
  }

  lemma CollectedCountStep(res: map<string, Result<Labels>>, done: set<string>, labels: Multimap, e: string, found: Labels)
    requires forall k :: k in labels <==> Contributors(res, done, k) != {}
    requires forall k :: k in labels ==> |labels[k]| == |Contributors(res, done, k)|
    requires e in res && e !in done && res[e] == Ok(found)
    ensures forall k :: k in AddLabelValues(labels, found) <==> Contributors(res, done + {e}, k) != {}
    ensures forall k :: k in AddLabelValues(labels, found) ==>
      |AddLabelValues(labels, found)[k]| == |Contributors(res, done + {e}, k)|
  {
    var next := AddLabelValues(labels, found);
    forall k ensures (k in next <==> Contributors(res, done + {e}, k) != {})
      && (k in next ==> |next[k]| == |Contributors(res, done + {e}, k)|)
    {
      ContributorsStep(res, done, e, found, k);
      if k in next && k !in labels {
        assert Contributors(res, done, k) == {};
      }
    }
  }

  lemma GiversStep(res: map<string, Result<Labels>>, done: set<string>, e: string, found: Labels, k: string, v: string)
    requires e in res && e !in done && res[e] == Ok(found)
    ensures |Givers(res, done + {e}, k, v)| == |Givers(res, done, k, v)| + (if k in found && found[k] == v then 1 else 0)
  {
    var g := Givers(res, done, k, v);
    assert e !in g;
    if k in found && found[k] == v {
      assert Givers(res, done + {e}, k, v) == g + {e};
    } else {
      assert Givers(res, done + {e}, k, v) == g;
    }
  }

  lemma CollectedMultiplicityStep(res: map<string, Result<Labels>>, done: set<string>, labels: Multimap, e: string, found: Labels)
    requires forall k :: k in labels <==> Contributors(res, done, k) != {}
    requires forall k, v :: k in labels ==> multiset(labels[k])[v] == |Givers(res, done, k, v)|
    requires e in res && e !in done && res[e] == Ok(found)
    ensures forall k, v :: k in AddLabelValues(labels, found) ==>
      multiset(AddLabelValues(labels, found)[k])[v] == |Givers(res, done + {e}, k, v)|
  {
    var next := AddLabelValues(labels, found);
    forall k, v | k in next ensures multiset(next[k])[v] == |Givers(res, done + {e}, k, v)| {
      GiversStep(res, done, e, found, k, v);
      var prev := if k in labels then labels[k] else [];
      var tail := if k in found then [found[k]] else [];
      assert next[k] == prev + tail;
      assert multiset(next[k]) == multiset(prev) + multiset(tail);
      if k !in labels {
        assert Contributors(res, done, k) == {};
        assert Givers(res, done, k, v) <= Contributors(res, done, k);
      }
    }
  }

  lemma CollectedEmpty(res: map<string, Result<Labels>>)
    ensures Collected(res, {}, map[])
  {
  }

  /** The collected keys are exactly the keys some entry's labels carry. */
  lemma CollectedKeys(res: map<string, Result<Labels>>, done: set<string>, labels: Multimap, keys: set<string>)
    requires Collected(res, done, labels)
    requires forall k :: Contributors(res, done, k) != {} <==> k in keys
    ensures labels.Keys == keys
  {
  }

  /** A collected key holds exactly the values its contributors give it. */
  lemma CollectedValues(res: map<string, Result<Labels>>, done: set<string>, labels: Multimap, k: string)
    requires Collected(res, done, labels) && k in labels
    ensures Elems(labels[k]) == set e | e in Contributors(res, done, k) :: res[e].value[k]
  {
    var given := set e | e in Contributors(res, done, k) :: res[e].value[k];
    forall v | v in labels[k] ensures v in given {
      assert multiset(labels[k])[v] > 0;
      var e :| e in Givers(res, done, k, v);
      assert e in Contributors(res, done, k);
    }
    forall v | v in given ensures v in labels[k] {
      var e :| e in Contributors(res, done, k) && res[e].value[k] == v;
      assert e in Givers(res, done, k, v);
    }
  }

  /** What the references resolve to fixes the collected keys, and each key's values up to order. */
  lemma CollectedDetermined(res: map<string, Result<Labels>>, done: set<string>, a: Multimap, b: Multimap)
    requires Collected(res, done, a) && Collected(res, done, b)
    ensures a.Keys == b.Keys
    ensures forall k :: k in a ==> multiset(a[k]) == multiset(b[k])
  {
    forall k | k in a ensures multiset(a[k]) == multiset(b[k]) {
      forall v ensures multiset(a[k])[v] == multiset(b[k])[v] {
      }
    }
  }

  /** Appending the labels of one more resolved reference keeps `Collected`. */
  lemma CollectedStep(res: map<string, Result<Labels>>, done: set<string>, labels: Multimap, e: string, found: Labels)
    requires Collected(res, done, labels)
    requires e in res && e !in done && res[e] == Ok(found)
    ensures Collected(res, done + {e}, AddLabelValues(labels, found))
  {
    CollectedCountStep(res, done, labels, e, found);
    CollectedMultiplicityStep(res, done, labels, e, found);
  }

  /** CollectedStep for the loop of GetLabelsFromEnvVars, which takes `e` out of `remaining`. */
  lemma CollectedNext(res: map<string, Result<Labels>>, keys: set<string>, remaining: set<string>, labels: Multimap,
                      e: string, found: Labels)
    requires Collected(res, keys - remaining, labels)
    requires e in remaining && remaining <= keys && e in res && res[e] == Ok(found)
    ensures Collected(res, keys - (remaining - {e}), AddLabelValues(labels, found))
  {
    assert keys - (remaining - {e}) == (keys - remaining) + {e};
    CollectedStep(res, keys - remaining, labels, e, found);
  }

  /**
   * `labels` is what the references of `envVars` resolve to, put together: every reference
   * resolves, a key is present iff some resolved label set has it, and it holds one value per
   * such reference: each value as many times as there are references giving it (duplicates kept).
   */
  ghost predicate ReferencedLabels(store: Store, envVars: map<string, string>, labels: Multimap)
    requires Splittable(envVars)
    reads store
  {
    Collected(Resolutions(store, envVars), envVars.Keys, labels)
  }

  /**
   * GetLabelsFromEnvVars: no references is NoEnvVars; otherwise every reference is resolved (a
   * Pod when the value holds `.pod.cluster.local`, else a Service) and its labels appended, so a
   * key collects one value per reference that has it (duplicates kept). The first failing
   * reference, in map order, decides the error.
   */
  method GetLabelsFromEnvVars(store: Store, envVars: map<string, string>) returns (r: Result<Multimap>)
    requires Splittable(envVars)
    ensures |envVars| == 0 <==> r == Err(NoEnvVars)
    ensures r.Ok? <==> |envVars| > 0 && forall e :: e in envVars ==> ResolveRef(store, envVars[e]).Ok?
    ensures r.Err? && |envVars| > 0 ==> exists e :: e in envVars && ResolveRef(store, envVars[e]) == Err(r.error)
    ensures r.Ok? ==> ReferencedLabels(store, envVars, r.value)
  {
    if |envVars| == 0 {
      return Err(NoEnvVars);
    }
    var labels: Multimap := map[];
    var remaining := envVars.Keys;
    ghost var res := Resolutions(store, envVars);
    CollectedEmpty(res);
    assert envVars.Keys - remaining == {};
    while remaining != {}
      invariant remaining <= envVars.Keys
      invariant Collected(res, envVars.Keys - remaining, labels)
      decreases remaining
    {
      var e :| e in remaining;
      var resolved := ResolveRef(store, envVars[e]);
      if resolved.Err? {
        return Err(resolved.error);
      }
      CollectedNext(res, envVars.Keys, remaining, labels, e, resolved.value);
      labels := AppendLabelValues(labels, resolved.value);
      remaining := remaining - {e};
    }
    assert envVars.Keys - remaining == envVars.Keys;
    return Ok(labels);

  }
}
