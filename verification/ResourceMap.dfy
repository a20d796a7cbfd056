/** From Prometheus labels to a monitored resource (retrieval/resource_map.go:170-223,
    retrieval/series_cache.go:483-503). */
module ResourceMap {
  import opened Common

  datatype Translation = Translation(target: string, convert: string -> string)

  /** `typ` is the resource type; an empty match label is ignored. */
  datatype ResourceMap = ResourceMap(typ: string, matchLabel: string, labelMap: map<string, Translation>)

  // ---- Specification ----

  predicate Occurs(name: string, labels: seq<Label>) {
    exists i :: 0 <= i < |labels| && labels[i].name == name
  }

  predicate Matched(m: ResourceMap, discovered: seq<Label>) {
    m.matchLabel == "" || Occurs(m.matchLabel, discovered)
  }

  /** The last value a label list gives a name. */
  function LastValue(labels: seq<Label>, name: string): Option<string> {
    if labels == [] then None
    else if labels[|labels| - 1].name == name then Some(labels[|labels| - 1].value)
    else LastValue(labels[..|labels| - 1], name)
  }

  /** The entry labels no resource label is made of, in order. */
  function Unused(m: ResourceMap, labels: seq<Label>): seq<Label> {
    if labels == [] then []
    else
      var l := labels[|labels| - 1];
      Unused(m, labels[..|labels| - 1]) + (if l.name in m.labelMap then [] else [l])
  }

  /** One label after the other is written to the resource, a later one over an earlier one. */
  function Fill(m: ResourceMap, labels: seq<Label>): map<string, string> {
    if labels == [] then map[]
    else
      var l := labels[|labels| - 1];
      var before := Fill(m, labels[..|labels| - 1]);
      if l.name in m.labelMap then before[m.labelMap[l.name].target := m.labelMap[l.name].convert(l.value)] else before
  }

  function Targets(m: ResourceMap, keys: set<string>): set<string>
    requires keys <= m.labelMap.Keys
  {
    set k <- keys :: m.labelMap[k].target
  }

  ghost predicate DistinctTargets(m: ResourceMap, keys: set<string>)
    requires keys <= m.labelMap.Keys
  {
    forall j, k :: j in keys && k in keys && m.labelMap[j].target == m.labelMap[k].target ==> j == k
  }

  /** The label map's keys that occur among the labels. */
  function KeysIn(m: ResourceMap, labels: seq<Label>): set<string> {
    set k <- m.labelMap.Keys | Occurs(k, labels)
  }

  // ---- The code ----

  /** The first loop of tryTranslate. */
  method FillDiscovered(m: ResourceMap, discovered: seq<Label>) returns (labels: map<string, string>, matched: bool)
    ensures labels == Fill(m, discovered)
    ensures matched <==> Occurs(m.matchLabel, discovered)
  {
    matched, labels := false, map[];
    var i := 0;
    while i < |discovered|
      invariant 0 <= i <= |discovered|
      invariant matched <==> Occurs(m.matchLabel, discovered[..i])
      invariant labels == Fill(m, discovered[..i])
    {
      var l := discovered[i];
      assert discovered[..i + 1] == discovered[..i] + [l];
      OccursSnoc(m.matchLabel, discovered[..i], l);
      FillSnoc(m, discovered[..i], l);
      if l.name == m.matchLabel {
        matched := true;
      }
      if l.name in m.labelMap {
        labels := labels[m.labelMap[l.name].target := m.labelMap[l.name].convert(l.value)];
      }
      i := i + 1;
    }
    assert discovered[..i] == discovered;
  }

  lemma NextEntry(m: ResourceMap, discovered: seq<Label>, entryLabels: seq<Label>, i: nat)
    requires i < |entryLabels|
    ensures var l, before := entryLabels[i], Fill(m, discovered + entryLabels[..i]);
      && Fill(m, discovered + entryLabels[..i + 1]) == (
           if l.name in m.labelMap then before[m.labelMap[l.name].target := m.labelMap[l.name].convert(l.value)]
             else before)
      && Unused(m, entryLabels[..i + 1]) == Unused(m, entryLabels[..i]) + (if l.name in m.labelMap then [] else [l])
  {
    var l := entryLabels[i];
    assert entryLabels[..i + 1] == entryLabels[..i] + [l];
    assert discovered + entryLabels[..i + 1] == (discovered + entryLabels[..i]) + [l];
    FillSnoc(m, discovered + entryLabels[..i], l);
    UnusedSnoc(m, entryLabels[..i], l);
  }

  /** The second loop: entry labels are written over discovered ones and used up. */
  method FillEntries(m: ResourceMap, ghost discovered: seq<Label>, filled: map<string, string>, entryLabels: seq<Label>)
    returns (labels: map<string, string>, finalLabels: seq<Label>)
    requires filled == Fill(m, discovered)
    ensures labels == Fill(m, discovered + entryLabels)
    ensures finalLabels == Unused(m, entryLabels)
  {
    labels, finalLabels := filled, [];
    var i := 0;
    assert discovered + entryLabels[..0] == discovered;
    while i < |entryLabels|
      invariant 0 <= i <= |entryLabels|
      invariant labels == Fill(m, discovered + entryLabels[..i])
      invariant finalLabels == Unused(m, entryLabels[..i])
    {
      var l := entryLabels[i];
      NextEntry(m, discovered, entryLabels, i);
      if l.name in m.labelMap {
        labels := labels[m.labelMap[l.name].target := m.labelMap[l.name].convert(l.value)];
      } else {
        finalLabels := finalLabels + [l];
      }
      i := i + 1;
    }
    assert entryLabels[..i] == entryLabels;
  }

  /** `resource` is None where the source returns a nil map. */
  method TryTranslate(m: ResourceMap, discovered: seq<Label>, entryLabels: seq<Label>)
    returns (resource: Option<map<string, string>>, finalLabels: seq<Label>)
    ensures resource == if Matched(m, discovered) then Some(Fill(m, discovered + entryLabels)) else None
    ensures finalLabels == Unused(m, entryLabels)
  {
    var labels, matched := FillDiscovered(m, discovered);
    labels, finalLabels := FillEntries(m, discovered, labels, entryLabels);
    if |m.matchLabel| > 0 && !matched {
      return None, finalLabels;
    }
    return Some(labels), finalLabels;
  }

  /** Translate: succeeds just when the match label is discovered, every key of the label map occurs among the labels
      and no two keys share a target; the source only compares two lengths. */
  method Translate(m: ResourceMap, discovered: seq<Label>, entryLabels: seq<Label>)
    returns (resource: Option<map<string, string>>, finalLabels: seq<Label>)
    ensures resource.Some? <==> Translates(m, discovered, entryLabels)
    ensures resource.Some? ==>
      resource.value == Fill(m, discovered + entryLabels) && finalLabels == Unused(m, entryLabels)
  {
    var labels, rest := TryTranslate(m, discovered, entryLabels);
    FillKeys(m, discovered + entryLabels);
    PigeonHole(m, KeysIn(m, discovered + entryLabels));
    if |m.labelMap| == if labels.Some? then |labels.value| else 0 {
      return labels, rest;
    }
    return None, [];
  }

  ghost predicate Translates(m: ResourceMap, discovered: seq<Label>, entryLabels: seq<Label>) {
    && Matched(m, discovered)
    && (forall k <- m.labelMap :: Occurs(k, discovered + entryLabels))
    && DistinctTargets(m, m.labelMap.Keys)
  }

  /** BestEffortTranslate: resource labels that cannot be filled are empty. If the match label is not discovered the
      map is nil, and writing an empty label to it panics. */
  method BestEffortTranslate(m: ResourceMap, discovered: seq<Label>, entryLabels: seq<Label>)
    returns (resource: Option<map<string, string>>, finalLabels: seq<Label>, panics: bool)
    ensures panics <==> !Matched(m, discovered) && m.labelMap != map[]
    ensures resource.Some? <==> Matched(m, discovered)
    ensures resource.Some? ==>
      && resource.value.Keys == Targets(m, m.labelMap.Keys)
      && forall t <- resource.value :: resource.value[t] == OrEmpty(Fill(m, discovered + entryLabels), t)
    ensures finalLabels == Unused(m, entryLabels)
  {
    var labels, rest := TryTranslate(m, discovered, entryLabels);
    if labels.None? {
      return None, rest, m.labelMap != map[];
    }
    FillKeys(m, discovered + entryLabels);
    var filled := FillMissing(m, labels.value);
    return Some(filled), rest, false;
  }

  method FillMissing(m: ResourceMap, labels: map<string, string>) returns (resource: map<string, string>)
    requires labels.Keys <= Targets(m, m.labelMap.Keys)
    ensures resource.Keys == Targets(m, m.labelMap.Keys)
    ensures forall t <- resource :: resource[t] == OrEmpty(labels, t)
  {
    resource := labels;
    var todo := m.labelMap.Keys;
    while todo != {}
      invariant todo <= m.labelMap.Keys
      invariant labels.Keys <= resource.Keys <= Targets(m, m.labelMap.Keys)
      invariant forall k <- m.labelMap :: k in todo || m.labelMap[k].target in resource
      invariant forall t <- resource :: resource[t] == OrEmpty(labels, t)
      decreases |todo|
    {
      var k :| k in todo;
      var t := m.labelMap[k].target;
      if t !in resource {
        resource := resource[t := ""];
      }
      todo := todo - {k};
    }
  }

  function OrEmpty(f: map<string, string>, t: string): string {
    if t in f then f[t] else ""
  }

  /** getResource: with the flag the GKE map is used as far as it goes; without it, or if that map is nil, the first map
      that translates. */
  method GetResource(useGke: bool, gke: ResourceMap, maps: seq<ResourceMap>,
                     discovered: seq<Label>, entryLabels: seq<Label>)
    returns (typ: Option<string>, resource: map<string, string>, finalLabels: seq<Label>, panics: bool)
    ensures panics <==> useGke && !Matched(gke, discovered) && gke.labelMap != map[]
    ensures useGke && Matched(gke, discovered) ==>
      && typ == Some(gke.typ) && resource.Keys == Targets(gke, gke.labelMap.Keys)
      && (forall t <- resource :: resource[t] == OrEmpty(Fill(gke, discovered + entryLabels), t))
      && finalLabels == Unused(gke, entryLabels)
    ensures !panics && !(useGke && Matched(gke, discovered)) && typ.Some? ==>
      exists i :: FirstToTranslate(maps, discovered, entryLabels, i) && typ.value == maps[i].typ
                  && resource == Fill(maps[i], discovered + entryLabels) && finalLabels == Unused(maps[i], entryLabels)
    ensures !panics && typ.None? ==>
      finalLabels == entryLabels && forall i :: 0 <= i < |maps| ==> !Translates(maps[i], discovered, entryLabels)
  {
    if useGke {
      var best, rest, nilMap := BestEffortTranslate(gke, discovered, entryLabels);
      if nilMap {
        return None, map[], entryLabels, true;
      }
      if best.Some? {
        return Some(gke.typ), best.value, rest, false;
      }
    }
    var i := 0;
    while i < |maps|
      invariant 0 <= i <= |maps|
      invariant forall j :: 0 <= j < i ==> !Translates(maps[j], discovered, entryLabels)
    {
      var r, rest := Translate(maps[i], discovered, entryLabels);
      if r.Some? {
        assert FirstToTranslate(maps, discovered, entryLabels, i);
        return Some(maps[i].typ), r.value, rest, false;
      }
      i := i + 1;
    }
    return None, map[], entryLabels, false;
  }

  ghost predicate FirstToTranslate(maps: seq<ResourceMap>, discovered: seq<Label>, entryLabels: seq<Label>, i: int) {
    && 0 <= i < |maps| && Translates(maps[i], discovered, entryLabels)
    && forall j :: 0 <= j < i ==> !Translates(maps[j], discovered, entryLabels)
  }

  // ---- Proofs ----

  lemma OccursSnoc(name: string, labels: seq<Label>, l: Label)
    ensures Occurs(name, labels + [l]) <==> Occurs(name, labels) || l.name == name
  {
    assert (labels + [l])[|labels|] == l;
    assert forall i :: 0 <= i < |labels| ==> (labels + [l])[i] == labels[i];
  }

  lemma FillSnoc(m: ResourceMap, labels: seq<Label>, l: Label)
    ensures Fill(m, labels + [l]) ==
      if l.name in m.labelMap then Fill(m, labels)[m.labelMap[l.name].target := m.labelMap[l.name].convert(l.value)]
      else Fill(m, labels)
  {
    assert (labels + [l])[..|labels|] == labels;
  }

  lemma UnusedSnoc(m: ResourceMap, labels: seq<Label>, l: Label)
    ensures Unused(m, labels + [l]) == Unused(m, labels) + (if l.name in m.labelMap then [] else [l])
  {
    assert (labels + [l])[..|labels|] == labels;
  }

  /** The labels left over are those no resource label is made of, as often as they come and in their order. */
  lemma {:induction false} UnusedIsFilter(m: ResourceMap, labels: seq<Label>, l: Label)
    ensures multiset(Unused(m, labels))[l] == if l.name in m.labelMap then 0 else multiset(labels)[l]
    decreases labels
  {
    if labels != [] {
      UnusedIsFilter(m, labels[..|labels| - 1], l);
      assert labels == labels[..|labels| - 1] + [labels[|labels| - 1]];
    }
  }

  lemma {:induction false} UnusedConcat(m: ResourceMap, a: seq<Label>, b: seq<Label>)
    ensures Unused(m, a + b) == Unused(m, a) + Unused(m, b)
  {
    if b == [] {
      assert a + b == a;
    } else {
      assert (a + b)[..|a + b| - 1] == a + b[..|b| - 1];
      UnusedConcat(m, a, b[..|b| - 1]);
    }
  }

  /** The resource labels that get filled are the targets of the keys that occur. */
  lemma {:induction false} FillKeys(m: ResourceMap, labels: seq<Label>)
    ensures Fill(m, labels).Keys == Targets(m, KeysIn(m, labels))
  {
    if labels == [] {
      assert KeysIn(m, labels) == {};
    } else {
      var init, l := labels[..|labels| - 1], labels[|labels| - 1];
      assert labels == init + [l];
      FillKeys(m, init);
      forall k ensures Occurs(k, labels) <==> Occurs(k, init) || l.name == k {
        OccursSnoc(k, init, l);
      }
      assert KeysIn(m, labels) == KeysIn(m, init) + (if l.name in m.labelMap then {l.name} else {});
    }
  }

  lemma {:induction false} ImageSize(m: ResourceMap, keys: set<string>)
    requires keys <= m.labelMap.Keys
    ensures |Targets(m, keys)| <= |keys|
    ensures |Targets(m, keys)| == |keys| <==> DistinctTargets(m, keys)
  {
    if keys != {} {
      var k :| k in keys;
      ImageSize(m, keys - {k});
      OneMoreTarget(m, keys, k);
    }
  }

  lemma OneMoreTarget(m: ResourceMap, keys: set<string>, k: string)
    requires keys <= m.labelMap.Keys && k in keys
    ensures var rest, t := keys - {k}, m.labelMap[k].target;
      && Targets(m, keys) == Targets(m, rest) + {t}
      && |Targets(m, keys)| == |Targets(m, rest)| + (if t in Targets(m, rest) then 0 else 1)
      && (DistinctTargets(m, keys) <==> DistinctTargets(m, rest) && t !in Targets(m, rest))
  {
    var rest, t := keys - {k}, m.labelMap[k].target;
    assert Targets(m, keys) == Targets(m, rest) + {t};
    if t in Targets(m, rest) {
      assert Targets(m, keys) == Targets(m, rest);
      var j :| j in rest && m.labelMap[j].target == t;
    }
  }

  /** As many targets as keys means that all keys were found and no two share a target. */
  lemma PigeonHole(m: ResourceMap, found: set<string>)
    requires found <= m.labelMap.Keys
    ensures |Targets(m, found)| == |m.labelMap| <==> found == m.labelMap.Keys && DistinctTargets(m, m.labelMap.Keys)
  {
    ImageSize(m, found);
    SubsetSize(found, m.labelMap.Keys);
    assert |m.labelMap| == |m.labelMap.Keys|;
  }

  lemma SubsetSize(a: set<string>, b: set<string>)
    requires a <= b
    ensures |a| <= |b| && (|a| == |b| ==> a == b)
  {
    assert b == a + (b - a);
    assert |b| == |a| + |b - a|;
  }

  lemma {:induction false} LastValueConcat(a: seq<Label>, b: seq<Label>, name: string)
    ensures LastValue(a + b, name) == if LastValue(b, name).Some? then LastValue(b, name) else LastValue(a, name)
  {
    if b == [] {
      assert a + b == a;
    } else {
      assert (a + b)[..|a + b| - 1] == a + b[..|b| - 1];
      LastValueConcat(a, b[..|b| - 1], name);
    }
  }

  /** Entry labels override discovered ones: where no two keys share a target, each resource label is made of the entry
      label of its key if there is one and of the discovered label otherwise. */
  lemma EntryLabelsOverride(m: ResourceMap, discovered: seq<Label>, entryLabels: seq<Label>, k: string)
    requires DistinctTargets(m, m.labelMap.Keys) && k in m.labelMap
    ensures var f, tr := Fill(m, discovered + entryLabels), m.labelMap[k];
      var e, d := LastValue(entryLabels, k), LastValue(discovered, k);
      if e.Some? then tr.target in f && f[tr.target] == tr.convert(e.value)
      else if d.Some? then tr.target in f && f[tr.target] == tr.convert(d.value)
      else tr.target !in f
  {
    LastValueConcat(discovered, entryLabels, k);
    FillIsLast(m, discovered + entryLabels, k);
  }

  lemma {:induction false} FillIsLast(m: ResourceMap, labels: seq<Label>, k: string)
    requires DistinctTargets(m, m.labelMap.Keys) && k in m.labelMap
    ensures var f, tr, v := Fill(m, labels), m.labelMap[k], LastValue(labels, k);
      if v.Some? then tr.target in f && f[tr.target] == tr.convert(v.value) else tr.target !in f
  {
    if labels != [] {
      FillIsLast(m, labels[..|labels| - 1], k);
    }
  }
}
