/** `Submariner.is_submariner_installed`: all-or-none detection over the target clusters. */
module Submariner {
  import opened Py

  const PREFIX := "dr"

  datatype Cluster = Cluster(name: string, hosted: bool)

  /** What the hub knows of a ManagedCluster: its cluster set label, its Submariner feature label
      and the (type, status) conditions of its Submariner add-on, empty when there is none. */
  datatype Managed = Managed(clusterSet: Option<string>, feature: Option<string>, conditions: seq<(string, string)>)

  type Hub = map<string, Managed>

  function AcmName(c: Cluster): string { if c.hosted then PREFIX + "-" + c.name else c.name }

  predicate Installed(m: Managed) {
    m.feature == Some("available") || ("Available", "True") in m.conditions
  }

  datatype Outcome = Detected(installed: bool) | Raised(reason: Reason)

  datatype Reason = ManagedClusterMissing | PartlyInstalled | NoClusterSet | DifferentClusterSets

  // ------------------------------------------------------------------------- specification

  predicate AllExist(cs: seq<Cluster>, hub: Hub) { forall i :: 0 <= i < |cs| ==> AcmName(cs[i]) in hub }

  predicate AllInstalled(cs: seq<Cluster>, hub: Hub)
    requires AllExist(cs, hub)
  {
    forall i :: 0 <= i < |cs| ==> Installed(hub[AcmName(cs[i])])
  }

  predicate NoneInstalled(cs: seq<Cluster>, hub: Hub)
    requires AllExist(cs, hub)
  {
    forall i :: 0 <= i < |cs| ==> !Installed(hub[AcmName(cs[i])])
  }

  /** All clusters carry the same cluster set label. */
  predicate OneClusterSet(cs: seq<Cluster>, hub: Hub)
    requires AllExist(cs, hub)
  {
    && (forall i :: 0 <= i < |cs| ==> hub[AcmName(cs[i])].clusterSet.Some?)
    && forall i, j :: 0 <= i < |cs| && 0 <= j < |cs| ==>
         hub[AcmName(cs[i])].clusterSet == hub[AcmName(cs[j])].clusterSet
  }

  predicate SomeUnlabelled(cs: seq<Cluster>, hub: Hub)
    requires AllExist(cs, hub)
  {
    exists i :: 0 <= i < |cs| && hub[AcmName(cs[i])].clusterSet.None?
  }

  /** The ManagedCluster of a target: a hosted one is known under its name with "dr-" before it. */
  ghost function Lookup(c: Cluster, hub: Hub): Option<Managed> {
    var name := if c.hosted then "dr-" + c.name else c.name;
    if name in hub then Some(hub[name]) else None
  }

  /** The ManagedCluster shows Submariner: by its feature label or by an available add-on. */
  ghost predicate Reports(m: Option<Managed>, installed: bool) {
    m.Some? && (installed <==>
      || m.value.feature == Some("available")
      || exists i :: 0 <= i < |m.value.conditions| && m.value.conditions[i] == ("Available", "True"))
  }

  lemma {:induction false} LookupMeaning(c: Cluster, hub: Hub)
    ensures Lookup(c, hub) == if AcmName(c) in hub then Some(hub[AcmName(c)]) else None
    ensures AcmName(c) in hub ==> Reports(Lookup(c, hub), Installed(hub[AcmName(c)]))
  {
    assert "dr" + "-" == "dr-";
    assert "dr" + "-" + c.name == "dr-" + c.name;
  }

  lemma {:induction false} AllLookups(cs: seq<Cluster>, hub: Hub)
    ensures AllExist(cs, hub) <==> forall c :: c in cs ==> Lookup(c, hub).Some?
    ensures AllExist(cs, hub) && AllInstalled(cs, hub) ==> forall c :: c in cs ==> Reports(Lookup(c, hub), true)
    ensures AllExist(cs, hub) && NoneInstalled(cs, hub) ==> forall c :: c in cs ==> Reports(Lookup(c, hub), false)
  {
    forall c
      ensures Lookup(c, hub) == if AcmName(c) in hub then Some(hub[AcmName(c)]) else None
      ensures AcmName(c) in hub ==> Reports(Lookup(c, hub), Installed(hub[AcmName(c)]))
    {
      LookupMeaning(c, hub);
    }
    assert forall i :: 0 <= i < |cs| ==> cs[i] in cs;
  }

  // --------------------------------------------------------------------------------- code

  /** The loop over the clusters: which are installed, which are not, and their cluster sets. */
  method Scan(cs: seq<Cluster>, hub: Hub)
    returns (ok: bool, installed: seq<string>, missing: seq<string>, sets: map<string, Option<string>>)
    ensures ok <==> AllExist(cs, hub)
    ensures ok ==>
      && installed == NamesWhere(cs, hub, true)
      && missing == NamesWhere(cs, hub, false)
      && sets == SetMap(cs, hub)
  {
    ok, installed, missing, sets := true, [], [], map[];
    for i := 0 to |cs|
      invariant AllExist(cs[..i], hub)
      invariant installed == NamesWhere(cs[..i], hub, true) && missing == NamesWhere(cs[..i], hub, false)
      invariant sets == SetMap(cs[..i], hub)
    {
      var name := AcmName(cs[i]);
      Extend(cs, hub, i);
      if name !in hub { ok := false; return; }
      assert cs[..i + 1][..i] == cs[..i];
      sets := sets[name := hub[name].clusterSet];
      if Installed(hub[name]) { installed := installed + [name]; } else { missing := missing + [name]; }
    }
    assert cs[..|cs|] == cs;
  }

  /** The names of the clusters on which Submariner is installed, or is not, in order. */
  function NamesWhere(cs: seq<Cluster>, hub: Hub, installed: bool): seq<string> {
    if cs == [] then [] else
    var n := |cs| - 1;
    var name := AcmName(cs[n]);
    NamesWhere(cs[..n], hub, installed) +
    if name in hub && Installed(hub[name]) == installed then [name] else []
  }

  lemma {:induction false} NamesWhereMeaning(cs: seq<Cluster>, hub: Hub)
    requires AllExist(cs, hub)
    ensures |NamesWhere(cs, hub, true)| + |NamesWhere(cs, hub, false)| == |cs|
    ensures NamesWhere(cs, hub, true) == [] <==> NoneInstalled(cs, hub)
    ensures NamesWhere(cs, hub, false) == [] <==> AllInstalled(cs, hub)
  {
    if cs != [] {
      var n := |cs| - 1;
      assert cs[..n + 1] == cs;
      assert forall i :: 0 <= i < n ==> cs[..n][i] == cs[i];
      NamesWhereMeaning(cs[..n], hub);
      Extend(cs, hub, n);
    }
  }

  /** The cluster set recorded for every cluster name. */
  function SetMap(cs: seq<Cluster>, hub: Hub): map<string, Option<string>> {
    if cs == [] then map[] else
    var n := |cs| - 1;
    var name := AcmName(cs[n]);
    if name in hub then SetMap(cs[..n], hub)[name := hub[name].clusterSet] else SetMap(cs[..n], hub)
  }

  /** `set(sets.values())` */
  function ValuesOf(sets: map<string, Option<string>>): set<Option<string>> { set n | n in sets :: sets[n] }

  ghost predicate Occurs(cs: seq<Cluster>, name: string) { exists k :: 0 <= k < |cs| && AcmName(cs[k]) == name }

  lemma {:induction false} SetMapAt(cs: seq<Cluster>, hub: Hub, name: string)
    requires AllExist(cs, hub)
    ensures name in SetMap(cs, hub) <==> Occurs(cs, name)
    ensures name in SetMap(cs, hub) ==> name in hub && SetMap(cs, hub)[name] == hub[name].clusterSet
  {
    if cs != [] {
      var m := |cs| - 1;
      assert forall k :: 0 <= k < m ==> cs[..m][k] == cs[k];
      SetMapAt(cs[..m], hub, name);
      if Occurs(cs[..m], name) {
        var k :| 0 <= k < m && AcmName(cs[..m][k]) == name;
        assert AcmName(cs[k]) == name;
      }
      if AcmName(cs[m]) == name { assert Occurs(cs, name); }
    }
  }

  /** For any number of clusters: True exactly when there are some, all exist, all are installed
      and all share one cluster set; False exactly when there are some, all exist and none is
      installed; an exception otherwise. */
  method IsInstalled(cs: seq<Cluster>, hub: Hub) returns (o: Outcome)
    ensures o == Detected(true) <==>
      cs != [] && AllExist(cs, hub) && AllInstalled(cs, hub) && OneClusterSet(cs, hub)
    ensures o == Detected(false) <==> cs != [] && AllExist(cs, hub) && NoneInstalled(cs, hub)
    ensures o == Raised(ManagedClusterMissing) <==> exists c :: c in cs && Lookup(c, hub).None?
    ensures o == Detected(true) ==> forall c :: c in cs ==> Reports(Lookup(c, hub), true)
    ensures o == Detected(false) ==> forall c :: c in cs ==> Reports(Lookup(c, hub), false)
    ensures o == Raised(PartlyInstalled) <==>
      AllExist(cs, hub) && !AllInstalled(cs, hub) && !NoneInstalled(cs, hub)
    ensures o == Raised(NoClusterSet) <==>
      AllExist(cs, hub) && AllInstalled(cs, hub) && (cs == [] || SomeUnlabelled(cs, hub))
  {
    AllLookups(cs, hub);
    var ok, installed, missing, sets := Scan(cs, hub);
    if !ok { return Raised(ManagedClusterMissing); }
    NamesWhereMeaning(cs, hub);
    if installed != [] && missing != [] { return Raised(PartlyInstalled); }
    if |installed| == |cs| {
      SetsOfAll(cs, hub);
      var values := ValuesOf(sets);
      if None in values || values == {} { return Raised(NoClusterSet); }
      if |values| > 1 { return Raised(DifferentClusterSets); }
      return Detected(true);
    }
    o := Detected(false);
  }

  lemma {:induction false} Extend(cs: seq<Cluster>, hub: Hub, i: nat)
    requires i < |cs| && AllExist(cs[..i], hub)
    ensures AllExist(cs[..i + 1], hub) <==> AcmName(cs[i]) in hub
    ensures AcmName(cs[i]) !in hub ==> !AllExist(cs, hub)
    ensures AcmName(cs[i]) in hub ==>
      && (AllInstalled(cs[..i + 1], hub) <==> AllInstalled(cs[..i], hub) && Installed(hub[AcmName(cs[i])]))
      && (NoneInstalled(cs[..i + 1], hub) <==> NoneInstalled(cs[..i], hub) && !Installed(hub[AcmName(cs[i])]))
  {
    var a, b := cs[..i], cs[..i + 1];
    assert b[i] == cs[i];
    assert forall k :: 0 <= k < i ==> a[k] == b[k] == cs[k];
  }

  lemma {:induction false} SetValues(cs: seq<Cluster>, hub: Hub, v: Option<string>)
    requires AllExist(cs, hub)
    ensures v in ValuesOf(SetMap(cs, hub)) <==>
      exists k :: 0 <= k < |cs| && hub[AcmName(cs[k])].clusterSet == v
  {
    var sets := SetMap(cs, hub);
    if n :| n in sets && sets[n] == v {
      SetMapAt(cs, hub, n);
      var k :| 0 <= k < |cs| && AcmName(cs[k]) == n;
      assert hub[AcmName(cs[k])].clusterSet == v;
    }
    if k :| 0 <= k < |cs| && hub[AcmName(cs[k])].clusterSet == v {
      SetMapAt(cs, hub, AcmName(cs[k]));
      assert Occurs(cs, AcmName(cs[k]));
    }
  }

  /** The set of recorded cluster sets has one element, not None, exactly when all agree. */
  lemma {:induction false} SetsOfAll(cs: seq<Cluster>, hub: Hub)
    requires AllExist(cs, hub)
    ensures var values := ValuesOf(SetMap(cs, hub));
      && (values == {} <==> cs == [])
      && (cs != [] ==> (OneClusterSet(cs, hub) <==> None !in values && |values| <= 1))
      && (None in values <==> SomeUnlabelled(cs, hub))
  {
    var values := ValuesOf(SetMap(cs, hub));
    forall v ensures v in values <==> exists k :: 0 <= k < |cs| && hub[AcmName(cs[k])].clusterSet == v {
      SetValues(cs, hub, v);
    }
    if cs != [] {
      var x := hub[AcmName(cs[0])].clusterSet;
      assert x in values;
      if OneClusterSet(cs, hub) { assert values == {x}; }
      if |values| <= 1 {
        SmallSet(values, x);
        forall k | 0 <= k < |cs| ensures hub[AcmName(cs[k])].clusterSet == x {
          SetValues(cs, hub, hub[AcmName(cs[k])].clusterSet);
        }
      }
    }
  }

  lemma {:induction false} SmallSet<T>(s: set<T>, x: T)
    requires x in s && |s| <= 1
    ensures s == {x}
  {
    assert |s - {x}| == 0;
    assert s == (s - {x}) + {x};
  }
}
