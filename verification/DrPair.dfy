/** The pair of managed clusters named by the MirrorPeer (`configure_mirror_peer`) and by the
    DRPolicy (`deploy_dr_policy`), and when the two agree. */
module DrPair {
  import opened Py

  const PREFIX := "dr-"

  datatype Cluster = Cluster(name: string, acm: bool, primary: bool, recovery: bool, hosted: bool)

  datatype Result = Named(names: seq<string>) | ValueError | IndexError | AttributeError

  // ----------------------------------------------------------------------------- look-ups

  /** The first cluster of that name. */
  function Find(cs: seq<Cluster>, name: string): (i: Option<nat>)
    ensures i.Some? ==> i.value < |cs| && cs[i.value].name == name
    ensures i.Some? ==> forall k :: 0 <= k < i.value ==> cs[k].name != name
    ensures i.None? ==> forall k :: 0 <= k < |cs| ==> cs[k].name != name
  {
    if cs == [] then None else
    var n := |cs| - 1;
    var i := Find(cs[..n], name);
    assert forall k :: 0 <= k < n ==> cs[..n][k] == cs[k];
    if i.Some? then i else if cs[n].name == name then Some(n) else None
  }

  /** `get_cluster_index_by_name`: the name as given, else without its prefix. */
  function IndexByName(cs: seq<Cluster>, name: string): Option<nat> {
    var i := Find(cs, name);
    if i.Some? then i
    else if StartsWith(name, PREFIX) then Find(cs, name[|PREFIX|..]) else None
  }

  /** The first primary cluster. */
  function Primary(cs: seq<Cluster>): (i: Option<nat>)
    ensures i.Some? ==> i.value < |cs| && cs[i.value].primary
    ensures i.Some? ==> forall k :: 0 <= k < i.value ==> !cs[k].primary
    ensures i.None? ==> forall k :: 0 <= k < |cs| ==> !cs[k].primary
  {
    if cs == [] then None else
    var n := |cs| - 1;
    var i := Primary(cs[..n]);
    assert forall k :: 0 <= k < n ==> cs[..n][k] == cs[k];
    if i.Some? then i else if cs[n].primary then Some(n) else None
  }

  function ManagedName(name: string, hosted: bool): string { if hosted then PREFIX + name else name }

  function ManagedItem(cs: seq<Cluster>, item: string): string {
    var i := IndexByName(cs, item);
    ManagedName(item, i.Some? && i.value < |cs| && cs[i.value].hosted)
  }

  /** Non-ACM clusters other than the one at index p, in configuration order. */
  function Others(cs: seq<Cluster>, p: int): seq<Cluster> {
    if cs == [] then [] else
    var n := |cs| - 1;
    Others(cs[..n], p) + if cs[n].acm || n == p then [] else [cs[n]]
  }

  // --------------------------------------------------------------------------- MirrorPeer

  function ManagedItems(cs: seq<Cluster>, items: seq<string>): (ms: seq<string>)
    ensures |ms| == |items| && forall i :: 0 <= i < |items| ==> ms[i] == ManagedItem(cs, items[i])
  {
    seq(|items|, i requires 0 <= i < |items| => ManagedItem(cs, items[i]))
  }

  /** The list the MirrorPeer entries are filled from. */
  function PeerList(cs: seq<Cluster>, relations: seq<seq<string>>): Result {
    if relations != [] then Named(ManagedItems(cs, relations[0])) else
    var p := Primary(cs);
    if p.None? || cs[p.value].acm then ValueError
    else if Others(cs, p.value) == [] then IndexError
    else Named([cs[p.value].name, Others(cs, p.value)[0].name])
  }

  /** Fills the template entries: the first from the head of the list, all others from its
      second element. */
  method ConfigureMirrorPeer(cs: seq<Cluster>, relations: seq<seq<string>>, template: seq<string>) returns (r: Result)
    ensures PeerList(cs, relations).Named? ==>
      var list := PeerList(cs, relations).names;
      if |list| < Min(2, |template|) then r == IndexError
      else r.Named? && |r.names| == |template| && forall k :: 0 <= k < |template| ==> r.names[k] == list[Min(k, 1)]
    ensures !PeerList(cs, relations).Named? ==> r == PeerList(cs, relations)
  {
    var list: seq<string> := [];
    if relations != [] {
      for i := 0 to |relations[0]|
        invariant list == ManagedItems(cs, relations[0][..i])
      {
        list := list + [ManagedItem(cs, relations[0][i])];
      }
      assert relations[0][..|relations[0]|] == relations[0];
    } else {
      var p := Primary(cs);
      if p.None? || cs[p.value].acm { return ValueError; }
      var others := Others(cs, p.value);
      if others == [] { return IndexError; }
      list := [cs[p.value].name, others[0].name];
    }
    var filled: seq<string> := [];
    for i := 0 to |template|
      invariant |filled| == i && |list| >= Min(2, i)
      invariant forall k :: 0 <= k < i ==> filled[k] == list[Min(k, 1)]
    {
      if i == 0 {
        if |list| == 0 { return IndexError; }
        filled := filled + [list[0]];
      } else {
        if |list| < 2 { return IndexError; }
        filled := filled + [list[1]];
      }
    }
    r := Named(filled);
  }

  // ----------------------------------------------------------------------------- DRPolicy

  predicate EligibleSecondary(c: Cluster, primary: string) { c.name != primary && !c.recovery }

  /** The last cluster that may be the secondary. */
  function LastEligible(cs: seq<Cluster>, primary: string): (c: Option<Cluster>)
    ensures c.Some? ==> c.value in cs && EligibleSecondary(c.value, primary)
    ensures c.None? ==> forall k :: 0 <= k < |cs| ==> !EligibleSecondary(cs[k], primary)
  {
    if cs == [] then None else
    var n := |cs| - 1;
    if EligibleSecondary(cs[n], primary) then Some(cs[n]) else
    var c := LastEligible(cs[..n], primary);
    assert c.None? ==> forall k :: 0 <= k < n ==> !EligibleSecondary(cs[..n][k], primary);
    c
  }

  /** The clusters the DRPolicy loop goes over. */
  function PolicyClusters(cs: seq<Cluster>, relations: seq<seq<string>>): seq<Cluster> {
    if cs == [] then [] else
    var n := |cs| - 1;
    PolicyClusters(cs[..n], relations) +
    if (if relations != [] then cs[n].name in relations[0] else !cs[n].acm) then [cs[n]] else []
  }

  /** The loop over the clusters: each eligible one overwrites entry 1, so the last one stays. */
  method FillSecondary(configs: seq<Cluster>, primary: string, related: bool, template: seq<string>)
    returns (ok: bool, entries: seq<string>)
    requires template != []
    ensures ok <==> |template| > 1 || LastEligible(configs, primary).None?
    ensures |template| == 1 && ok ==> entries == template
    ensures |template| > 1 ==> entries == template[1 := SecondaryName(configs, primary, related, template[1])]
  {
    ok, entries := true, template;
    var index := 1;
    for i := 0 to |configs|
      invariant |template| == 1 ==> entries == template && LastEligible(configs[..i], primary).None?
      invariant |template| > 1 ==>
        entries == template[1 := SecondaryName(configs[..i], primary, related, template[1])]
    {
      var c := configs[i];
      assert configs[..i + 1][..i] == configs[..i];
      if c.name == primary || c.recovery { continue; }
      if index >= |entries| {
        EligibleAhead(configs, i, primary);
        return false, entries;
      }
      entries := entries[index := ManagedName(c.name, related && c.hosted)];
    }
    assert configs[..|configs|] == configs;
  }

  lemma {:induction false} EligibleAhead(configs: seq<Cluster>, i: nat, primary: string)
    requires i < |configs| && EligibleSecondary(configs[i], primary)
    ensures LastEligible(configs, primary).Some?
  {
    assert EligibleSecondary(configs[i], primary);
  }

  function SecondaryName(configs: seq<Cluster>, primary: string, related: bool, placeholder: string): string {
    var c := LastEligible(configs, primary);
    if c.None? then placeholder else ManagedName(c.value.name, related && c.value.hosted)
  }

  /** Fills the DRPolicy: entry 0 with the primary, entry 1 with the last eligible cluster. */
  method DeployDrPolicy(cs: seq<Cluster>, relations: seq<seq<string>>, template: seq<string>) returns (r: Result)
    ensures Primary(cs).None? ==> r == AttributeError
    ensures Primary(cs).Some? && template == [] ==> r == IndexError
    ensures Primary(cs).Some? && |template| == 1 ==>
      var first, last := Policy(cs, relations, "")[0], PolicySecondary(cs, relations);
      r == if last.Some? then IndexError else Named([first])
    ensures Primary(cs).Some? && |template| > 1 ==>
      var names := Policy(cs, relations, template[1]);
      r == Named(template[0 := names[0]][1 := names[1]])
    ensures Primary(cs).Some? && |template| == 2 ==> r == Named(Policy(cs, relations, template[1]))
  {
    var p := Primary(cs);
    if p.None? { return AttributeError; }
    var primary := cs[p.value].name;
    if template == [] { return IndexError; }
    var first := if relations != [] then ManagedItem(cs, primary) else primary;
    var ok, entries := FillSecondary(PolicyClusters(cs, relations), primary, relations != [], template[0 := first]);
    if !ok { return IndexError; }
    r := Named(entries);
  }

  /** The cluster that ends up as the secondary of the DRPolicy. */
  ghost function PolicySecondary(cs: seq<Cluster>, relations: seq<seq<string>>): Option<Cluster>
    requires Primary(cs).Some?
  {
    LastEligible(PolicyClusters(cs, relations), cs[Primary(cs).value].name)
  }

  /** The two names of the DRPolicy; `placeholder` is what the template holds in entry 1. */
  function Policy(cs: seq<Cluster>, relations: seq<seq<string>>, placeholder: string): seq<string>
    requires Primary(cs).Some?
  {
    var primary := cs[Primary(cs).value].name;
    [if relations != [] then ManagedItem(cs, primary) else primary,
     SecondaryName(PolicyClusters(cs, relations), primary, relations != [], placeholder)]
  }

  // ---------------------------------------------------------------------------- agreement

  ghost predicate UniqueNames(cs: seq<Cluster>) {
    forall i, j :: 0 <= i < j < |cs| ==> cs[i].name != cs[j].name
  }

  ghost function HubName(c: Cluster): string { ManagedName(c.name, c.hosted) }

  /** No two clusters are known to the hub under the same name. */
  ghost predicate UniqueManagedNames(cs: seq<Cluster>) {
    forall i, j :: 0 <= i < j < |cs| ==> HubName(cs[i]) != HubName(cs[j])
  }

  lemma {:induction false} FoundAt(cs: seq<Cluster>, i: nat)
    requires UniqueNames(cs) && i < |cs|
    ensures ManagedItem(cs, cs[i].name) == ManagedName(cs[i].name, cs[i].hosted)
  {
    var k := Find(cs, cs[i].name);
    assert k.Some?;
    assert k.value == i;
  }

  lemma {:induction false} PolicyClustersMeaning(cs: seq<Cluster>, relations: seq<seq<string>>, c: Cluster)
    ensures c in PolicyClusters(cs, relations) <==>
      c in cs && if relations != [] then c.name in relations[0] else !c.acm
  {
    if cs != [] {
      var n := |cs| - 1;
      PolicyClustersMeaning(cs[..n], relations, c);
      assert c in cs <==> c in cs[..n] || c == cs[n];
    }
  }

  /** The secondary of a relation pair, when the primary is one of the two. */
  lemma {:induction false} PairSecondary(cs: seq<Cluster>, relations: seq<seq<string>>, p: nat, o: nat)
    requires UniqueNames(cs) && p < |cs| && o < |cs| && p != o
    requires relations != [] && forall x :: x in relations[0] <==> x == cs[p].name || x == cs[o].name
    ensures LastEligible(PolicyClusters(cs, relations), cs[p].name) == if cs[o].recovery then None else Some(cs[o])
  {
    var l := PolicyClusters(cs, relations);
    var c := LastEligible(l, cs[p].name);
    PolicyClustersMeaning(cs, relations, cs[o]);
    assert cs[o] in l;
    if c.Some? {
      PolicyClustersMeaning(cs, relations, c.value);
      var k :| 0 <= k < |cs| && cs[k] == c.value;
      assert k == o;
    } else {
      var k :| 0 <= k < |l| && l[k] == cs[o];
      assert !EligibleSecondary(l[k], cs[p].name);
    }
  }

  /** The two lists name the same two clusters. */
  ghost predicate SamePair(a: seq<string>, b: seq<string>)
    requires |a| == 2 && |b| == 2
  {
    || (a[0] == b[0] && a[1] == b[1])
    || (a[0] == b[1] && a[1] == b[0])
  }

  /** AGREEMENT with relations: for a pair of distinct configured clusters, MirrorPeer and DRPolicy
      name the same two managed clusters exactly when the primary is one of the pair and the other
      one is not a recovery cluster; "only if" needs hub names to be unique. */
  lemma {:induction false} RelationsAgree(
    cs: seq<Cluster>, relations: seq<seq<string>>, i: nat, j: nat, placeholder: string)
    requires UniqueNames(cs) && Primary(cs).Some?
    requires i < |cs| && j < |cs| && i != j && relations != [] && relations[0] == [cs[i].name, cs[j].name]
    ensures PeerList(cs, relations).Named? && |PeerList(cs, relations).names| == 2
    ensures PrimaryWithPartner(cs, i, j) ==> SamePair(PeerList(cs, relations).names, Policy(cs, relations, placeholder))
    ensures (UniqueManagedNames(cs) && FreshName(cs, placeholder)
        && SamePair(PeerList(cs, relations).names, Policy(cs, relations, placeholder))) ==> PrimaryWithPartner(cs, i, j)
  {
    PeerNames(cs, relations, i, j);
    if PrimaryWithPartner(cs, i, j) {
      PolicyNames(cs, relations, if Primary(cs).value == i then j else i, placeholder);
    } else if UniqueManagedNames(cs) && FreshName(cs, placeholder) {
      NoAgreement(cs, relations, i, j, placeholder);
    }
  }

  /** The template's placeholder is not the hub name of a cluster. */
  ghost predicate FreshName(cs: seq<Cluster>, placeholder: string) {
    forall k :: 0 <= k < |cs| ==> HubName(cs[k]) != placeholder
  }

  /** The primary is one of the two and the other one is not a recovery cluster. */
  ghost predicate PrimaryWithPartner(cs: seq<Cluster>, i: nat, j: nat)
    requires i < |cs| && j < |cs| && Primary(cs).Some?
  {
    var p := Primary(cs).value;
    (p == i && !cs[j].recovery) || (p == j && !cs[i].recovery)
  }

  lemma {:induction false} NoAgreement(
    cs: seq<Cluster>, relations: seq<seq<string>>, i: nat, j: nat, placeholder: string)
    requires UniqueNames(cs) && UniqueManagedNames(cs) && Primary(cs).Some?
    requires i < |cs| && j < |cs| && i != j && relations != [] && relations[0] == [cs[i].name, cs[j].name]
    requires FreshName(cs, placeholder)
    requires !PrimaryWithPartner(cs, i, j)
    ensures !SamePair([HubName(cs[i]), HubName(cs[j])], Policy(cs, relations, placeholder))
  {
    var p := Primary(cs).value;
    DifferentHubNames(cs, i, j);
    if p == i {
      PolicyNames(cs, relations, j, placeholder);
    } else if p == j {
      PolicyNames(cs, relations, i, placeholder);
    } else {
      FoundAt(cs, p);
      DifferentHubNames(cs, p, i);
      DifferentHubNames(cs, p, j);
    }
  }

  lemma {:induction false} PeerNames(cs: seq<Cluster>, relations: seq<seq<string>>, i: nat, j: nat)
    requires UniqueNames(cs) && i < |cs| && j < |cs| && relations != [] && relations[0] == [cs[i].name, cs[j].name]
    ensures PeerList(cs, relations) == Named([HubName(cs[i]), HubName(cs[j])])
    ensures HubName(cs[i]) == if cs[i].hosted then "dr-" + cs[i].name else cs[i].name
  {
    FoundAt(cs, i);
    FoundAt(cs, j);
  }

  lemma {:induction false} PolicyNames(cs: seq<Cluster>, relations: seq<seq<string>>, o: nat, placeholder: string)
    requires UniqueNames(cs) && Primary(cs).Some? && o < |cs| && o != Primary(cs).value
    requires relations != [] && forall x :: x in relations[0] <==> x == cs[Primary(cs).value].name || x == cs[o].name
    ensures Policy(cs, relations, placeholder) ==
      [HubName(cs[Primary(cs).value]), if cs[o].recovery then placeholder else HubName(cs[o])]
  {
    FoundAt(cs, Primary(cs).value);
    PairSecondary(cs, relations, Primary(cs).value, o);
  }

  lemma {:induction false} DifferentHubNames(cs: seq<Cluster>, i: nat, j: nat)
    requires UniqueManagedNames(cs) && i < |cs| && j < |cs| && i != j
    ensures HubName(cs[i]) != HubName(cs[j])
  {
    if i < j { assert HubName(cs[i]) != HubName(cs[j]); } else { assert HubName(cs[j]) != HubName(cs[i]); }
  }

  // --------------------------------------------------------------- agreement, no relations

  /** The listed clusters are the non-ACM ones besides the one at p, in configuration order. */
  ghost predicate AllBut(cs: seq<Cluster>, o: seq<Cluster>, idx: seq<nat>, p: int) {
    && |idx| == |o|
    && (forall k :: 0 <= k < |idx| ==> idx[k] < |cs| && o[k] == cs[idx[k]])
    && (forall k, l :: 0 <= k < l < |idx| ==> idx[k] < idx[l])
    && (forall i :: 0 <= i < |cs| ==> (i in idx <==> !cs[i].acm && i != p))
  }

  lemma {:induction false} AllButSnoc(cs: seq<Cluster>, o: seq<Cluster>, idx: seq<nat>, p: int, c: Cluster)
    requires AllBut(cs, o, idx, p)
    ensures if c.acm || |cs| == p then AllBut(cs + [c], o, idx, p) else AllBut(cs + [c], o + [c], idx + [|cs|], p)
  {
    var all := cs + [c];
    assert forall i :: 0 <= i < |cs| ==> all[i] == cs[i];
    assert forall k :: 0 <= k < |idx| ==> idx[k] in idx;
  }

  lemma {:induction false} OthersInOrder(cs: seq<Cluster>, p: int) returns (idx: seq<nat>)
    ensures AllBut(cs, Others(cs, p), idx, p)
  {
    if cs == [] {
      idx := [];
    } else {
      var n := |cs| - 1;
      var before := Others(cs[..n], p);
      idx := OthersInOrder(cs[..n], p);
      AllButSnoc(cs[..n], before, idx, p, cs[n]);
      assert cs == cs[..n] + [cs[n]];
      if cs[n].acm || n == p { assert Others(cs, p) == before; } else { idx := idx + [n]; }
    }
  }

  /** The clusters of the DRPolicy loop, in configuration order: those of the first relation, or
      without relations the non-ACM ones. */
  lemma {:induction false} PolicyClustersInOrder(cs: seq<Cluster>, relations: seq<seq<string>>) returns (idx: seq<nat>)
    ensures Filtered(cs, PolicyClusters(cs, relations), idx, (c: Cluster) =>
      if relations != [] then c.name in relations[0] else !c.acm)
  {
    if cs == [] {
      idx := [];
    } else {
      var n := |cs| - 1;
      idx := PolicyClustersInOrder(cs[..n], relations);
      var wanted := (c: Cluster) => if relations != [] then c.name in relations[0] else !c.acm;
      FilteredSnoc(cs[..n], PolicyClusters(cs[..n], relations), idx, wanted, cs[n]);
      assert cs == cs[..n] + [cs[n]];
      if wanted(cs[n]) {
        idx := idx + [n];
      } else {
        assert PolicyClusters(cs, relations) == PolicyClusters(cs[..n], relations);
      }
    }
  }

  /** SECONDARY: entry 1 is the hub name of the last cluster that is neither the primary nor a
      recovery cluster, or still the placeholder. */
  lemma {:induction false} SecondaryAt(
    l: seq<Cluster>, k: nat, primary: string, related: bool, placeholder: string)
    requires k < |l| && l[k].name != primary && !l[k].recovery
    requires forall j :: k < j < |l| ==> l[j].name == primary || l[j].recovery
    ensures SecondaryName(l, primary, related, placeholder) ==
      if related && l[k].hosted then "dr-" + l[k].name else l[k].name
  {
    var n := |l| - 1;
    if k < n {
      assert !EligibleSecondary(l[n], primary);
      assert forall j :: 0 <= j < n ==> l[..n][j] == l[j];
      SecondaryAt(l[..n], k, primary, related, placeholder);
    }
  }

  lemma {:induction false} NoSecondary(l: seq<Cluster>, primary: string, related: bool, placeholder: string)
    requires forall k :: 0 <= k < |l| ==> l[k].name == primary || l[k].recovery
    ensures SecondaryName(l, primary, related, placeholder) == placeholder
  {
    assert LastEligible(l, primary).None?;
  }

  /** A relation that names a cluster with its prefix finds the cluster, and prefixes it again if it
      is hosted. */
  lemma {:induction false} PrefixedItem(cs: seq<Cluster>, i: nat)
    requires UniqueNames(cs) && i < |cs| && forall k :: 0 <= k < |cs| ==> cs[k].name != "dr-" + cs[i].name
    ensures ManagedItem(cs, "dr-" + cs[i].name) ==
      if cs[i].hosted then "dr-" + ("dr-" + cs[i].name) else "dr-" + cs[i].name
  {
    var item := "dr-" + cs[i].name;
    assert item[3..] == cs[i].name;
    var k := Find(cs, cs[i].name);
    assert k == Some(i);
  }

  lemma {:induction false} OthersMeaning(cs: seq<Cluster>, p: int, c: Cluster)
    ensures c in Others(cs, p) <==> exists i :: 0 <= i < |cs| && cs[i] == c && !c.acm && i != p
  {
    if cs != [] {
      var n := |cs| - 1;
      OthersMeaning(cs[..n], p, c);
      assert forall i :: 0 <= i < n ==> cs[..n][i] == cs[i];
    }
  }

  lemma {:induction false} OthersUnique(cs: seq<Cluster>, p: int)
    requires UniqueNames(cs)
    ensures UniqueNames(Others(cs, p))
  {
    if cs != [] {
      var n := |cs| - 1;
      OthersUnique(cs[..n], p);
      var init := Others(cs[..n], p);
      forall k | 0 <= k < |init| ensures init[k].name != cs[n].name {
        OthersMeaning(cs[..n], p, init[k]);
        assert init[k] in init;
      }
    }
  }

  /** Skipping the primary by name or leaving it out of the list is the same. */
  lemma {:induction false} SameSecondary(cs: seq<Cluster>, p: nat, primary: string)
    requires forall k :: 0 <= k < |cs| ==> (cs[k].name == primary <==> k == p)
    ensures LastEligible(PolicyClusters(cs, []), primary) == LastEligible(Others(cs, p), primary)
  {
    if cs != [] {
      var n := |cs| - 1;
      SameSecondary(cs[..n], p, primary);
      LastEligibleSnoc(PolicyClusters(cs[..n], []), cs[n], primary);
      LastEligibleSnoc(Others(cs[..n], p), cs[n], primary);
    }
  }

  lemma {:induction false} LastEligibleSnoc(l: seq<Cluster>, c: Cluster, primary: string)
    ensures LastEligible(l + [c], primary) ==
      if EligibleSecondary(c, primary) then Some(c) else LastEligible(l, primary)
    ensures l + [] == l
  {
    assert (l + [c])[..|l|] == l;
  }

  /** The last eligible cluster is the first one exactly when no later one is eligible. */
  lemma {:induction false} FirstIsLast(o: seq<Cluster>, primary: string)
    requires UniqueNames(o) && o != []
    requires forall k :: 0 <= k < |o| ==> o[k].name != primary
    ensures var c := LastEligible(o, primary);
      c.Some? && c.value.name == o[0].name <==>
      !o[0].recovery && forall k :: 1 <= k < |o| ==> o[k].recovery
  {
    var n := |o| - 1;
    if n > 0 && o[n].recovery {
      FirstIsLast(o[..n], primary);
      assert forall k :: 0 <= k < n ==> o[..n][k] == o[k];
    } else if n == 0 {
      assert o[..0] == [];
    } else {
      assert o[0].name != o[n].name;
    }
  }

  /** AGREEMENT without relations: MirrorPeer takes the first other non-ACM cluster, DRPolicy the
      last one that is not a recovery cluster. They agree exactly when the first other cluster is
      not a recovery cluster and every later one is. */
  lemma {:induction false} ListAgree(cs: seq<Cluster>, placeholder: string)
    requires UniqueNames(cs) && PeerList(cs, []).Named?
    requires forall k :: 0 <= k < |cs| ==> cs[k].name != placeholder
    ensures var o := Others(cs, Primary(cs).value);
      PeerList(cs, []).names == Policy(cs, [], placeholder) <==>
      !o[0].recovery && forall k :: 1 <= k < |o| ==> o[k].recovery
  {
    var p := Primary(cs).value;
    var primary := cs[p].name;
    var o := Others(cs, p);
    OthersUnique(cs, p);
    SameSecondary(cs, p, primary);
    forall k | 0 <= k < |o| ensures o[k].name != primary && o[k].name != placeholder {
      assert o[k] in o;
      OthersMeaning(cs, p, o[k]);
    }
    FirstIsLast(o, primary);
    var c := LastEligible(o, primary);
    var peer, policy := PeerList(cs, []).names, Policy(cs, [], placeholder);
    assert peer == [primary, o[0].name];
    assert policy == [primary, if c.None? then placeholder else c.value.name];
    assert peer == policy <==> peer[1] == policy[1];
  }

  /** One other non-recovery cluster is not enough: listed after a recovery cluster it is the
      DRPolicy's choice but not the MirrorPeer's. */
  lemma {:induction false} RecoveryListedFirst()
    ensures var cs := [Cluster("hub", true, false, false, false), Cluster("c1", false, true, false, false),
                       Cluster("spare", false, false, true, false), Cluster("c2", false, false, false, false)];
      PeerList(cs, []).Named? && PeerList(cs, []).names != Policy(cs, [], "PLACE_HOLDER")
  {
    var cs := [Cluster("hub", true, false, false, false), Cluster("c1", false, true, false, false),
               Cluster("spare", false, false, true, false), Cluster("c2", false, false, false, false)];
    var c3, c2, c1 := cs[..3], cs[..2], cs[..1];
    assert c3[..2] == c2 && c2[..1] == c1 && c1[..0] == [];
    assert c1[0] == cs[0] && c2[1] == cs[1] && c3[2] == cs[2];
    assert Primary(c1) == None;
    assert Primary(c2) == Some(1);
    assert Primary(c3) == Some(1);
    assert Primary(cs) == Some(1);
    assert Others(c1, 1) == [];
    assert Others(c2, 1) == [];
    assert Others(c3, 1) == [cs[2]];
    assert Others(cs, 1) == [cs[2], cs[3]];
    ListAgree(cs, "PLACE_HOLDER");
  }
}
