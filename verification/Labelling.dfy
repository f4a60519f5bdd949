/** The whole of `label_and_taint_nodes`: distribution in its three modes, the size check,
    and the label and taint commands for prefixes of the distributed list. */
module Labelling {
  import opened Py
  import opened Deal
  import opened Allocator
  import opened AllocatorLaws

  /** `nodesToLabel` is None when the configuration key is absent, `zones` likewise.
      `labelInfra` stands for "infra_nodes set and infra_replicas not set". */
  datatype Settings = Settings(
    arbiter: bool, autodetect: bool, nodesToLabel: Option<int>, nodesToTaint: int,
    zones: Option<seq<string>>, labelInfra: bool)

  datatype Failure =
    | NoWorkerFound
    | ZoneTooSmall(zone: string)
    | NotEnoughWorkers
    | TypeError
    | ZeroDivision

  datatype Command = Label(nodes: string) | LabelInfra(nodes: string) | Taint(nodes: string)

  datatype Outcome =
    | Done(labelled: seq<string>, tainted: seq<string>, commands: seq<Command>)
    | Raised(failure: Failure)

  // ------------------------------------------------------------- arbiter, autodetect

  /** Two workers of every zone that has two. */
  function PairPerZone(zs: seq<Zone>, g: Groups): seq<string> {
    if zs == [] then [] else
    var n := |zs| - 1;
    PairPerZone(zs[..n], g) + if Size(g, zs[n]) > 1 then g[zs[n]][..2] else []
  }

  method AutodetectPairs(az: Dict<Zone, seq<string>>) returns (distributed: seq<string>)
    requires az.Valid()
    ensures distributed == PairPerZone(az.keys, az.at)
  {
    distributed := [];
    for i := 0 to |az.keys|
      invariant distributed == PairPerZone(az.keys[..i], az.at)
    {
      assert az.keys[..i + 1][..i] == az.keys[..i];
      var names := az.at[az.keys[i]];
      if |names| > 1 { distributed := distributed + names[..2]; }
    }
    assert az.keys[..|az.keys|] == az.keys;
  }

  /** The zones with at least two workers, in order. */
  function Paired(zs: seq<Zone>, g: Groups): seq<Zone> {
    if zs == [] then [] else
    var n := |zs| - 1;
    Paired(zs[..n], g) + if Size(g, zs[n]) > 1 then [zs[n]] else []
  }

  lemma {:induction false} PairedZones(zs: seq<Zone>, g: Groups)
    ensures forall z :: z in Paired(zs, g) <==> z in zs && Size(g, z) > 1
    ensures Distinct(zs) ==> Distinct(Paired(zs, g))
  {
    if zs != [] {
      var n := |zs| - 1;
      PairedZones(zs[..n], g);
      assert zs == zs[..n] + [zs[n]];
      DistinctSnoc(Paired(zs[..n], g), zs[n]);
    }
  }

  /** Block i of the pairs is the first two workers of the i-th zone that has two. */
  lemma {:induction false} PairBlock(zs: seq<Zone>, g: Groups, i: nat)
    ensures |PairPerZone(zs, g)| == 2 * |Paired(zs, g)|
    ensures i < |Paired(zs, g)| ==>
      Size(g, Paired(zs, g)[i]) > 1 && PairPerZone(zs, g)[2 * i..2 * i + 2] == g[Paired(zs, g)[i]][..2]
  {
    if zs != [] {
      var n := |zs| - 1;
      PairBlock(zs[..n], g, i);
      var init, z := PairPerZone(zs[..n], g), zs[n];
      if Size(g, z) > 1 {
        assert PairPerZone(zs, g) == init + g[z][..2];
        BlockOf(init, g[z][..2], i);
      } else {
        assert PairPerZone(zs, g) == init;
      }
    }
  }

  lemma {:induction false} BlockOf(init: seq<string>, last: seq<string>, i: nat)
    requires |last| == 2
    ensures 2 * i + 2 <= |init| ==> (init + last)[2 * i..2 * i + 2] == init[2 * i..2 * i + 2]
    ensures 2 * i == |init| ==> (init + last)[2 * i..2 * i + 2] == last
  {
  }

  // ---------------------------------------------------------- arbiter, explicit zones

  /** The first `per` workers of every listed zone. */
  function TakePerZone(zones: seq<string>, g: Groups, per: int): seq<string> {
    if zones == [] then [] else
    var n := |zones| - 1;
    var z := Some(zones[n]);
    TakePerZone(zones[..n], g, per) + if z in g then Take(g[z], per) else []
  }

  /** The first listed zone with fewer than two workers. */
  function FirstSmall(zones: seq<string>, g: Groups): (z: Option<string>)
    ensures z.None? <==> forall i :: 0 <= i < |zones| ==> Size(g, Some(zones[i])) > 1
  {
    if zones == [] then None else
    var n := |zones| - 1;
    var z := FirstSmall(zones[..n], g);
    assert forall i :: 0 <= i < n ==> zones[..n][i] == zones[i];
    if z.Some? then z else if Size(g, Some(zones[n])) > 1 then None else Some(zones[n])
  }

  lemma {:induction false} FirstSmallAt(zones: seq<string>, g: Groups) returns (i: nat)
    requires FirstSmall(zones, g).Some?
    ensures i < |zones| && FirstSmall(zones, g) == Some(zones[i]) && Size(g, Some(zones[i])) <= 1
    ensures forall j :: 0 <= j < i ==> Size(g, Some(zones[j])) > 1
  {
    var n := |zones| - 1;
    if FirstSmall(zones[..n], g).Some? {
      i := FirstSmallAt(zones[..n], g);
      assert forall j :: 0 <= j < n ==> zones[..n][j] == zones[j];
    } else {
      i := n;
      assert forall j :: 0 <= j < n ==> zones[..n][j] == zones[j];
    }
  }

  lemma {:induction false} FirstSmallPrefix(zones: seq<string>, g: Groups, i: nat)
    requires i <= |zones| && FirstSmall(zones[..i], g).Some?
    ensures FirstSmall(zones, g) == FirstSmall(zones[..i], g)
  {
    var n := |zones| - 1;
    if i == |zones| {
      assert zones[..i] == zones;
    } else {
      assert zones[..n][..i] == zones[..i];
      FirstSmallPrefix(zones[..n], g, i);
    }
  }

  method ExplicitZones(az: Dict<Zone, seq<string>>, toLabel: int, zones: seq<string>)
    returns (d: Distribution)
    requires az.Valid() && zones != []
    ensures d == ExplicitSpread(az.at, toLabel, zones)
  {
    var per := TruncDiv(toLabel, |zones|);
    var distributed := [];
    for i := 0 to |zones|
      invariant distributed == TakePerZone(zones[..i], az.at, per)
      invariant FirstSmall(zones[..i], az.at).None?
    {
      assert zones[..i + 1][..i] == zones[..i];
      var names := az.Get(Some(zones[i]), []);
      if |names| > 1 {
        distributed := distributed + Take(names, per);
      } else {
        FirstSmallPrefix(zones, az.at, i + 1);
        return Failed(ZoneTooSmall(zones[i]));
      }
    }
    assert zones[..|zones|] == zones;
    d := Spread(distributed, Some(toLabel));
  }

  ghost predicate AllHave(zones: seq<string>, g: Groups, n: int) {
    forall i :: 0 <= i < |zones| ==> Size(g, Some(zones[i])) >= n
  }

  lemma {:induction false} AllHaveStep(zones: seq<string>, g: Groups, n: int)
    requires zones != []
    ensures var m := |zones| - 1;
      AllHave(zones, g, n) <==> AllHave(zones[..m], g, n) && Size(g, Some(zones[m])) >= n
  {
    var m := |zones| - 1;
    assert forall i :: 0 <= i < m ==> zones[..m][i] == zones[i];
  }

  lemma {:induction false} MulStep(n: nat, per: nat)
    ensures (n + 1) * per == n * per + per
  {
  }

  lemma {:induction false} TakeStep(zones: seq<string>, g: Groups, per: nat)
    requires zones != []
    ensures var m := |zones| - 1;
      |TakePerZone(zones, g, per)| == |TakePerZone(zones[..m], g, per)| + Min(Size(g, Some(zones[m])), per)
  {
  }

  /** At most `per` from each zone; the bound is met exactly when every zone has that many. */
  lemma {:induction false} TakeBound(zones: seq<string>, g: Groups, per: nat)
    ensures |TakePerZone(zones, g, per)| <= |zones| * per
    ensures |TakePerZone(zones, g, per)| == |zones| * per <==> AllHave(zones, g, per)
  {
    if zones != [] {
      var n := |zones| - 1;
      TakeBound(zones[..n], g, per);
      MulStep(n, per);
      AllHaveStep(zones, g, per);
      TakeStep(zones, g, per);
    }
  }

  /** Block i of a full take is the first `per` workers of zone i. */
  lemma {:induction false} TakeBlock(zones: seq<string>, g: Groups, per: nat, i: nat)
    requires i < |zones| && AllHave(zones, g, per)
    requires forall z :: z in zones ==> Some(z) in g
    ensures 0 <= i * per <= i * per + per <= |TakePerZone(zones, g, per)|
    ensures per <= |g[Some(zones[i])]|
    ensures TakePerZone(zones, g, per)[i * per..i * per + per] == g[Some(zones[i])][..per]
  {
    var n := |zones| - 1;
    AllHaveStep(zones, g, per);
    TakeBound(zones[..n], g, per);
    assert zones[i] in zones;
    var init := TakePerZone(zones[..n], g, per);
    var last := g[Some(zones[n])][..per];
    assert TakePerZone(zones, g, per) == init + last by { assert zones[n] in zones; }
    if i < n {
      assert forall z :: z in zones[..n] ==> z in zones;
      TakeBlock(zones[..n], g, per, i);
    } else {
      assert (init + last)[|init|..|init| + per] == last;
    }
  }

  /** EXPLICIT ARBITER ZONES: for a non-negative count the size check passes exactly when the
      number of zones divides it and every zone has its share; then nothing is left over. */
  lemma {:induction false} ArbiterShares(zones: seq<string>, g: Groups, toLabel: nat)
    requires zones != []
    ensures var per := toLabel / |zones|; var d := TakePerZone(zones, g, per);
      && (|d| >= toLabel <==> toLabel % |zones| == 0 && AllHave(zones, g, per))
      && (|d| >= toLabel ==> |d| == toLabel)
  {
    var per := toLabel / |zones|;
    TakeBound(zones, g, per);
    DivExact(toLabel, |zones|);
  }

  lemma {:induction false} DivExact(n: nat, m: nat)
    requires m > 0
    ensures m * (n / m) <= n
    ensures m * (n / m) == n <==> n % m == 0
  {
    assert n == m * (n / m) + n % m;
  }

  // -------------------------------------------------------------------- the procedure

  datatype Distribution = Spread(names: seq<string>, toLabel: Option<int>) | Failed(failure: Failure)

  function ArbiterCount(s: Settings): int { if s.nodesToLabel.Some? then s.nodesToLabel.value else 4 }

  function ExplicitSpread(g: Groups, toLabel: int, zones: seq<string>): Distribution
    requires zones != []
  {
    var small := FirstSmall(zones, g);
    if small.Some? then Failed(ZoneTooSmall(small.value))
    else Spread(TakePerZone(zones, g, TruncDiv(toLabel, |zones|)), Some(toLabel))
  }

  /** The distributed list each mode is meant to produce. */
  function SpreadOf(ws: seq<Node>, s: Settings): Distribution {
    if !s.arbiter then Spread(Distributed(ws), s.nodesToLabel)
    else if s.autodetect then Spread(PairPerZone(ZoneOrder(ws), GroupsOf(ws)), Some(ArbiterCount(s)))
    else if s.zones.None? then Failed(TypeError)
    else if s.zones.value == [] then Failed(ZeroDivision)
    else ExplicitSpread(GroupsOf(ws), ArbiterCount(s), s.zones.value)
  }

  method Distribute(ws: seq<Node>, s: Settings) returns (d: Distribution)
    ensures d == SpreadOf(ws, s)
  {
    var az := GroupByZone(ws);
    if s.arbiter && s.autodetect {
      var names := AutodetectPairs(az);
      d := Spread(names, Some(ArbiterCount(s)));
    } else if s.arbiter {
      if s.zones.None? { return Failed(TypeError); }
      if s.zones.value == [] { return Failed(ZeroDivision); }
      d := ExplicitZones(az, ArbiterCount(s), s.zones.value);
    } else {
      var names := RoundRobin(az);
      d := Spread(names, s.nodesToLabel);
    }
  }

  /** The size check that decides between commands and `UnavailableResourceException`. */
  predicate Fits(d: Distribution, s: Settings) {
    && d.Spread? && d.toLabel.Some?
    && d.toLabel.value <= |d.names| && s.nodesToTaint <= |d.names|
  }

  method LabelAndTaint(nodes: seq<Node>, s: Settings) returns (o: Outcome)
    ensures o == Raised(NoWorkerFound) <==> !exists w :: w in nodes && "node-role.kubernetes.io/worker" in w.labels
    ensures o.Done? ==> forall x :: x in o.labelled || x in o.tainted ==>
      exists w :: w in nodes && "node-role.kubernetes.io/worker" in w.labels && w.name == x
    ensures o.Done? <==> Workers(nodes) != [] && Fits(SpreadOf(Workers(nodes), s), s)
    ensures o.Done? ==> Selects(o, s, SpreadOf(Workers(nodes), s))
    ensures Workers(nodes) != [] && SpreadOf(Workers(nodes), s).Failed? ==>
      o == Raised(SpreadOf(Workers(nodes), s).failure)
    ensures var d := SpreadOf(Workers(nodes), s);
      Workers(nodes) != [] && d.Spread? && !Fits(d, s) ==>
        o == Raised(if d.toLabel.None? then TypeError else NotEnoughWorkers)
  {
    var ws := Workers(nodes);
    WorkersExist(nodes);
    SpreadFromWorkers(nodes, s);
    if ws == [] { return Raised(NoWorkerFound); }
    var d := Distribute(ws, s);
    if d.Failed? { return Raised(d.failure); }
    if d.toLabel.None? { return Raised(TypeError); }
    if |d.names| < d.toLabel.value || |d.names| < s.nodesToTaint { return Raised(NotEnoughWorkers); }
    var labelled := Take(d.names, d.toLabel.value);
    var commands := [];
    if Join(labelled) != "" {
      commands := [Label(Join(labelled))];
      if s.labelInfra { commands := commands + [LabelInfra(Join(labelled))]; }
    }
    var tainted := Take(d.names, s.nodesToTaint);
    if Join(tainted) != "" { commands := commands + [Taint(Join(tainted))]; }
    TakeElements(d.names, d.toLabel.value);
    TakeElements(d.names, s.nodesToTaint);
    o := Done(labelled, tainted, commands);
  }

  lemma {:induction false} WorkersExist(nodes: seq<Node>)
    ensures Workers(nodes) != [] <==> exists w :: w in nodes && "node-role.kubernetes.io/worker" in w.labels
  {
    if Workers(nodes) != [] { IsWorker(nodes, Workers(nodes)[0]); }
    if w :| w in nodes && "node-role.kubernetes.io/worker" in w.labels { IsWorker(nodes, w); }
  }

  /** Only workers are distributed, whatever the mode. */
  lemma {:induction false} SpreadFromWorkers(nodes: seq<Node>, s: Settings)
    ensures var d := SpreadOf(Workers(nodes), s);
      d.Spread? ==> forall x :: x in d.names ==>
        exists w :: w in nodes && "node-role.kubernetes.io/worker" in w.labels && w.name == x
  {
    var ws := Workers(nodes);
    var d := SpreadOf(ws, s);
    if d.Spread? {
      forall x | x in d.names
        ensures exists w :: w in nodes && "node-role.kubernetes.io/worker" in w.labels && w.name == x
      {
        var i := SpreadName(ws, s, x);
        IsWorker(nodes, ws[i]);
      }
    }
  }

  lemma {:induction false} SpreadName(ws: seq<Node>, s: Settings, x: string) returns (i: nat)
    requires SpreadOf(ws, s).Spread? && x in SpreadOf(ws, s).names
    ensures i < |ws| && ws[i].name == x
  {
    if !s.arbiter {
      Permutation(ws);
      assert x in multiset(NodeNames(ws));
      var k :| 0 <= k < |ws| && NodeNames(ws)[k] == x;
      i := k;
    } else {
      var z: Zone;
      if s.autodetect {
        z := PairName(ZoneOrder(ws), GroupsOf(ws), x);
      } else {
        z := TakeName(s.zones.value, GroupsOf(ws), TruncDiv(ArbiterCount(s), |s.zones.value|), x);
      }
      var r :| 0 <= r < |NamesIn(ws, z)| && NamesIn(ws, z)[r] == x;
      i := NamedWorker(ws, z, r);
    }
  }

  lemma {:induction false} PairName(zs: seq<Zone>, g: Groups, x: string) returns (z: Zone)
    requires x in PairPerZone(zs, g)
    ensures z in g && x in g[z]
  {
    var n := |zs| - 1;
    if x in PairPerZone(zs[..n], g) { z := PairName(zs[..n], g, x); } else { z := zs[n]; }
  }

  lemma {:induction false} TakeName(zones: seq<string>, g: Groups, per: int, x: string) returns (z: Zone)
    requires x in TakePerZone(zones, g, per)
    ensures z in g && x in g[z]
  {
    var n := |zones| - 1;
    if x in TakePerZone(zones[..n], g, per) { z := TakeName(zones[..n], g, per, x); } else { z := Some(zones[n]); }
  }

  function LabelCommands(nodes: string, infra: bool): seq<Command> {
    if nodes == "" then [] else if infra then [Label(nodes), LabelInfra(nodes)] else [Label(nodes)]
  }

  function TaintCommands(nodes: string): seq<Command> { if nodes == "" then [] else [Taint(nodes)] }

  /** The outcome labels and then taints prefixes of the distributed list, with one command per
      label and non-empty selection. */
  ghost predicate Selects(o: Outcome, s: Settings, d: Distribution)
    requires o.Done? && Fits(d, s)
  {
    && o.labelled == Take(d.names, d.toLabel.value)
    && o.tainted == Take(d.names, s.nodesToTaint)
    && o.commands == LabelCommands(Join(o.labelled), s.labelInfra) + TaintCommands(Join(o.tainted))
  }

  /** Round-robin mode succeeds exactly when the counts do not exceed the number of workers. */
  lemma {:induction false} RoundRobinFits(ws: seq<Node>, s: Settings)
    requires !s.arbiter
    ensures Fits(SpreadOf(ws, s), s) <==>
      s.nodesToLabel.Some? && s.nodesToLabel.value <= |ws| && s.nodesToTaint <= |ws|
  {
    Permutation(ws);
  }

  /** Round-robin mode: whenever the procedure succeeds with non-negative counts and node names
      are unique, the labelled and the tainted workers each cover as many zones as possible. */
  lemma {:induction false} SelectionSpansZones(ws: seq<Node>, s: Settings, n: nat, chosen: set<Node>)
    requires !s.arbiter && Fits(SpreadOf(ws, s), s) && Distinct(NodeNames(ws))
    requires n == s.nodesToLabel.value || n == s.nodesToTaint
    requires (forall w :: w in chosen ==> w in ws) && |chosen| <= n
    ensures |set w | w in chosen :: ZoneOf(w)| <= |ChosenZones(ws, Take(Distributed(ws), n))|
      == Min(n, |ZoneOrder(ws)|)
  {
    ZoneCoverage(ws, n);
    BestCoverage(ws, chosen);
  }

  /** The zones in which at least two workers were found. */
  ghost function RichZones(ws: seq<Node>): set<Zone> {
    set w | w in ws && |NamesIn(ws, ZoneOf(w))| >= 2 :: ZoneOf(w)
  }

  lemma {:induction false} PairedAreRich(ws: seq<Node>)
    ensures Distinct(Paired(ZoneOrder(ws), GroupsOf(ws)))
    ensures (set z | z in Paired(ZoneOrder(ws), GroupsOf(ws))) == RichZones(ws)
    ensures |Paired(ZoneOrder(ws), GroupsOf(ws))| == |RichZones(ws)|
  {
    var zs, g := ZoneOrder(ws), GroupsOf(ws);
    PairedZones(zs, g);
    ZoneOrderFacts(ws);
    forall z | z in Paired(zs, g) ensures z in RichZones(ws) {
      var i := NamedWorker(ws, z, 0);
      assert ws[i] in ws;
    }
    forall z | z in RichZones(ws) ensures z in Paired(zs, g) { GroupSize(ws, z); }
    DistinctCardinality(Paired(zs, g));
  }

  /** Autodetecting arbiter mode: it succeeds exactly when both counts are at most twice the number
      of zones with at least two workers. */
  lemma {:induction false} AutodetectFits(ws: seq<Node>, s: Settings)
    requires s.arbiter && s.autodetect
    ensures var n := if s.nodesToLabel.Some? then s.nodesToLabel.value else 4;
      Fits(SpreadOf(ws, s), s) <==> n <= 2 * |RichZones(ws)| && s.nodesToTaint <= 2 * |RichZones(ws)|
  {
    PairBlock(ZoneOrder(ws), GroupsOf(ws), 0);
    PairedAreRich(ws);
  }

  /** The distributed list then consists of one block per zone with at least two workers, in zone
      order, holding the first two workers of that zone. */
  lemma {:induction false} AutodetectBlocks(ws: seq<Node>, s: Settings, i: nat) returns (z: Zone)
    requires s.arbiter && s.autodetect && i < |RichZones(ws)|
    ensures |SpreadOf(ws, s).names| == 2 * |RichZones(ws)|
    ensures i < |Paired(ZoneOrder(ws), GroupsOf(ws))| && z == Paired(ZoneOrder(ws), GroupsOf(ws))[i]
    ensures z in RichZones(ws)
    ensures |NamesIn(ws, z)| >= 2 && SpreadOf(ws, s).names[2 * i..2 * i + 2] == NamesIn(ws, z)[..2]
  {
    PairedAreRich(ws);
    z := Paired(ZoneOrder(ws), GroupsOf(ws))[i];
    PairBlock(ZoneOrder(ws), GroupsOf(ws), i);
    GroupSize(ws, z);
  }

  /** Explicit-zone arbiter mode: for a non-negative count it succeeds exactly under a condition
      on the input; then the labelled list is made of equal shares, zone by zone, and contains
      the tainted prefix. */
  lemma {:induction false} ArbiterFits(ws: seq<Node>, s: Settings)
    requires s.arbiter && !s.autodetect && s.zones.Some? && s.zones.value != []
    requires s.nodesToLabel.Some? ==> s.nodesToLabel.value >= 0
    ensures var zones, n := s.zones.value, if s.nodesToLabel.Some? then s.nodesToLabel.value else 4;
      Fits(SpreadOf(ws, s), s) <==>
        && n % |zones| == 0
        && s.nodesToTaint <= n
        && forall i :: 0 <= i < |zones| ==> |NamesIn(ws, Some(zones[i]))| >= Max(2, n / |zones|)
  {
    var zones, n := s.zones.value, ArbiterCount(s);
    var g := GroupsOf(ws);
    ArbiterShares(zones, g, n);
    forall z: Zone ensures Size(g, z) == |NamesIn(ws, z)| { GroupSize(ws, z); }
  }

  lemma {:induction false} GroupSize(ws: seq<Node>, z: Zone)
    ensures Size(GroupsOf(ws), z) == |NamesIn(ws, z)|
  {
    if z !in ZoneOrder(ws) { NoNames(ws, z); }
  }

  /** On success the labelled list is the whole distributed list, so the tainted list,
      being a prefix of it, lies within the labelled one. */
  lemma {:induction false} ArbiterExact(ws: seq<Node>, s: Settings)
    requires s.arbiter && !s.autodetect && s.zones.Some? && s.zones.value != []
    requires ArbiterCount(s) >= 0 && Fits(SpreadOf(ws, s), s)
    ensures var n, d := ArbiterCount(s), SpreadOf(ws, s).names;
      |d| == n && Take(d, n) == d && Take(d, s.nodesToTaint) <= Take(d, n)
    ensures var zones := s.zones.value;
      && AllHave(zones, GroupsOf(ws), ArbiterCount(s) / |zones|)
      && forall z :: z in zones ==> Some(z) in GroupsOf(ws)
  {
    var zones, g := s.zones.value, GroupsOf(ws);
    ArbiterShares(zones, g, ArbiterCount(s));
    forall z | z in zones ensures Some(z) in g {
      var j :| 0 <= j < |zones| && zones[j] == z;
      assert Size(g, Some(zones[j])) > 1;
    }
  }

  /** On success zone i contributes exactly its first toLabel/zones workers. */
  lemma {:induction false} ArbiterLabels(ws: seq<Node>, s: Settings, i: nat, per: nat)
    requires s.arbiter && !s.autodetect && s.zones.Some? && i < |s.zones.value|
    requires ArbiterCount(s) >= 0 && Fits(SpreadOf(ws, s), s)
    requires per == ArbiterCount(s) / |s.zones.value|
    ensures 0 <= i * per <= i * per + per <= |SpreadOf(ws, s).names|
    ensures per <= |NamesIn(ws, Some(s.zones.value[i]))|
    ensures SpreadOf(ws, s).names[i * per..i * per + per] == NamesIn(ws, Some(s.zones.value[i]))[..per]
  {
    var zones, g := s.zones.value, GroupsOf(ws);
    ArbiterExact(ws, s);
    assert zones[i] in zones;
    TakeBlock(zones, g, per, i);
    assert SpreadOf(ws, s).names == TakePerZone(zones, g, per);
  }
}
