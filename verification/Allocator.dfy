/** The zone-aware worker allocator of `Deployment.label_and_taint_nodes`:
    group workers by zone, distribute them, label and taint prefixes of the result. */
module Allocator {
  import opened Py
  import opened Deal

  const WORKER_LABEL := "node-role.kubernetes.io/worker"
  const ZONE_LABEL := "topology.kubernetes.io/zone"

  datatype Node = Node(name: string, labels: map<string, string>)

  function ZoneOf(n: Node): Zone {
    if ZONE_LABEL in n.labels then Some(n.labels[ZONE_LABEL]) else None
  }

  function Workers(nodes: seq<Node>): seq<Node> {
    if nodes == [] then [] else
    var n := |nodes| - 1;
    if WORKER_LABEL in nodes[n].labels then Workers(nodes[..n]) + [nodes[n]] else Workers(nodes[..n])
  }

  /** The workers are exactly the nodes that carry the worker label, in listing order. */
  lemma {:induction false} WorkersMeaning(nodes: seq<Node>) returns (idx: seq<nat>)
    ensures Filtered(nodes, Workers(nodes), idx, (w: Node) => "node-role.kubernetes.io/worker" in w.labels)
  {
    if nodes == [] {
      idx := [];
    } else {
      var n := |nodes| - 1;
      idx := WorkersMeaning(nodes[..n]);
      var wanted := (w: Node) => "node-role.kubernetes.io/worker" in w.labels;
      FilteredSnoc(nodes[..n], Workers(nodes[..n]), idx, wanted, nodes[n]);
      assert nodes == nodes[..n] + [nodes[n]];
      if wanted(nodes[n]) { idx := idx + [n]; }
    }
  }

  /** A node is a worker exactly if it is listed and carries the worker label. */
  lemma {:induction false} IsWorker(nodes: seq<Node>, w: Node)
    ensures w in Workers(nodes) <==> w in nodes && "node-role.kubernetes.io/worker" in w.labels
  {
    var idx := WorkersMeaning(nodes);
    if w in Workers(nodes) {
      var k :| 0 <= k < |idx| && Workers(nodes)[k] == w;
      assert idx[k] in idx;
    }
    if w in nodes && "node-role.kubernetes.io/worker" in w.labels {
      var i :| 0 <= i < |nodes| && nodes[i] == w;
      var k :| 0 <= k < |idx| && idx[k] == i;
      assert Workers(nodes)[k] == w;
    }
  }

  // ------------------------------------------------------------------- grouping

  function NodeNames(ws: seq<Node>): seq<string> {
    seq(|ws|, i requires 0 <= i < |ws| => ws[i].name)
  }

  /** Zones in order of first appearance. */
  function ZoneOrder(ws: seq<Node>): seq<Zone> {
    if ws == [] then [] else
    var n := |ws| - 1;
    var zs := ZoneOrder(ws[..n]);
    if ZoneOf(ws[n]) in zs then zs else zs + [ZoneOf(ws[n])]
  }

  /** Names of the workers of one zone, in listing order. */
  function NamesIn(ws: seq<Node>, z: Zone): seq<string> {
    if ws == [] then [] else
    var n := |ws| - 1;
    NamesIn(ws[..n], z) + if ZoneOf(ws[n]) == z then [ws[n].name] else []
  }

  /** The zone order lists exactly the zones that occur, each once. */
  lemma {:induction false} ZoneOrderFacts(ws: seq<Node>)
    ensures Distinct(ZoneOrder(ws))
    ensures forall i :: 0 <= i < |ws| ==> ZoneOf(ws[i]) in ZoneOrder(ws)
    ensures forall z :: z in ZoneOrder(ws) ==> NamesIn(ws, z) != []
  {
    ZoneOrderDistinct(ws);
    forall i | 0 <= i < |ws| ensures ZoneOf(ws[i]) in ZoneOrder(ws) { ZoneListed(ws, i); }
    forall z | z in ZoneOrder(ws) ensures NamesIn(ws, z) != [] { ZoneNamed(ws, z); }
  }

  lemma {:induction false} ZoneOrderDistinct(ws: seq<Node>)
    ensures Distinct(ZoneOrder(ws))
  {
    if ws != [] {
      var n := |ws| - 1;
      ZoneOrderDistinct(ws[..n]);
      DistinctSnoc(ZoneOrder(ws[..n]), ZoneOf(ws[n]));
    }
  }

  lemma {:induction false} ZoneListed(ws: seq<Node>, i: nat)
    requires i < |ws|
    ensures ZoneOf(ws[i]) in ZoneOrder(ws)
  {
    var n := |ws| - 1;
    if i < n { ZoneListed(ws[..n], i); }
  }

  lemma {:induction false} ZoneNamed(ws: seq<Node>, z: Zone)
    requires z in ZoneOrder(ws)
    ensures NamesIn(ws, z) != []
  {
    var n := |ws| - 1;
    if ZoneOf(ws[n]) != z { ZoneNamed(ws[..n], z); }
  }

  /** The names listed for a zone are those of the nodes whose zone label says so, in listing order;
      the nodes without a zone label make up a group of their own. */
  lemma {:induction false} ZoneMembers(ws: seq<Node>, z: Zone) returns (members: seq<Node>, idx: seq<nat>)
    ensures NamesIn(ws, z) == NodeNames(members)
    ensures Filtered(ws, members, idx, (w: Node) =>
      z == if "topology.kubernetes.io/zone" in w.labels then Some(w.labels["topology.kubernetes.io/zone"]) else None)
  {
    if ws == [] {
      members, idx := [], [];
    } else {
      var n := |ws| - 1;
      members, idx := ZoneMembers(ws[..n], z);
      FilteredSnoc(ws[..n], members, idx, (w: Node) =>
        z == if "topology.kubernetes.io/zone" in w.labels then Some(w.labels["topology.kubernetes.io/zone"]) else None,
        ws[n]);
      assert ws == ws[..n] + [ws[n]];
      if ZoneOf(ws[n]) == z { members, idx := members + [ws[n]], idx + [n]; }
    }
  }

  /** A zone outside the order has no workers. */
  lemma {:induction false} NoNames(ws: seq<Node>, z: Zone)
    requires z !in ZoneOrder(ws)
    ensures NamesIn(ws, z) == []
  {
    if ws != [] { NoNames(ws[..|ws| - 1], z); }
  }

  /** Every name in a zone's list is that of a worker of the zone. */
  lemma {:induction false} NamedWorker(ws: seq<Node>, z: Zone, r: nat) returns (i: nat)
    requires r < |NamesIn(ws, z)|
    ensures i < |ws| && ZoneOf(ws[i]) == z && ws[i].name == NamesIn(ws, z)[r]
  {
    var n := |ws| - 1;
    if r < |NamesIn(ws[..n], z)| { i := NamedWorker(ws[..n], z, r); } else { i := n; }
  }

  function GroupsOf(ws: seq<Node>): Groups {
    map z | z in ZoneOrder(ws) :: NamesIn(ws, z)
  }

  method GroupByZone(ws: seq<Node>) returns (az: Dict<Zone, seq<string>>)
    ensures az.Valid() && az.keys == ZoneOrder(ws) && az.at == GroupsOf(ws)
  {
    az := Dict([], map[]);
    for i := 0 to |ws|
      invariant Grouped(az, ws[..i])
    {
      GroupStep(az, ws[..i], ws[i]);
      assert ws[..i + 1] == ws[..i] + [ws[i]];
      az := az.Put(ZoneOf(ws[i]), az.Get(ZoneOf(ws[i]), []) + [ws[i].name]);
    }
    assert ws[..|ws|] == ws;
  }

  ghost predicate Grouped(az: Dict<Zone, seq<string>>, ws: seq<Node>) {
    az.Valid() && az.keys == ZoneOrder(ws) && forall z :: z in az.keys ==> az.at[z] == NamesIn(ws, z)
  }

  lemma {:induction false} GroupStep(az: Dict<Zone, seq<string>>, ws: seq<Node>, w: Node)
    requires Grouped(az, ws)
    ensures Grouped(az.Put(ZoneOf(w), az.Get(ZoneOf(w), []) + [w.name]), ws + [w])
  {
    assert (ws + [w])[..|ws|] == ws;
    if ZoneOf(w) !in az.keys { NoNames(ws, ZoneOf(w)); }
  }

  // ---------------------------------------------------------------- round robin

  /** Keys still present when round r starts. */
  function Alive(keys: seq<Zone>, g: Groups, r: nat): seq<Zone> {
    if keys == [] then [] else
    var n := |keys| - 1;
    Alive(keys[..n], g, r) + if Size(g, keys[n]) >= r then [keys[n]] else []
  }

  lemma {:induction false} AliveKeys(keys: seq<Zone>, g: Groups, r: nat)
    ensures forall z :: z in Alive(keys, g, r) <==> z in keys && Size(g, z) >= r
    ensures Distinct(keys) ==> Distinct(Alive(keys, g, r))
  {
    if keys != [] {
      var n := |keys| - 1;
      AliveKeys(keys[..n], g, r);
      assert keys == keys[..n] + [keys[n]];
      DistinctSnoc(Alive(keys[..n], g, r), keys[n]);
    }
  }

  /** Dropping the keys that died earlier changes neither this round nor the survivors. */
  lemma {:induction false} AliveRound(keys: seq<Zone>, g: Groups, r: nat)
    ensures Alive(Alive(keys, g, r), g, r + 1) == Alive(keys, g, r + 1)
    ensures Round(Alive(keys, g, r), g, r) == Round(keys, g, r)
  {
    if keys != [] {
      var n := |keys| - 1;
      AliveRound(keys[..n], g, r);
      var a, init := Alive(keys, g, r), Alive(keys[..n], g, r);
      if Size(g, keys[n]) >= r {
        assert a == init + [keys[n]];
        assert a[..|a| - 1] == init;
      } else {
        assert a == init;
      }
    }
  }

  lemma {:induction false} AliveAll(keys: seq<Zone>, g: Groups)
    ensures Alive(keys, g, 0) == keys
  {
    if keys != [] { AliveAll(keys[..|keys| - 1], g); }
  }

  lemma {:induction false} RoundEmpty(keys: seq<Zone>, g: Groups, r: nat)
    requires forall z :: z in keys ==> Size(g, z) <= r
    ensures Round(keys, g, r) == []
  {
    if keys != [] { RoundEmpty(keys[..|keys| - 1], g, r); }
  }

  /** Once no key is alive every further round is empty, so the deal is complete. */
  lemma {:induction false} RoundsComplete(keys: seq<Zone>, g: Groups, k: nat)
    requires forall z :: z in keys ==> Size(g, z) <= k
    ensures Rounds(keys, g, k) == Dealt(keys, g)
  {
    var t := Tallest(keys, g);
    if k > t {
      RoundEmpty(keys, g, k - 1);
      RoundsComplete(keys, g, k - 1);
    } else if k < t {
      TallestTight(keys, g, k);
    }
  }

  lemma {:induction false} TallestTight(keys: seq<Zone>, g: Groups, k: nat)
    requires forall z :: z in keys ==> Size(g, z) <= k
    ensures Tallest(keys, g) <= k
  {
    if keys != [] { TallestTight(keys[..|keys| - 1], g, k); }
  }

  /** The lists of `keys` hold what is left of their groups after r pops. */
  ghost predicate Rest(keys: seq<Zone>, at: Groups, g: Groups, r: nat) {
    forall z :: z in keys ==> z in g && z in at && r <= |g[z]| && at[z] == g[z][r..]
  }

  /** In the middle of a pass the keys `kept` have been popped and the keys `rest` have not. */
  ghost predicate Midway(d: Dict<Zone, seq<string>>, kept: seq<Zone>, rest: seq<Zone>, g: Groups, r: nat) {
    d.Valid() && d.keys == kept + rest && Rest(kept, d.at, g, r + 1) && Rest(rest, d.at, g, r)
  }

  /** What the pass kept and emitted for the keys it has seen. */
  ghost predicate Emitted(kept: seq<Zone>, dealt: seq<string>, seen: seq<Zone>, g: Groups, r: nat) {
    kept == Alive(seen, g, r + 1) && dealt == Names(g, Round(seen, g, r)) && |kept| == |dealt|
  }

  lemma {:induction false} StepPop(
    d: Dict<Zone, seq<string>>, init: seq<Zone>, z: Zone, rest: seq<Zone>, g: Groups, r: nat)
    requires Midway(d, init, [z] + rest, g, r) && d.at[z] != []
    ensures Midway(d.Put(z, d.at[z][1..]), init + [z], rest, g, r)
    ensures Size(g, z) > r && d.at[z][0] == NameAt(g, Slot(z, r))
  {
    Associate(init, [z], rest);
    assert z in [z] + rest;
    assert d.keys[|init|] == z;
    DistinctSplice(init, z, rest);
    assert forall x :: x in rest ==> x in [z] + rest;
  }

  lemma {:induction false} StepDelete(
    d: Dict<Zone, seq<string>>, init: seq<Zone>, z: Zone, rest: seq<Zone>, g: Groups, r: nat)
    requires Midway(d, init, [z] + rest, g, r) && d.at[z] == []
    ensures Midway(d.Del(z), init, rest, g, r)
    ensures Size(g, z) == r
  {
    Associate(init, [z], rest);
    assert z in [z] + rest;
    assert d.keys[|init|] == z;
    DistinctSplice(init, z, rest);
    assert forall x :: x in rest ==> x in [z] + rest;
    WithoutSplice(init, z, rest);
  }

  lemma {:induction false} NamesAppend(g: Groups, a: seq<Slot>, b: seq<Slot>)
    ensures Names(g, a + b) == Names(g, a) + Names(g, b)
  {
  }

  /** One more key, seen through what the pass kept and emitted. */
  lemma {:induction false} EmitStep(kept: seq<Zone>, dealt: seq<string>, keys: seq<Zone>, i: nat, g: Groups, r: nat)
    requires i < |keys| && Emitted(kept, dealt, keys[..i], g, r)
    ensures Size(g, keys[i]) > r ==>
      Emitted(kept + [keys[i]], dealt + [NameAt(g, Slot(keys[i], r))], keys[..i + 1], g, r)
    ensures Size(g, keys[i]) <= r ==> Emitted(kept, dealt, keys[..i + 1], g, r)
  {
    assert keys[..i + 1][..i] == keys[..i];
    NamesAppend(g, Round(keys[..i], g, r), [Slot(keys[i], r)]);
  }

  lemma {:induction false} NextKey(d: Dict<Zone, seq<string>>, kept: seq<Zone>, s: seq<Zone>, i: nat, g: Groups, r: nat)
    requires i < |s| && Midway(d, kept, s[i..], g, r)
    ensures s[i] in d.at && Midway(d, kept, [s[i]] + s[i + 1..], g, r)
  {
    assert s[i..] == [s[i]] + s[i + 1..];
    assert s[i] in s[i..];
  }

  /** One pass of the `for` loop over a snapshot of the keys: pop the head of a
      non-empty list, delete the key of an empty one. */
  method Pass(az0: Dict<Zone, seq<string>>, ghost g: Groups, ghost r: nat)
    returns (az: Dict<Zone, seq<string>>, dealt: seq<string>)
    requires az0.Valid() && Rest(az0.keys, az0.at, g, r)
    ensures az.Valid() && Rest(az.keys, az.at, g, r + 1)
    ensures az.keys == Alive(az0.keys, g, r + 1)
    ensures dealt == Names(g, Round(az0.keys, g, r)) && |dealt| == |az.keys|
  {
    az, dealt := az0, [];
    var snapshot := az0.keys;
    ghost var kept: seq<Zone> := [];
    for i := 0 to |snapshot|
      invariant Midway(az, kept, snapshot[i..], g, r)
      invariant Emitted(kept, dealt, snapshot[..i], g, r)
    {
      var z := snapshot[i];
      EmitStep(kept, dealt, snapshot, i, g, r);
      NextKey(az, kept, snapshot, i, g, r);
      if az.at[z] != [] {
        StepPop(az, kept, z, snapshot[i + 1..], g, r);
        dealt := dealt + [az.at[z][0]];
        az := az.Put(z, az.at[z][1..]);
        kept := kept + [z];
      } else {
        StepDelete(az, kept, z, snapshot[i + 1..], g, r);
        az := az.Del(z);
      }
    }
    assert snapshot[..|snapshot|] == snapshot;
    assert kept + snapshot[|snapshot|..] == kept;
  }

  /** The outer `while` loop. The measure is remaining nodes plus remaining keys. */
  method RoundRobin(az0: Dict<Zone, seq<string>>) returns (distributed: seq<string>)
    requires az0.Valid()
    ensures distributed == Names(az0.at, Dealt(az0.keys, az0.at))
  {
    var az := az0;
    ghost var keys, g := az0.keys, az0.at;
    ghost var r := 0;
    ghost var total := |Dealt(keys, g)|;
    distributed := [];
    AliveAll(keys, g);
    while az.keys != []
      invariant az.Valid() && az.keys == Alive(keys, g, r)
      invariant Rest(az.keys, az.at, g, r)
      invariant distributed == Names(g, Rounds(keys, g, r))
      invariant |distributed| <= total
      decreases total - |distributed| + |az.keys|
    {
      AliveRound(keys, g, r);
      CapRounds(keys, g, r + 1);
      var dealt;
      az, dealt := Pass(az, g, r);
      NamesAppend(g, Rounds(keys, g, r), Round(keys, g, r));
      distributed := distributed + dealt;
      r := r + 1;
    }
    AliveKeys(keys, g, r);
    RoundsComplete(keys, g, r);
  }

  lemma {:induction false} CapRounds(keys: seq<Zone>, g: Groups, k: nat)
    ensures |Rounds(keys, g, k)| <= |Dealt(keys, g)|
  {
    if k <= Tallest(keys, g) {
      RoundsExtend(keys, g, k, Tallest(keys, g));
    } else {
      RoundsComplete(keys, g, k);
    }
  }
}
