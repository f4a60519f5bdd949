/** What the distributed worker list promises about the workers themselves. */
module AllocatorLaws {
  import opened Py
  import opened Deal
  import opened Allocator

  /** The list that grouping and round robin produce together. */
  function Distributed(ws: seq<Node>): seq<string> {
    Names(GroupsOf(ws), Dealt(ZoneOrder(ws), GroupsOf(ws)))
  }

  ghost function DealtSlots(ws: seq<Node>): seq<Slot> { Dealt(ZoneOrder(ws), GroupsOf(ws)) }

  lemma {:induction false} GroupSizes(ws: seq<Node>)
    ensures forall z :: z in ZoneOrder(ws) ==> Size(GroupsOf(ws), z) == |NamesIn(ws, z)| > 0
    ensures Distinct(ZoneOrder(ws))
  {
    ZoneOrderFacts(ws);
  }

  // ---------------------------------------------------------------- permutation

  /** The names of the first k ranks of one group. */
  ghost function Part(g: Groups, z: Zone, k: nat): multiset<string> {
    if z in g then multiset(g[z][..Min(k, |g[z]|)]) else multiset{}
  }

  lemma {:induction false} PartStep(g: Groups, z: Zone, k: nat)
    ensures Part(g, z, k + 1) ==
      Part(g, z, k) + if Size(g, z) > k then multiset{NameAt(g, Slot(z, k))} else multiset{}
  {
    if Size(g, z) > k { assert g[z][..k + 1] == g[z][..k] + [g[z][k]]; }
  }

  /** All names of the first k ranks of the given groups, with multiplicity. */
  ghost function Bag(keys: seq<Zone>, g: Groups, k: nat): multiset<string> {
    if keys == [] then multiset{} else
    var n := |keys| - 1;
    Bag(keys[..n], g, k) + Part(g, keys[n], k)
  }

  lemma {:induction false} RoundNames(keys: seq<Zone>, g: Groups, k: nat)
    requires keys != []
    ensures var n := |keys| - 1;
      multiset(Names(g, Round(keys, g, k))) == multiset(Names(g, Round(keys[..n], g, k)))
      + if Size(g, keys[n]) > k then multiset{NameAt(g, Slot(keys[n], k))} else multiset{}
  {
    var n := |keys| - 1;
    if Size(g, keys[n]) > k {
      NamesAppend(g, Round(keys[..n], g, k), [Slot(keys[n], k)]);
      assert Names(g, [Slot(keys[n], k)]) == [NameAt(g, Slot(keys[n], k))];
    } else {
      assert Round(keys, g, k) == Round(keys[..n], g, k);
    }
  }

  lemma {:induction false} BagRound(keys: seq<Zone>, g: Groups, k: nat)
    ensures Bag(keys, g, k + 1) == Bag(keys, g, k) + multiset(Names(g, Round(keys, g, k)))
  {
    if keys != [] {
      var n := |keys| - 1;
      BagRound(keys[..n], g, k);
      PartStep(g, keys[n], k);
      RoundNames(keys, g, k);
    }
  }

  lemma {:induction false} NamesBag(g: Groups, a: seq<Slot>, b: seq<Slot>)
    ensures multiset(Names(g, a + b)) == multiset(Names(g, a)) + multiset(Names(g, b))
  {
    NamesAppend(g, a, b);
  }

  lemma {:induction false} BagRounds(keys: seq<Zone>, g: Groups, k: nat)
    ensures multiset(Names(g, Rounds(keys, g, k))) == Bag(keys, g, k)
  {
    forall r: nat ensures Bag(keys, g, r + 1) == Bag(keys, g, r) + multiset(Names(g, Round(keys, g, r))) {
      BagRound(keys, g, r);
    }
    BagZero(keys, g);
    RoundsBag(keys, g, k, (r: nat) => Bag(keys, g, r));
  }

  lemma {:induction false} RoundsBag(keys: seq<Zone>, g: Groups, k: nat, bag: nat -> multiset<string>)
    requires bag(0) == multiset{}
    requires forall r: nat :: bag(r + 1) == bag(r) + multiset(Names(g, Round(keys, g, r)))
    ensures multiset(Names(g, Rounds(keys, g, k))) == bag(k)
  {
    if k > 0 {
      RoundsBag(keys, g, k - 1, bag);
      RoundsNames(keys, g, k - 1);
      assert bag(k - 1 + 1) == bag(k - 1) + multiset(Names(g, Round(keys, g, k - 1)));
    }
  }

  lemma {:induction false} RoundsNames(keys: seq<Zone>, g: Groups, r: nat)
    ensures multiset(Names(g, Rounds(keys, g, r + 1))) ==
      multiset(Names(g, Rounds(keys, g, r))) + multiset(Names(g, Round(keys, g, r)))
  {
    NamesBag(g, Rounds(keys, g, r), Round(keys, g, r));
  }

  lemma {:induction false} BagZero(keys: seq<Zone>, g: Groups)
    ensures Bag(keys, g, 0) == multiset{}
  {
    if keys != [] { BagZero(keys[..|keys| - 1], g); }
  }

  type Bags = Zone -> multiset<string>

  /** The union of the bags of the given zones. */
  ghost function Union(keys: seq<Zone>, b: Bags): multiset<string> {
    if keys == [] then multiset{} else
    var n := |keys| - 1;
    Union(keys[..n], b) + b(keys[n])
  }

  lemma {:induction false} UnionSame(keys: seq<Zone>, b: Bags, c: Bags)
    requires forall i :: 0 <= i < |keys| ==> b(keys[i]) == c(keys[i])
    ensures Union(keys, b) == Union(keys, c)
  {
    if keys != [] { UnionSame(keys[..|keys| - 1], b, c); }
  }

  /** Growing the bag of one key grows the union by as much. */
  lemma {:induction false} UnionBump(keys: seq<Zone>, b: Bags, c: Bags, j: nat, x: string)
    requires j < |keys| && c(keys[j]) == b(keys[j]) + multiset{x}
    requires forall i :: 0 <= i < |keys| && i != j ==> b(keys[i]) == c(keys[i])
    ensures Union(keys, c) == Union(keys, b) + multiset{x}
  {
    var n := |keys| - 1;
    if j == n { UnionSame(keys[..n], b, c); } else { UnionBump(keys[..n], b, c, j, x); }
  }

  ghost function BagsOf(ws: seq<Node>): Bags { z => multiset(NamesIn(ws, z)) }

  /** One more worker adds its name to the bag of its zone and to no other. */
  lemma {:induction false} BagsStep(ws: seq<Node>, w: Node, z: Zone)
    ensures BagsOf(ws + [w])(z) == BagsOf(ws)(z) + if ZoneOf(w) == z then multiset{w.name} else multiset{}
  {
    assert (ws + [w])[..|ws|] == ws;
    if ZoneOf(w) != z { assert NamesIn(ws + [w], z) == NamesIn(ws, z); }
  }

  lemma {:induction false} UnionAll(ws: seq<Node>)
    ensures Union(ZoneOrder(ws), BagsOf(ws)) == multiset(NodeNames(ws))
  {
    if ws != [] {
      var init, w := ws[..|ws| - 1], ws[|ws| - 1];
      assert ws == init + [w];
      UnionAll(init);
      UnionStep(init, w);
      NodeNamesStep(init, w);
    }
  }

  lemma {:induction false} NodeNamesStep(ws: seq<Node>, w: Node)
    ensures multiset(NodeNames(ws + [w])) == multiset(NodeNames(ws)) + multiset{w.name}
  {
    assert NodeNames(ws + [w]) == NodeNames(ws) + [w.name];
  }

  /** Adding x to the bag of z, which joins the keys if it was not among them. */
  lemma {:induction false} UnionGrow(zs: seq<Zone>, b: Bags, c: Bags, z: Zone, x: string)
    requires Distinct(zs) && (z !in zs ==> b(z) == multiset{})
    requires c(z) == b(z) + multiset{x} && forall k :: k != z ==> c(k) == b(k)
    ensures Union(if z in zs then zs else zs + [z], c) == Union(zs, b) + multiset{x}
  {
    if z in zs {
      var j :| 0 <= j < |zs| && zs[j] == z;
      UnionBump(zs, b, c, j, x);
    } else {
      UnionSame(zs, b, c);
      assert (zs + [z])[..|zs|] == zs;
    }
  }

  lemma {:induction false} UnionStep(ws: seq<Node>, w: Node)
    ensures Union(ZoneOrder(ws + [w]), BagsOf(ws + [w])) == Union(ZoneOrder(ws), BagsOf(ws)) + multiset{w.name}
  {
    var z := ZoneOf(w);
    assert (ws + [w])[..|ws|] == ws;
    ZoneOrderFacts(ws);
    if z !in ZoneOrder(ws) { NoNames(ws, z); }
    forall k ensures BagsOf(ws + [w])(k) == BagsOf(ws)(k) + if z == k then multiset{w.name} else multiset{} {
      BagsStep(ws, w, k);
    }
    UnionGrow(ZoneOrder(ws), BagsOf(ws), BagsOf(ws + [w]), z, w.name);
  }

  lemma {:induction false} BagIsUnion(keys: seq<Zone>, ws: seq<Node>, k: nat)
    requires forall z :: z in keys ==> z in GroupsOf(ws) && |NamesIn(ws, z)| <= k
    ensures Bag(keys, GroupsOf(ws), k) == Union(keys, BagsOf(ws))
  {
    if keys != [] {
      var n := |keys| - 1;
      BagIsUnion(keys[..n], ws, k);
      var names := GroupsOf(ws)[keys[n]];
      assert names[..Min(k, |names|)] == names;
    }
  }

  /** PERMUTATION: the distributed list holds every worker name, as often as the listing. */
  lemma {:induction false} Permutation(ws: seq<Node>)
    ensures multiset(Distributed(ws)) == multiset(NodeNames(ws))
    ensures |Distributed(ws)| == |ws|
  {
    var keys, g := ZoneOrder(ws), GroupsOf(ws);
    var t := Tallest(keys, g);
    BagRounds(keys, g, t);
    forall z | z in keys ensures |NamesIn(ws, z)| <= t {
      assert Size(g, z) == |NamesIn(ws, z)|;
    }
    BagIsUnion(keys, ws, t);
    UnionAll(ws);
    assert |multiset(Distributed(ws))| == |Distributed(ws)|;
    assert |multiset(NodeNames(ws))| == |NodeNames(ws)|;
  }

  // ------------------------------------------------ closed form on the worker list

  /** The r-th worker of the j-th zone to appear sits at
      (sum over zones of min(size, r)) + (number of earlier zones with more than r workers). */
  lemma {:induction false} WorkerPosition(ws: seq<Node>, j: nat, r: nat)
    requires j < |ZoneOrder(ws)| && r < |NamesIn(ws, ZoneOrder(ws)[j])|
    ensures Position(ZoneOrder(ws), GroupsOf(ws), j, r) < |ws|
    ensures |Distributed(ws)| == |ws|
    ensures Distributed(ws)[Position(ZoneOrder(ws), GroupsOf(ws), j, r)] == NamesIn(ws, ZoneOrder(ws)[j])[r]
  {
    GroupSizes(ws);
    Permutation(ws);
    assert ZoneOrder(ws)[j] in ZoneOrder(ws);
    ClosedForm(ZoneOrder(ws), GroupsOf(ws), j, r);
  }

  // -------------------------------------------------- prefixes, with unique names

  /** The workers of zone z that carry one of the given names. */
  ghost function Chosen(ws: seq<Node>, names: seq<string>, z: Zone): set<Node> {
    set w | w in ws && w.name in names && ZoneOf(w) == z
  }

  ghost function ChosenZones(ws: seq<Node>, names: seq<string>): set<Zone> {
    set w | w in ws && w.name in names :: ZoneOf(w)
  }

  lemma {:induction false} ChosenAppend(ws: seq<Node>, names: seq<string>, w: Node, z: Zone)
    requires w in ws && w.name !in names
    requires forall w' :: w' in ws && w'.name == w.name ==> w' == w
    ensures |Chosen(ws, names + [w.name], z)| ==
      |Chosen(ws, names, z)| + if ZoneOf(w) == z then 1 else 0
  {
    assert Chosen(ws, names + [w.name], z) == Chosen(ws, names, z) + if ZoneOf(w) == z then {w} else {};
  }

  /** The worker dealt at index i, and its zone. */
  lemma {:induction false} DealtWorker(ws: seq<Node>, i: nat) returns (w: Node)
    requires i < |DealtSlots(ws)|
    ensures w in ws && w.name == Distributed(ws)[i] && ZoneOf(w) == DealtSlots(ws)[i].zone
  {
    var keys, g := ZoneOrder(ws), GroupsOf(ws);
    var j := ClosedFormOnto(keys, g, i);
    var s := DealtSlots(ws)[i];
    var k := NamedWorker(ws, s.zone, s.rank);
    w := ws[k];
  }

  lemma {:induction false} SameMultisetDistinct(a: seq<string>, b: seq<string>)
    requires multiset(a) == multiset(b) && Distinct(b)
    ensures Distinct(a)
  {
    forall i, j | 0 <= i < j < |a| ensures a[i] != a[j] {
      if a[i] == a[j] {
        var x := a[i];
        assert a == a[..i] + [x] + a[i + 1..j] + [x] + a[j + 1..];
        assert multiset(a)[x] >= 2;
        DistinctOnce(b, x);
      }
    }
  }

  lemma {:induction false} DistinctOnce(b: seq<string>, x: string)
    requires Distinct(b)
    ensures multiset(b)[x] <= 1
  {
    if b != [] {
      var n := |b| - 1;
      assert b == b[..n] + [b[n]];
      DistinctOnce(b[..n], x);
    }
  }

  lemma {:induction false} FreshName(ws: seq<Node>, p: nat)
    requires Distinct(NodeNames(ws)) && p < |Distributed(ws)|
    ensures Distributed(ws)[p] !in Distributed(ws)[..p]
  {
    Permutation(ws);
    var d := Distributed(ws);
    SameMultisetDistinct(d, NodeNames(ws));
  }

  /** With unique names, the p-th distributed name selects one new worker. */
  lemma {:induction false} ChosenStep(ws: seq<Node>, p: nat, z: Zone)
    requires Distinct(NodeNames(ws)) && p < |Distributed(ws)|
    ensures |Chosen(ws, Distributed(ws)[..p + 1], z)| ==
      |Chosen(ws, Distributed(ws)[..p], z)| + if DealtSlots(ws)[p].zone == z then 1 else 0
  {
    var d := Distributed(ws);
    var w := DealtWorker(ws, p);
    assert d[..p + 1] == d[..p] + [w.name];
    FreshName(ws, p);
    forall w' | w' in ws && w'.name == w.name ensures w' == w { SameName(ws, w, w'); }
    ChosenAppend(ws, d[..p], w, z);
  }

  lemma {:induction false} CountUp(ws: seq<Node>, d: seq<string>, s: seq<Slot>, p: nat, z: Zone)
    requires p <= |d| == |s|
    requires forall q :: 0 <= q < |d| ==>
      |Chosen(ws, d[..q + 1], z)| == |Chosen(ws, d[..q], z)| + if s[q].zone == z then 1 else 0
    ensures |Chosen(ws, d[..p], z)| == CountIn(s[..p], z)
  {
    if p == 0 {
      assert Chosen(ws, d[..p], z) == {};
    } else {
      CountUp(ws, d, s, p - 1, z);
      CountSnoc(s, p - 1, z);
    }
  }

  /** With unique node names, counting the dealt slots of a zone counts its chosen workers. */
  lemma {:induction false} ChosenCount(ws: seq<Node>, p: nat, z: Zone)
    requires Distinct(NodeNames(ws)) && p <= |Distributed(ws)|
    ensures |Chosen(ws, Distributed(ws)[..p], z)| == CountIn(DealtSlots(ws)[..p], z)
  {
    var d, s := Distributed(ws), DealtSlots(ws);
    forall q | 0 <= q < |d|
      ensures |Chosen(ws, d[..q + 1], z)| == |Chosen(ws, d[..q], z)| + if s[q].zone == z then 1 else 0
    {
      ChosenStep(ws, q, z);
    }
    CountUp(ws, d, s, p, z);
  }

  lemma {:induction false} SameName(ws: seq<Node>, w: Node, w': Node)
    requires Distinct(NodeNames(ws)) && w in ws && w' in ws && w.name == w'.name
    ensures w == w'
  {
    var i :| 0 <= i < |ws| && ws[i] == w;
    var j :| 0 <= j < |ws| && ws[j] == w';
    assert NodeNames(ws)[i] == NodeNames(ws)[j];
  }

  /** FAIRNESS: among the first p distributed workers (the labelled or the tainted ones) no
      zone is more than one ahead of another, unless the other has no worker left. */
  lemma {:induction false} FairSelection(ws: seq<Node>, p: nat, a: Zone, b: Zone)
    requires Distinct(NodeNames(ws)) && p <= |Distributed(ws)|
    requires a in ZoneOrder(ws) && b in ZoneOrder(ws)
    ensures var first := Distributed(ws)[..p];
      || |Chosen(ws, first, a)| <= |Chosen(ws, first, b)| + 1
      || |Chosen(ws, first, b)| == |NamesIn(ws, b)|
  {
    ChosenCount(ws, p, a);
    ChosenCount(ws, p, b);
    GroupSizes(ws);
    Fair(ZoneOrder(ws), GroupsOf(ws), p, a, b);
  }

  /** COVERAGE: the first p distributed workers cover exactly min(p, number of zones) zones. */
  lemma {:induction false} ZoneCoverage(ws: seq<Node>, p: nat)
    requires Distinct(NodeNames(ws)) && p <= |Distributed(ws)|
    ensures |ChosenZones(ws, Distributed(ws)[..p])| == Min(p, |ZoneOrder(ws)|)
  {
    GroupSizes(ws);
    Covers(ZoneOrder(ws), GroupsOf(ws), p);
    var prefix := DealtSlots(ws)[..p];
    forall z | z in ZonesOf(prefix) ensures z in ChosenZones(ws, Distributed(ws)[..p]) {
      var i :| 0 <= i < p && prefix[i].zone == z;
      var w := DealtWorker(ws, i);
      assert Distributed(ws)[..p][i] == w.name;
    }
    forall w | w in ws && w.name in Distributed(ws)[..p] ensures ZoneOf(w) in ZonesOf(prefix) {
      var i :| 0 <= i < p && Distributed(ws)[i] == w.name;
      var w' := DealtWorker(ws, i);
      SameName(ws, w, w');
      assert prefix[i].zone == ZoneOf(w);
    }
    assert ChosenZones(ws, Distributed(ws)[..p]) == ZonesOf(prefix);
  }

  /** OPTIMALITY: no choice of workers covers more zones than that. */
  lemma {:induction false} BestCoverage(ws: seq<Node>, chosen: set<Node>)
    requires forall w :: w in chosen ==> w in ws
    ensures |set w | w in chosen :: ZoneOf(w)| <= Min(|chosen|, |ZoneOrder(ws)|)
  {
    var zs := set w | w in chosen :: ZoneOf(w);
    var all := set z | z in ZoneOrder(ws);
    ZoneOrderFacts(ws);
    DistinctCardinality(ZoneOrder(ws));
    assert zs <= all;
    SubsetCardinality(zs, all);
    ImageCardinality(chosen);
  }

  lemma {:induction false} SubsetCardinality<T>(a: set<T>, b: set<T>)
    requires a <= b
    ensures |a| <= |b|
  {
    assert b == a + (b - a);
  }

  lemma {:induction false} ImageCardinality(chosen: set<Node>)
    ensures |set w | w in chosen :: ZoneOf(w)| <= |chosen|
  {
    if chosen != {} {
      var x :| x in chosen;
      var rest := chosen - {x};
      ImageCardinality(rest);
      var image := set w | w in rest :: ZoneOf(w);
      assert (set w | w in chosen :: ZoneOf(w)) == image + {ZoneOf(x)};
    }
  }
}
