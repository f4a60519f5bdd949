/** From the server inventory to host roles: capped selection of masters and workers
    (`BAREMETALAI.OCPDeployment.deploy`), the discovered host/MAC pairs and the per-pair host
    updates of the Assisted Installer, and the end-to-end assignment. */
module HostRoles {
  import opened Py

  /** `mac` is the provisioning-network MAC, None when the key is missing. */
  datatype Server = Server(role: string, mac: Option<string>)

  type Inventory = Dict<string, Server>

  datatype Role = Master | Worker

  datatype Pick = Pick(machine: string, mac: Option<string>, role: Role)

  // ------------------------------------------------------------------------- selection

  function RoleCount(ps: seq<Pick>, r: Role): nat {
    if ps == [] then 0 else
    RoleCount(ps[..|ps| - 1], r) + if ps[|ps| - 1].role == r then 1 else 0
  }

  /** The machines taken from a listing, each role up to its replica count. */
  function Picks(keys: seq<string>, at: map<string, Server>, masters: int, workers: int): seq<Pick> {
    if keys == [] then [] else
    var n := |keys| - 1;
    var ps := Picks(keys[..n], at, masters, workers);
    if keys[n] !in at then ps else
    var s := at[keys[n]];
    if s.role == "master" && RoleCount(ps, Master) < masters then ps + [Pick(keys[n], s.mac, Master)]
    else if s.role == "worker" && RoleCount(ps, Worker) < workers then ps + [Pick(keys[n], s.mac, Worker)]
    else ps
  }

  function Machines(ps: seq<Pick>, r: Role): seq<string> {
    if ps == [] then [] else
    var n := |ps| - 1;
    Machines(ps[..n], r) + if ps[n].role == r then [ps[n].machine] else []
  }

  /** MAC to picked machine; a repeated MAC keeps the last one. */
  function MacMap(ps: seq<Pick>): map<string, Pick> {
    if ps == [] then map[] else
    var n := |ps| - 1;
    if ps[n].mac.Some? then MacMap(ps[..n])[ps[n].mac.value := ps[n]] else MacMap(ps[..n])
  }

  predicate HaveMacs(ps: seq<Pick>) { forall i :: 0 <= i < |ps| ==> ps[i].mac.Some? }

  datatype Selection =
    | Selected(masters: seq<string>, workers: seq<string>, names: map<string, string>, roles: map<string, Role>)
    | NoMac
    | WrongCount

  /** The two MAC dictionaries say what the picks say. */
  ghost predicate MapsOf(names: map<string, string>, roles: map<string, Role>, ps: seq<Pick>) {
    var m := MacMap(ps);
    && names.Keys == m.Keys && roles.Keys == m.Keys
    && forall x :: x in m ==> names[x] == m[x].machine && roles[x] == m[x].role
  }

  /** The variables of the selection loop. */
  datatype Tally = Tally(
    masterCount: nat, masters: seq<string>, workerCount: nat, workers: seq<string>,
    names: map<string, string>, roles: map<string, Role>)
  {
    ghost predicate Of(ps: seq<Pick>) {
      && HaveMacs(ps)
      && |masters| == masterCount == RoleCount(ps, Master) && masters == Machines(ps, Master)
      && |workers| == workerCount == RoleCount(ps, Worker) && workers == Machines(ps, Worker)
      && MapsOf(names, roles, ps)
    }

    function AddMaster(machine: string, mac: string): Tally {
      Tally(masterCount + 1, masters + [machine], workerCount, workers, names[mac := machine], roles[mac := Master])
    }

    function AddWorker(machine: string, mac: string): Tally {
      Tally(masterCount, masters, workerCount + 1, workers + [machine], names[mac := machine], roles[mac := Worker])
    }

    lemma {:induction false} Step(ps: seq<Pick>, p: Pick)
      requires Of(ps) && p.mac.Some?
      ensures p.role == Master ==> AddMaster(p.machine, p.mac.value).Of(ps + [p])
      ensures p.role == Worker ==> AddWorker(p.machine, p.mac.value).Of(ps + [p])
    {
      PickStep(ps, p);
      MapsStep(names, roles, ps, p);
      assert HaveMacs(ps + [p]);
    }
  }

  lemma {:induction false} MapsStep(names: map<string, string>, roles: map<string, Role>, ps: seq<Pick>, p: Pick)
    requires MapsOf(names, roles, ps) && p.mac.Some?
    ensures MapsOf(names[p.mac.value := p.machine], roles[p.mac.value := p.role], ps + [p])
  {
    PickStep(ps, p);
  }

  method SelectHosts(d: Inventory, masters: int, workers: int) returns (s: Selection)
    requires d.Valid()
    ensures s.NoMac? <==> !HaveMacs(Picks(d.keys, d.at, masters, workers))
    ensures s.Selected? <==> var ps := Picks(d.keys, d.at, masters, workers);
      HaveMacs(ps) && RoleCount(ps, Master) == masters && RoleCount(ps, Worker) == workers
    ensures s.Selected? ==> var ps := Picks(d.keys, d.at, masters, workers);
      MapsOf(s.names, s.roles, ps) && s.masters == Machines(ps, Master) && s.workers == Machines(ps, Worker)
  {
    var t := Tally(0, [], 0, [], map[], map[]);
    ghost var ps: seq<Pick> := [];
    for i := 0 to |d.keys|
      invariant ps == Picks(d.keys[..i], d.at, masters, workers) && t.Of(ps)
    {
      var machine := d.keys[i];
      var server := d.at[machine];
      PicksStep(d, masters, workers, i);
      if server.role == "master" && t.masterCount < masters {
        if server.mac.None? { NoMacAhead(d, masters, workers, i, Master); return NoMac; }
        t.Step(ps, Pick(machine, server.mac, Master));
        t, ps := t.AddMaster(machine, server.mac.value), ps + [Pick(machine, server.mac, Master)];
      } else if server.role == "worker" && t.workerCount < workers {
        if server.mac.None? { NoMacAhead(d, masters, workers, i, Worker); return NoMac; }
        t.Step(ps, Pick(machine, server.mac, Worker));
        t, ps := t.AddWorker(machine, server.mac.value), ps + [Pick(machine, server.mac, Worker)];
      }
    }
    assert d.keys[..|d.keys|] == d.keys;
    if |t.masters| != masters || |t.workers| != workers { return WrongCount; }
    s := Selected(t.masters, t.workers, t.names, t.roles);
  }

  lemma {:induction false} PicksStep(d: Inventory, masters: int, workers: int, i: nat)
    requires i < |d.keys| && d.keys[i] in d.at
    ensures var ps, s := Picks(d.keys[..i], d.at, masters, workers), d.at[d.keys[i]];
      Picks(d.keys[..i + 1], d.at, masters, workers) ==
      if s.role == "master" && RoleCount(ps, Master) < masters then ps + [Pick(d.keys[i], s.mac, Master)]
      else if s.role == "worker" && RoleCount(ps, Worker) < workers then ps + [Pick(d.keys[i], s.mac, Worker)]
      else ps
  {
    assert d.keys[..i + 1][..i] == d.keys[..i];
  }

  /** One more pick, seen through every function of the picks. */
  lemma {:induction false} PickStep(ps: seq<Pick>, p: Pick)
    ensures forall r :: RoleCount(ps + [p], r) == RoleCount(ps, r) + if p.role == r then 1 else 0
    ensures forall r :: Machines(ps + [p], r) == Machines(ps, r) + if p.role == r then [p.machine] else []
    ensures p.mac.Some? ==> MacMap(ps + [p]) == MacMap(ps)[p.mac.value := p]
  {
    assert (ps + [p])[..|ps|] == ps;
  }

  /** All machines of a role, in inventory order. */
  function OfRole(keys: seq<string>, at: map<string, Server>, role: string): seq<string> {
    if keys == [] then [] else
    var n := |keys| - 1;
    OfRole(keys[..n], at, role) + if keys[n] in at && at[keys[n]].role == role then [keys[n]] else []
  }

  /** They are the machines whose role is that one, in inventory order. */
  lemma {:induction false} OfRoleMeaning(d: Inventory, role: string) returns (idx: seq<nat>)
    requires d.Valid()
    ensures Filtered(d.keys, OfRole(d.keys, d.at, role), idx, (m: string) => m in d.at && d.at[m].role == role)
  {
    idx := OfRoleIndices(d.keys, d.at, role);
  }

  lemma {:induction false} OfRoleIndices(keys: seq<string>, at: map<string, Server>, role: string)
    returns (idx: seq<nat>)
    ensures Filtered(keys, OfRole(keys, at, role), idx, (m: string) => m in at && at[m].role == role)
  {
    if keys == [] {
      idx := [];
    } else {
      var n := |keys| - 1;
      var wanted := (m: string) => m in at && at[m].role == role;
      idx := OfRoleIndices(keys[..n], at, role);
      FilteredSnoc(keys[..n], OfRole(keys[..n], at, role), idx, wanted, keys[n]);
      assert keys == keys[..n] + [keys[n]];
      if wanted(keys[n]) { idx := idx + [n]; } else { assert OfRole(keys, at, role) == OfRole(keys[..n], at, role); }
    }
  }

  lemma {:induction false} MachineCount(ps: seq<Pick>, r: Role)
    ensures |Machines(ps, r)| == RoleCount(ps, r)
  {
    if ps != [] { MachineCount(ps[..|ps| - 1], r); }
  }

  function First(s: seq<string>, n: int): seq<string> { s[..Max(0, Min(n, |s|))] }

  /** CAPPED SELECTION: for each role the first so many machines of the inventory are taken. */
  lemma {:induction false} PicksAreFirst(keys: seq<string>, at: map<string, Server>, masters: int, workers: int)
    ensures Machines(Picks(keys, at, masters, workers), Master) == First(OfRole(keys, at, "master"), masters)
    ensures Machines(Picks(keys, at, masters, workers), Worker) == First(OfRole(keys, at, "worker"), workers)
  {
    if keys != [] {
      var n := |keys| - 1;
      PicksAreFirst(keys[..n], at, masters, workers);
      var ps := Picks(keys[..n], at, masters, workers);
      MachineCount(ps, Master);
      MachineCount(ps, Worker);
      FirstSnoc(OfRole(keys[..n], at, "master"), keys[n], masters);
      FirstSnoc(OfRole(keys[..n], at, "worker"), keys[n], workers);
      if keys[n] in at {
        PickStep(ps, Pick(keys[n], at[keys[n]].mac, Master));
        PickStep(ps, Pick(keys[n], at[keys[n]].mac, Worker));
      }
    }
  }

  lemma {:induction false} FirstSnoc(s: seq<string>, x: string, n: int)
    ensures First(s + [x], n) == if |First(s, n)| < n then First(s, n) + [x] else First(s, n)
    ensures First(s + [], n) == First(s, n)
  {
  }

  /** The replica assertions pass exactly when the inventory has enough machines of the role. */
  lemma {:induction false} EnoughMachines(keys: seq<string>, at: map<string, Server>, masters: int, workers: int)
    ensures RoleCount(Picks(keys, at, masters, workers), Master) == masters <==>
      0 <= masters <= |OfRole(keys, at, "master")|
    ensures RoleCount(Picks(keys, at, masters, workers), Worker) == workers <==>
      0 <= workers <= |OfRole(keys, at, "worker")|
  {
    PicksAreFirst(keys, at, masters, workers);
    MachineCount(Picks(keys, at, masters, workers), Master);
    MachineCount(Picks(keys, at, masters, workers), Worker);
  }

  lemma {:induction false} PicksPrefix(keys: seq<string>, at: map<string, Server>, masters: int, workers: int, i: nat)
    requires i <= |keys|
    ensures Picks(keys[..i], at, masters, workers) <= Picks(keys, at, masters, workers)
  {
    var n := |keys| - 1;
    if i == |keys| {
      assert keys[..i] == keys;
    } else {
      PicksPrefix(keys[..n], at, masters, workers, i);
      assert keys[..n][..i] == keys[..i];
    }
  }

  lemma {:induction false} NoMacAhead(d: Inventory, masters: int, workers: int, i: nat, r: Role)
    requires i < |d.keys|
    requires Picks(d.keys[..i + 1], d.at, masters, workers) ==
      Picks(d.keys[..i], d.at, masters, workers) + [Pick(d.keys[i], None, r)]
    ensures !HaveMacs(Picks(d.keys, d.at, masters, workers))
  {
    var before, all := Picks(d.keys[..i], d.at, masters, workers), Picks(d.keys, d.at, masters, workers);
    PicksPrefix(d.keys, d.at, masters, workers, i + 1);
    assert all[|before|] == Pick(d.keys[i], None, r);
  }

  // ------------------------------------------------------------------ discovered hosts

  datatype Interface = Interface(mac: string, ipv4: seq<string>)

  datatype Host = Host(id: string, interfaces: seq<Interface>)

  datatype Pair = Pair(id: string, mac: string)

  function HostPairs(id: string, interfaces: seq<Interface>): seq<Pair> {
    if interfaces == [] then [] else
    var n := |interfaces| - 1;
    HostPairs(id, interfaces[..n]) + if interfaces[n].ipv4 != [] then [Pair(id, interfaces[n].mac)] else []
  }

  function Pairs(hosts: seq<Host>): seq<Pair> {
    if hosts == [] then [] else
    var n := |hosts| - 1;
    Pairs(hosts[..n]) + HostPairs(hosts[n].id, hosts[n].interfaces)
  }

  /** `get_host_id_mac_mapping` */
  method HostMacPairs(hosts: seq<Host>) returns (pairs: seq<Pair>)
    ensures pairs == Pairs(hosts)
  {
    pairs := [];
    for i := 0 to |hosts|
      invariant pairs == Pairs(hosts[..i])
    {
      var h := hosts[i];
      ghost var before := pairs;
      assert hosts[..i + 1][..i] == hosts[..i];
      for j := 0 to |h.interfaces|
        invariant pairs == before + HostPairs(h.id, h.interfaces[..j])
      {
        assert h.interfaces[..j + 1][..j] == h.interfaces[..j];
        var f := h.interfaces[j];
        if f.ipv4 != [] {
          Associate(before, HostPairs(h.id, h.interfaces[..j]), [Pair(h.id, f.mac)]);
          pairs := pairs + [Pair(h.id, f.mac)];
        }
      }
      assert h.interfaces[..|h.interfaces|] == h.interfaces;
    }
    assert hosts[..|hosts|] == hosts;
  }

  /** The MAC belongs to an interface of the host that has an IPv4 address. */
  predicate Reaches(h: Host, mac: string) {
    exists j :: 0 <= j < |h.interfaces| && h.interfaces[j].ipv4 != [] && h.interfaces[j].mac == mac
  }

  lemma {:induction false} HostPairsMeaning(id: string, interfaces: seq<Interface>, q: Pair)
    ensures q in HostPairs(id, interfaces) <==> q.id == id && Reaches(Host(id, interfaces), q.mac)
  {
    if interfaces != [] {
      var n := |interfaces| - 1;
      var h, h' := Host(id, interfaces), Host(id, interfaces[..n]);
      HostPairsMeaning(id, interfaces[..n], q);
      assert Reaches(h, q.mac) <==> Reaches(h', q.mac) || (interfaces[n].ipv4 != [] && interfaces[n].mac == q.mac) by {
        if Reaches(h', q.mac) {
          var j :| 0 <= j < n && h'.interfaces[j].ipv4 != [] && h'.interfaces[j].mac == q.mac;
          assert h.interfaces[j] == h'.interfaces[j];
        }
        assert forall j :: 0 <= j < n ==> h.interfaces[j] == h'.interfaces[j];
      }
    }
  }

  /** The pairs are exactly the addresses at which the hosts can be reached. */
  lemma {:induction false} PairsMeaning(hosts: seq<Host>, q: Pair)
    ensures q in Pairs(hosts) <==> exists i :: 0 <= i < |hosts| && hosts[i].id == q.id && Reaches(hosts[i], q.mac)
  {
    if hosts != [] {
      var n := |hosts| - 1;
      PairsMeaning(hosts[..n], q);
      HostPairsMeaning(hosts[n].id, hosts[n].interfaces, q);
      assert forall i :: 0 <= i < n ==> hosts[..n][i] == hosts[i];
      assert hosts[n] == Host(hosts[n].id, hosts[n].interfaces);
    }
  }

  // ---------------------------------------------------------------------- host updates

  datatype Settings = Settings(name: string, role: Role)

  /** The settings left by one update per pair with a known MAC; the last update wins. */
  function Applied(pairs: seq<Pair>, names: map<string, string>, roles: map<string, Role>): map<string, Settings> {
    if pairs == [] then map[] else
    var n := |pairs| - 1;
    var before := Applied(pairs[..n], names, roles);
    var q := pairs[n];
    if q.mac in names && q.mac in roles then before[q.id := Settings(names[q.mac], roles[q.mac])] else before
  }

  class InfraEnv {
    /** What the service was told about each host. */
    var updates: map<string, Settings>

    constructor ()
      ensures updates == map[]
    {
      updates := map[];
    }

    /** `update_hosts_config`; an unknown MAC is skipped. */
    method UpdateHostsConfig(hosts: seq<Host>, names: map<string, string>, roles: map<string, Role>)
      modifies this
      ensures updates == old(updates) + Applied(Pairs(hosts), names, roles)
    {
      var pairs := HostMacPairs(hosts);
      for i := 0 to |pairs|
        invariant updates == old(updates) + Applied(pairs[..i], names, roles)
      {
        AppliedStep(pairs, i, names, roles);
        var q := pairs[i];
        if q.mac in names && q.mac in roles {
          UnionPut(old(updates), Applied(pairs[..i], names, roles), q.id, Settings(names[q.mac], roles[q.mac]));
          updates := updates[q.id := Settings(names[q.mac], roles[q.mac])];
        }
      }
      assert pairs[..|pairs|] == pairs;
    }
  }

  lemma {:induction false} AppliedStep(pairs: seq<Pair>, i: nat, names: map<string, string>, roles: map<string, Role>)
    requires i < |pairs|
    ensures var before, q := Applied(pairs[..i], names, roles), pairs[i];
      Applied(pairs[..i + 1], names, roles) ==
        if q.mac in names && q.mac in roles then before[q.id := Settings(names[q.mac], roles[q.mac])] else before
  {
    assert pairs[..i + 1][..i] == pairs[..i];
  }

  lemma {:induction false} UnionPut(a: map<string, Settings>, b: map<string, Settings>, k: string, v: Settings)
    ensures (a + b)[k := v] == a + b[k := v]
  {
  }

  /** A host gets settings exactly if one of its MACs is known; if all its known MACs are the
      same one, it gets the settings of that MAC. */
  lemma {:induction false} AppliedAt(
    pairs: seq<Pair>, names: map<string, string>, roles: map<string, Role>, id: string, mac: string)
    requires names.Keys == roles.Keys && mac in names
    requires forall q :: q in pairs && q.id == id && q.mac in names ==> q.mac == mac
    ensures id in Applied(pairs, names, roles) <==> Pair(id, mac) in pairs
    ensures id in Applied(pairs, names, roles) ==> Applied(pairs, names, roles)[id] == Settings(names[mac], roles[mac])
  {
    if pairs != [] {
      var n := |pairs| - 1;
      assert forall q :: q in pairs[..n] ==> q in pairs;
      AppliedAt(pairs[..n], names, roles, id, mac);
      assert pairs[n] in pairs;
      assert Pair(id, mac) in pairs <==> Pair(id, mac) in pairs[..n] || Pair(id, mac) == pairs[n];
    }
  }

  lemma {:induction false} AppliedKnown(
    pairs: seq<Pair>, names: map<string, string>, roles: map<string, Role>, id: string)
    requires id in Applied(pairs, names, roles)
    ensures exists q :: q in pairs && q.id == id && q.mac in names
  {
    var n := |pairs| - 1;
    var q := pairs[n];
    if !(q.id == id && q.mac in names) {
      AppliedKnown(pairs[..n], names, roles, id);
      var x :| x in pairs[..n] && x.id == id && x.mac in names;
      assert x in pairs;
    }
  }
}
