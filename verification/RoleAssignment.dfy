/** End-to-end role assignment: what the discovered hosts are told, in terms of the inventory. */
module RoleAssignment {
  import opened Py
  import opened HostRoles

  function Macs(ps: seq<Pick>): (ms: seq<Option<string>>)
    ensures |ms| == |ps| && forall i :: 0 <= i < |ps| ==> ms[i] == ps[i].mac
  {
    seq(|ps|, i requires 0 <= i < |ps| => ps[i].mac)
  }

  function Names(ps: seq<Pick>): (ns: seq<string>)
    ensures |ns| == |ps| && forall i :: 0 <= i < |ps| ==> ns[i] == ps[i].machine
  {
    seq(|ps|, i requires 0 <= i < |ps| => ps[i].machine)
  }

  function Ids(hosts: seq<Host>): (ids: seq<string>)
    ensures |ids| == |hosts| && forall i :: 0 <= i < |hosts| ==> ids[i] == hosts[i].id
  {
    seq(|hosts|, i requires 0 <= i < |hosts| => hosts[i].id)
  }

  /** A selected machine and a discovered host are the same computer: the host shows the
      machine's provisioning MAC on an interface with an IPv4 address. */
  predicate Same(p: Pick, h: Host) { p.mac.Some? && Reaches(h, p.mac.value) }

  ghost predicate Serves(ps: seq<Pick>, hosts: seq<Host>, i: int, h: int) {
    0 <= i < |ps| && 0 <= h < |hosts| && Same(ps[i], hosts[h])
  }

  ghost predicate HasHost(ps: seq<Pick>, hosts: seq<Host>, i: int) { exists h :: Serves(ps, hosts, i, h) }

  ghost predicate HasMachine(ps: seq<Pick>, hosts: seq<Host>, h: int) { exists i :: Serves(ps, hosts, i, h) }

  /** Selected machines and discovered hosts correspond one to one. */
  ghost predicate OneToOne(ps: seq<Pick>, hosts: seq<Host>) {
    && (forall i :: 0 <= i < |ps| ==> HasHost(ps, hosts, i))
    && (forall h :: 0 <= h < |hosts| ==> HasMachine(ps, hosts, h))
    && (forall i, h, k :: Serves(ps, hosts, i, h) && Serves(ps, hosts, i, k) ==> h == k)
    && (forall i, j, h :: Serves(ps, hosts, i, h) && Serves(ps, hosts, j, h) ==> i == j)
  }

  ghost predicate Setup(ps: seq<Pick>, hosts: seq<Host>, names: map<string, string>, roles: map<string, Role>) {
    HaveMacs(ps) && Distinct(Macs(ps)) && Distinct(Ids(hosts)) && OneToOne(ps, hosts) && MapsOf(names, roles, ps)
  }

  // ------------------------------------------------------------------------ selection facts

  /** Dictionary keys are unique, so no machine is selected twice. */
  lemma {:induction false} PicksFromKeys(keys: seq<string>, at: map<string, Server>, masters: int, workers: int)
    requires Distinct(keys)
    ensures var ps := Picks(keys, at, masters, workers);
      Distinct(Names(ps)) && forall i :: 0 <= i < |ps| ==> ps[i].machine in keys
  {
    if keys != [] {
      var n := |keys| - 1;
      PicksFromKeys(keys[..n], at, masters, workers);
      var init, ps := Picks(keys[..n], at, masters, workers), Picks(keys, at, masters, workers);
      if ps != init {
        assert Names(ps) == Names(init) + [keys[n]];
        DistinctSnoc(Names(init), keys[n]);
      }
    }
  }

  /** With distinct MACs the dictionary holds every pick under its own MAC. */
  lemma {:induction false} MacMapAt(ps: seq<Pick>, i: nat)
    requires i < |ps| && HaveMacs(ps) && Distinct(Macs(ps))
    ensures ps[i].mac.value in MacMap(ps) && MacMap(ps)[ps[i].mac.value] == ps[i]
  {
    var n := |ps| - 1;
    if i < n {
      assert Macs(ps[..n]) == Macs(ps)[..n];
      MacMapAt(ps[..n], i);
      assert Macs(ps)[i] != Macs(ps)[n];
    }
  }

  lemma {:induction false} MacMapKeys(ps: seq<Pick>, mac: string)
    requires mac in MacMap(ps)
    ensures exists i :: 0 <= i < |ps| && ps[i].mac == Some(mac)
  {
    var n := |ps| - 1;
    if ps[n].mac != Some(mac) {
      MacMapKeys(ps[..n], mac);
      var i :| 0 <= i < n && ps[..n][i].mac == Some(mac);
      assert ps[i].mac == Some(mac);
    }
  }

  // --------------------------------------------------------------------------- assignment

  /** Each discovered host is told the name and role of its machine. */
  lemma {:induction false} HostGetsItsMachine(
    ps: seq<Pick>, hosts: seq<Host>, names: map<string, string>, roles: map<string, Role>, i: nat, h: nat)
    requires Setup(ps, hosts, names, roles)
    requires Serves(ps, hosts, i, h)
    ensures var told := Applied(Pairs(hosts), names, roles);
      hosts[h].id in told && told[hosts[h].id] == Settings(ps[i].machine, ps[i].role)
  {
    var id, mac := hosts[h].id, ps[i].mac.value;
    MacMapAt(ps, i);
    forall q | q in Pairs(hosts) && q.id == id && q.mac in names ensures q.mac == mac {
      KnownMacIsThisOne(ps, hosts, names, roles, i, h, q);
    }
    PairsMeaning(hosts, Pair(id, mac));
    AppliedAt(Pairs(hosts), names, roles, id, mac);
  }

  lemma {:induction false} KnownMacIsThisOne(
    ps: seq<Pick>, hosts: seq<Host>, names: map<string, string>, roles: map<string, Role>, i: nat, h: nat, q: Pair)
    requires Setup(ps, hosts, names, roles)
    requires Serves(ps, hosts, i, h)
    requires q in Pairs(hosts) && q.id == hosts[h].id && q.mac in names
    ensures q.mac == ps[i].mac.value
  {
    PairsMeaning(hosts, q);
    var h' :| 0 <= h' < |hosts| && hosts[h'].id == q.id && Reaches(hosts[h'], q.mac);
    assert Ids(hosts)[h'] == Ids(hosts)[h];
    MacMapKeys(ps, q.mac);
    var i' :| 0 <= i' < |ps| && ps[i'].mac == Some(q.mac);
    assert Serves(ps, hosts, i', h);
  }

  /** No other host is told anything. */
  lemma {:induction false} ToldHosts(
    ps: seq<Pick>, hosts: seq<Host>, names: map<string, string>, roles: map<string, Role>)
    requires Setup(ps, hosts, names, roles)
    ensures Applied(Pairs(hosts), names, roles).Keys == set h | 0 <= h < |hosts| :: hosts[h].id
  {
    var told := Applied(Pairs(hosts), names, roles);
    forall id | id in told ensures exists h :: 0 <= h < |hosts| && hosts[h].id == id {
      AppliedKnown(Pairs(hosts), names, roles, id);
      var q :| q in Pairs(hosts) && q.id == id && q.mac in names;
      PairsMeaning(hosts, q);
    }
    forall h | 0 <= h < |hosts| ensures hosts[h].id in told {
      assert HasMachine(ps, hosts, h);
      var i: nat :| Serves(ps, hosts, i, h);
      HostGetsItsMachine(ps, hosts, names, roles, i, h);
    }
  }

  /** The host identifier of each selected machine. */
  ghost function IdOf(ps: seq<Pick>, hosts: seq<Host>, i: nat): string
    requires OneToOne(ps, hosts) && i < |ps|
  {
    assert HasHost(ps, hosts, i);
    var h: nat :| Serves(ps, hosts, i, h);
    hosts[h].id
  }

  ghost function IdsOf(ps: seq<Pick>, hosts: seq<Host>): (ids: seq<string>)
    requires OneToOne(ps, hosts)
    ensures |ids| == |ps| && forall i :: 0 <= i < |ps| ==> ids[i] == IdOf(ps, hosts, i)
  {
    seq(|ps|, i requires 0 <= i < |ps| => IdOf(ps, hosts, i))
  }

  lemma {:induction false} IdOfHost(ps: seq<Pick>, hosts: seq<Host>, i: nat, h: nat)
    requires OneToOne(ps, hosts) && Serves(ps, hosts, i, h)
    ensures IdOf(ps, hosts, i) == hosts[h].id
  {
  }

  lemma {:induction false} IdsDistinct(ps: seq<Pick>, hosts: seq<Host>)
    requires OneToOne(ps, hosts) && Distinct(Ids(hosts))
    ensures Distinct(IdsOf(ps, hosts))
  {
    forall i, j | 0 <= i < j < |ps| ensures IdOf(ps, hosts, i) != IdOf(ps, hosts, j) {
      assert HasHost(ps, hosts, i);
      var h: nat :| Serves(ps, hosts, i, h);
      assert HasHost(ps, hosts, j);
      var k: nat :| Serves(ps, hosts, j, k);
      IdOfHost(ps, hosts, i, h);
      IdOfHost(ps, hosts, j, k);
      assert h != k;
      DifferentIds(hosts, h, k);
    }
  }

  lemma {:induction false} DifferentIds(hosts: seq<Host>, h: nat, k: nat)
    requires Distinct(Ids(hosts)) && h < |hosts| && k < |hosts| && h != k
    ensures hosts[h].id != hosts[k].id
  {
    assert Ids(hosts)[h] != Ids(hosts)[k];
  }

  /** The identifiers of the machines of one role. */
  ghost function RoleIds(ps: seq<Pick>, ids: seq<string>, r: Role): set<string>
    requires |ids| == |ps|
  {
    if ps == [] then {} else
    var n := |ps| - 1;
    RoleIds(ps[..n], ids[..n], r) + if ps[n].role == r then {ids[n]} else {}
  }

  lemma {:induction false} RoleIdsMeaning(ps: seq<Pick>, ids: seq<string>, r: Role, id: string)
    requires |ids| == |ps|
    ensures id in RoleIds(ps, ids, r) <==> exists i :: 0 <= i < |ps| && ps[i].role == r && ids[i] == id
  {
    if ps != [] {
      var n := |ps| - 1;
      RoleIdsMeaning(ps[..n], ids[..n], r, id);
      assert forall i :: 0 <= i < n ==> ps[..n][i] == ps[i] && ids[..n][i] == ids[i];
    }
  }

  lemma {:induction false} CountRole(ps: seq<Pick>, ids: seq<string>, r: Role)
    requires |ids| == |ps| && Distinct(ids)
    ensures |RoleIds(ps, ids, r)| == RoleCount(ps, r)
  {
    if ps != [] {
      var n := |ps| - 1;
      CountRole(ps[..n], ids[..n], r);
      RoleIdsMeaning(ps[..n], ids[..n], r, ids[n]);
    }
  }

  ghost function WithRole(told: map<string, Settings>, r: Role): set<string> {
    set id | id in told && told[id].role == r
  }

  /** In terms of identifiers: machine i's host is told machine i's name and role. */
  lemma {:induction false} ToldMachine(
    ps: seq<Pick>, hosts: seq<Host>, names: map<string, string>, roles: map<string, Role>, i: nat)
    requires Setup(ps, hosts, names, roles) && i < |ps|
    ensures var told, id := Applied(Pairs(hosts), names, roles), IdOf(ps, hosts, i);
      id in told && told[id] == Settings(ps[i].machine, ps[i].role)
  {
    assert HasHost(ps, hosts, i);
    var h: nat :| Serves(ps, hosts, i, h);
    IdOfHost(ps, hosts, i, h);
    HostGetsItsMachine(ps, hosts, names, roles, i, h);
  }

  lemma {:induction false} HostHasMachine(
    ps: seq<Pick>, hosts: seq<Host>, names: map<string, string>, roles: map<string, Role>, id: string)
    returns (i: nat)
    requires Setup(ps, hosts, names, roles) && id in Applied(Pairs(hosts), names, roles)
    ensures i < |ps| && IdOf(ps, hosts, i) == id
  {
    ToldHosts(ps, hosts, names, roles);
    var h :| 0 <= h < |hosts| && hosts[h].id == id;
    assert HasMachine(ps, hosts, h);
    i :| Serves(ps, hosts, i, h);
    IdOfHost(ps, hosts, i, h);
  }

  /** ROLE COUNTS: as many hosts are told a role as machines were selected for it. */
  lemma {:induction false} RolesCounted(
    ps: seq<Pick>, hosts: seq<Host>, names: map<string, string>, roles: map<string, Role>, r: Role)
    requires Setup(ps, hosts, names, roles)
    ensures |WithRole(Applied(Pairs(hosts), names, roles), r)| == RoleCount(ps, r)
  {
    var told, ids := Applied(Pairs(hosts), names, roles), IdsOf(ps, hosts);
    IdsDistinct(ps, hosts);
    CountRole(ps, ids, r);
    forall id ensures id in RoleIds(ps, ids, r) <==> id in WithRole(told, r) {
      RoleIdsMeaning(ps, ids, r, id);
      if id in RoleIds(ps, ids, r) {
        var i :| 0 <= i < |ps| && ps[i].role == r && ids[i] == id;
        ToldMachine(ps, hosts, names, roles, i);
      }
      if id in WithRole(told, r) {
        var i := HostHasMachine(ps, hosts, names, roles, id);
        ToldMachine(ps, hosts, names, roles, i);
        assert ids[i] == id;
      }
    }
    assert RoleIds(ps, ids, r) == WithRole(told, r);
  }

  /** NAMES: different hosts are told different names, and the names told are exactly the
      selected machines. */
  lemma {:induction false} NamesInjective(
    ps: seq<Pick>, hosts: seq<Host>, names: map<string, string>, roles: map<string, Role>, a: string, b: string)
    requires Setup(ps, hosts, names, roles) && Distinct(Names(ps)) && a != b
    requires a in Applied(Pairs(hosts), names, roles) && b in Applied(Pairs(hosts), names, roles)
    ensures Applied(Pairs(hosts), names, roles)[a].name != Applied(Pairs(hosts), names, roles)[b].name
  {
    var i := HostHasMachine(ps, hosts, names, roles, a);
    var j := HostHasMachine(ps, hosts, names, roles, b);
    ToldMachine(ps, hosts, names, roles, i);
    ToldMachine(ps, hosts, names, roles, j);
    assert i != j;
    assert Names(ps)[i] != Names(ps)[j];
  }

  ghost function ToldNames(told: map<string, Settings>): set<string> { set id | id in told :: told[id].name }

  lemma {:induction false} NamesOnto(
    ps: seq<Pick>, hosts: seq<Host>, names: map<string, string>, roles: map<string, Role>)
    requires Setup(ps, hosts, names, roles)
    ensures ToldNames(Applied(Pairs(hosts), names, roles)) == set m | m in Names(ps)
  {
    var told := Applied(Pairs(hosts), names, roles);
    forall m | m in Names(ps) ensures m in ToldNames(told) {
      var i :| 0 <= i < |ps| && Names(ps)[i] == m;
      ToldMachine(ps, hosts, names, roles, i);
      assert IdOf(ps, hosts, i) in told;
    }
    forall id | id in told ensures told[id].name in Names(ps) {
      var i := HostHasMachine(ps, hosts, names, roles, id);
      ToldMachine(ps, hosts, names, roles, i);
      assert Names(ps)[i] == told[id].name;
    }
  }

  /** The outcome promised for a clean setup. */
  ghost predicate Assigned(told: map<string, Settings>, ps: seq<Pick>, hosts: seq<Host>) {
    && told.Keys == (set h | 0 <= h < |hosts| :: hosts[h].id)
    && (forall i, h :: Serves(ps, hosts, i, h) ==>
          hosts[h].id in told && told[hosts[h].id] == Settings(ps[i].machine, ps[i].role))
    && (forall a, b :: a in told && b in told && a != b ==> told[a].name != told[b].name)
    && ToldNames(told) == (set m | m in Names(ps))
    && |WithRole(told, Master)| == RoleCount(ps, Master)
    && |WithRole(told, Worker)| == RoleCount(ps, Worker)
  }

  lemma {:induction false} AllAssigned(
    ps: seq<Pick>, hosts: seq<Host>, names: map<string, string>, roles: map<string, Role>)
    requires Setup(ps, hosts, names, roles) && Distinct(Names(ps))
    ensures Assigned(Applied(Pairs(hosts), names, roles), ps, hosts)
  {
    var told := Applied(Pairs(hosts), names, roles);
    RolesCounted(ps, hosts, names, roles, Master);
    RolesCounted(ps, hosts, names, roles, Worker);
    NamesOnto(ps, hosts, names, roles);
    ToldHosts(ps, hosts, names, roles);
    forall a, b | a in told && b in told && a != b ensures told[a].name != told[b].name {
      NamesInjective(ps, hosts, names, roles, a, b);
    }
    forall i, h | Serves(ps, hosts, i, h)
      ensures hosts[h].id in told && told[hosts[h].id] == Settings(ps[i].machine, ps[i].role)
    {
      HostGetsItsMachine(ps, hosts, names, roles, i, h);
    }
  }

  /** Selection, discovery and update together: the selection succeeds exactly when the inventory has
      enough machines and the picked ones have MACs; if then MACs and host identifiers are unique and
      machines and hosts correspond one to one, every host is told the name and role of its own
      machine, `masters` hosts are masters and `workers` are workers. */
  method AssignRoles(d: Inventory, masters: int, workers: int, hosts: seq<Host>, env: InfraEnv) returns (s: Selection)
    requires d.Valid() && env.updates == map[]
    modifies env
    ensures !s.Selected? ==> env.updates == map[]
    ensures s.Selected? <==>
      && HaveMacs(Picks(d.keys, d.at, masters, workers))
      && 0 <= masters <= |OfRole(d.keys, d.at, "master")|
      && 0 <= workers <= |OfRole(d.keys, d.at, "worker")|
    ensures s.Selected? ==> env.updates == Applied(Pairs(hosts), s.names, s.roles)
    ensures var ps := Picks(d.keys, d.at, masters, workers);
      s.Selected? && Distinct(Macs(ps)) && Distinct(Ids(hosts)) && OneToOne(ps, hosts) ==>
        && Assigned(env.updates, ps, hosts)
        && |WithRole(env.updates, Master)| == masters
        && |WithRole(env.updates, Worker)| == workers
  {
    s := SelectHosts(d, masters, workers);
    EnoughMachines(d.keys, d.at, masters, workers);
    if !s.Selected? { return; }
    env.UpdateHostsConfig(hosts, s.names, s.roles);
    ghost var ps := Picks(d.keys, d.at, masters, workers);
    assert env.updates == Applied(Pairs(hosts), s.names, s.roles);
    if Distinct(Macs(ps)) && Distinct(Ids(hosts)) && OneToOne(ps, hosts) {
      PicksFromKeys(d.keys, d.at, masters, workers);
      AllAssigned(ps, hosts, s.names, s.roles);
    }
  }
}
