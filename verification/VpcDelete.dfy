/** `_delete_vpc`: six passes over a resource map, cut short by the first failing command. */
module VpcDelete {
  import opened Py
  import Cloud

  datatype Command =
    | ShowSubnet(name: string)
    | DeleteLoadBalancer(name: string)
    | DeleteSubnet(name: string)
    | DeleteGateway(name: string)
    | DeleteFloatingIp(name: string)
    | DeleteGroup(name: string)
    | DeleteAcl(name: string)
    | DeleteVpc(name: string)

  datatype Event = Event(cmd: Command, answer: Cloud.Answer)

  /** The five passes that issue one command per resource of one type. */
  datatype Pass = Gateways | FloatingIps | Groups | Acls | Vpcs

  function TypeOf(p: Pass): string {
    match p
    case Gateways => "is.public-gateway"
    case FloatingIps => "is.floating-ip"
    case Groups => "is.security-group"
    case Acls => "is.network-acl"
    case Vpcs => "is.vpc"
  }

  function CommandOf(p: Pass, name: string): Command {
    match p
    case Gateways => DeleteGateway(name)
    case FloatingIps => DeleteFloatingIp(name)
    case Groups => DeleteGroup(name)
    case Acls => DeleteAcl(name)
    case Vpcs => DeleteVpc(name)
  }

  /** The guard of the group and ACL passes tests the cluster name against the resource type. */
  predicate Open(p: Pass, cluster: string) {
    p == Groups || p == Acls ==> Contains(TypeOf(p), cluster)
  }

  /** The pass issues its command for a resource of this type. */
  predicate Takes(p: Pass, kind: string, cluster: string) { kind == TypeOf(p) && Open(p, cluster) }

  // --------------------------------------------------------------- the intended commands

  type Resources = Dict<string, string>

  function LbDeletes(lbs: seq<string>): (cs: seq<Command>)
    ensures |cs| == |lbs| && forall i :: 0 <= i < |lbs| ==> cs[i] == DeleteLoadBalancer(lbs[i])
  {
    seq(|lbs|, i requires 0 <= i < |lbs| => DeleteLoadBalancer(lbs[i]))
  }

  /** The commands for one subnet, given the load balancers reported attached to it. */
  function SubnetCommands(name: string, lbs: seq<string>): seq<Command> {
    [ShowSubnet(name)] + LbDeletes(lbs) + [DeleteSubnet(name)]
  }

  function SubnetPlan(names: seq<string>, types: map<string, string>, attached: string -> seq<string>): seq<Command> {
    if names == [] then [] else
    var n := |names| - 1;
    SubnetPlan(names[..n], types, attached) +
    if names[n] in types && types[names[n]] == "is.subnet" then SubnetCommands(names[n], attached(names[n])) else []
  }

  function PassPlan(p: Pass, names: seq<string>, types: map<string, string>, cluster: string): seq<Command> {
    if names == [] then [] else
    var n := |names| - 1;
    PassPlan(p, names[..n], types, cluster) +
    if names[n] in types && Takes(p, types[names[n]], cluster) then [CommandOf(p, names[n])] else []
  }

  /** Everything before the VPC pass. */
  function Preparation(d: Resources, attached: string -> seq<string>, cluster: string): seq<Command> {
    SubnetPlan(d.keys, d.at, attached)
    + PassPlan(Gateways, d.keys, d.at, cluster)
    + PassPlan(FloatingIps, d.keys, d.at, cluster)
    + PassPlan(Groups, d.keys, d.at, cluster)
    + PassPlan(Acls, d.keys, d.at, cluster)
  }

  function Plan(d: Resources, attached: string -> seq<string>, cluster: string): seq<Command> {
    Preparation(d, attached, cluster) + PassPlan(Vpcs, d.keys, d.at, cluster)
  }

  function Commands(t: seq<Event>): (cs: seq<Command>)
    ensures |cs| == |t| && forall i :: 0 <= i < |t| ==> cs[i] == t[i].cmd
  {
    seq(|t|, i requires 0 <= i < |t| => t[i].cmd)
  }

  ghost predicate AllOk(t: seq<Event>) { forall i :: 0 <= i < |t| ==> t[i].answer == Cloud.Ok }

  /** A trace that carries out a plan, or carries out its beginning up to and including the first
      command that is not accepted. */
  ghost predicate Run(t: seq<Event>, plan: seq<Command>) {
    if AllOk(t) then Commands(t) == plan else Commands(t) <= plan && AllOk(t[..|t| - 1])
  }

  lemma {:induction false} RunStep(t: seq<Event>, plan: seq<Command>, e: Event)
    requires Run(t, plan) && AllOk(t)
    ensures Run(t + [e], plan + [e.cmd])
    ensures AllOk(t + [e]) <==> e.answer == Cloud.Ok
  {
    var u := t + [e];
    assert Commands(u) == plan + [e.cmd];
    assert u[..|u| - 1] == t;
    assert u[|t|] == e;
  }

  lemma {:induction false} RunLonger(t: seq<Event>, p: seq<Command>, p': seq<Command>)
    requires Run(t, p) && !AllOk(t) && p <= p'
    ensures Run(t, p')
  {
  }

  // ------------------------------------------------------------------------ the passes

  /** The command line, with the plan it has been given so far. */
  class Shell {
    const answers: nat -> Cloud.Answer
    const attached: string -> seq<string>
    var trace: seq<Event>
    ghost var plan: seq<Command>

    constructor (answers: nat -> Cloud.Answer, attached: string -> seq<string>)
      ensures this.answers == answers && this.attached == attached && trace == [] && plan == []
    {
      this.answers, this.attached, trace, plan := answers, attached, [], [];
    }

    /** Every recorded answer is the one the stream gave at that point. */
    ghost predicate Answered() reads this { forall i :: 0 <= i < |trace| ==> trace[i].answer == answers(i) }

    /** No command has failed and the plan is carried out. */
    ghost predicate Live() reads this { Answered() && AllOk(trace) && Run(trace, plan) }

    /** The plan is carried out, or cut short by a failure, in which case `ok` is false. */
    ghost predicate Status(ok: bool) reads this { Answered() && Run(trace, plan) && (ok <==> AllOk(trace)) }

    method Exec(c: Command) returns (ok: bool)
      requires Live()
      modifies this
      ensures trace == old(trace) + [Event(c, answers(old(|trace|)))]
      ensures plan == old(plan) + [c] && Status(ok)
    {
      var e := Event(c, answers(|trace|));
      RunStep(trace, plan, e);
      trace, plan := trace + [e], plan + [c];
      ok := e.answer == Cloud.Ok;
    }

    /** After a failure the rest of a plan is skipped. */
    ghost method Skip(full: seq<Command>)
      requires Status(false) && plan <= full
      modifies this`plan
      ensures plan == full && Status(false)
    {
      RunLonger(trace, plan, full);
      plan := full;
    }

    method DeleteAttached(lbs: seq<string>) returns (ok: bool)
      requires Live()
      modifies this
      ensures plan == old(plan) + LbDeletes(lbs) && Status(ok)
    {
      for i := 0 to |lbs|
        invariant Live() && plan == old(plan) + LbDeletes(lbs[..i])
      {
        LbDeletesStep(lbs, i);
        Associate(old(plan), LbDeletes(lbs[..i]), [DeleteLoadBalancer(lbs[i])]);
        ok := Exec(DeleteLoadBalancer(lbs[i]));
        if !ok {
          PrefixAfter(old(plan), LbDeletes(lbs[..i + 1]), LbDeletes(lbs));
          Skip(old(plan) + LbDeletes(lbs));
          return;
        }
      }
      assert lbs[..|lbs|] == lbs;
      ok := true;
    }

    method DeleteSubnetWithBalancers(name: string) returns (ok: bool)
      requires Live()
      modifies this
      ensures plan == old(plan) + SubnetCommands(name, attached(name)) && Status(ok)
    {
      ghost var full := old(plan) + SubnetCommands(name, attached(name));
      ghost var lbs := LbDeletes(attached(name));
      Associate(old(plan), [ShowSubnet(name)], lbs);
      Associate(old(plan), [ShowSubnet(name)] + lbs, [DeleteSubnet(name)]);
      ok := Exec(ShowSubnet(name));
      if !ok { Skip(full); return; }
      ok := DeleteAttached(attached(name));
      if !ok { Skip(full); return; }
      ok := Exec(DeleteSubnet(name));
    }

    method SubnetPass(d: Resources) returns (ok: bool)
      requires d.Valid() && Live()
      modifies this
      ensures plan == old(plan) + SubnetPlan(d.keys, d.at, attached) && Status(ok)
    {
      for i := 0 to |d.keys|
        invariant Live() && plan == old(plan) + SubnetPlan(d.keys[..i], d.at, attached)
      {
        var name := d.keys[i];
        SubnetPlanStep(d, i, attached);
        if d.at[name] == "is.subnet" {
          Associate(old(plan), SubnetPlan(d.keys[..i], d.at, attached), SubnetCommands(name, attached(name)));
          ok := DeleteSubnetWithBalancers(name);
          if !ok {
            SubnetsAhead(old(plan), d, i + 1, attached);
            Skip(old(plan) + SubnetPlan(d.keys, d.at, attached));
            return;
          }
        }
      }
      assert d.keys[..|d.keys|] == d.keys;
      ok := true;
    }

    method TypePass(p: Pass, d: Resources, cluster: string) returns (ok: bool)
      requires d.Valid() && Live()
      modifies this
      ensures plan == old(plan) + PassPlan(p, d.keys, d.at, cluster) && Status(ok)
    {
      for i := 0 to |d.keys|
        invariant Live() && plan == old(plan) + PassPlan(p, d.keys[..i], d.at, cluster)
      {
        ok := PassNext(p, d, i, cluster, old(plan));
        if !ok { return; }
      }
      assert d.keys[..|d.keys|] == d.keys;
      ok := true;
    }

    /** One resource of a pass; `base` is the plan before the pass. */
    method PassNext(p: Pass, d: Resources, i: nat, cluster: string, ghost base: seq<Command>) returns (ok: bool)
      requires d.Valid() && Live() && i < |d.keys| && plan == base + PassPlan(p, d.keys[..i], d.at, cluster)
      modifies this
      ensures Status(ok)
      ensures plan == base + PassPlan(p, if ok then d.keys[..i + 1] else d.keys, d.at, cluster)
    {
      var name := d.keys[i];
      PassPlanStep(p, d, i, cluster);
      ok := true;
      if Takes(p, d.at[name], cluster) {
        Associate(base, PassPlan(p, d.keys[..i], d.at, cluster), [CommandOf(p, name)]);
        ok := Exec(CommandOf(p, name));
        if !ok {
          PassAhead(base, p, d, i + 1, cluster);
          Skip(base + PassPlan(p, d.keys, d.at, cluster));
        }
      }
    }

    /** `_delete_vpc`: a failing command ends all passes. */
    method DeleteVpcResources(d: Resources, cluster: string) returns (ok: bool)
      requires d.Valid() && trace == [] && plan == []
      modifies this
      ensures plan == Plan(d, attached, cluster) && Status(ok)
      ensures OnlyTyped(trace, d.at, attached, cluster)
      ensures ok ==> AllDeleted(trace, d.at, attached, cluster)
    {
      ok := SubnetPass(d);
      assert plan == SubnetPlan(d.keys, d.at, attached);
      ok := Then(Gateways, d, cluster, ok);
      ok := Then(FloatingIps, d, cluster, ok);
      ok := Then(Groups, d, cluster, ok);
      ok := Then(Acls, d, cluster, ok);
      ok := Then(Vpcs, d, cluster, ok);
      RunTyped(trace, d, attached, cluster);
      if ok { RunDeletes(trace, d, attached, cluster); }
    }

    /** Runs the next pass unless an earlier one was cut short. */
    method Then(p: Pass, d: Resources, cluster: string, before: bool) returns (ok: bool)
      requires d.Valid() && Status(before)
      modifies this
      ensures plan == old(plan) + PassPlan(p, d.keys, d.at, cluster) && Status(ok)
    {
      if before {
        ok := TypePass(p, d, cluster);
      } else {
        Skip(plan + PassPlan(p, d.keys, d.at, cluster));
        ok := false;
      }
    }
  }

  // ------------------------------------------------------------ what is deleted, by type

  /** `cluster in text` */
  ghost predicate Inside(cluster: string, text: string) { exists a, b :: text == a + cluster + b }

  /** Every command is for a resource of the type it is meant for; groups and ACLs only under the
      guard as written. */
  ghost predicate OnlyTyped(
    t: seq<Event>, types: map<string, string>, attached: string -> seq<string>, cluster: string)
  {
    forall e :: e in t ==> Typed(e.cmd, types, attached, cluster)
  }

  ghost predicate Typed(c: Command, types: map<string, string>, attached: string -> seq<string>, cluster: string) {
    match c
    case ShowSubnet(n) => n in types && types[n] == "is.subnet"
    case DeleteLoadBalancer(lb) => exists n :: n in types && types[n] == "is.subnet" && lb in attached(n)
    case DeleteSubnet(n) => n in types && types[n] == "is.subnet"
    case DeleteGateway(n) => n in types && types[n] == "is.public-gateway"
    case DeleteFloatingIp(n) => n in types && types[n] == "is.floating-ip"
    case DeleteGroup(n) => n in types && types[n] == "is.security-group" && Inside(cluster, "is.security-group")
    case DeleteAcl(n) => n in types && types[n] == "is.network-acl" && Inside(cluster, "is.network-acl")
    case DeleteVpc(n) => n in types && types[n] == "is.vpc"
  }

  /** Every resource of these types was deleted. */
  ghost predicate AllDeleted(
    t: seq<Event>, types: map<string, string>, attached: string -> seq<string>, cluster: string)
  {
    && (forall n :: n in types && types[n] == "is.subnet" ==> Event(DeleteSubnet(n), Cloud.Ok) in t)
    && (forall n, lb :: n in types && types[n] == "is.subnet" && lb in attached(n) ==>
          Event(DeleteLoadBalancer(lb), Cloud.Ok) in t)
    && (forall n :: n in types && types[n] == "is.public-gateway" ==> Event(DeleteGateway(n), Cloud.Ok) in t)
    && (forall n :: n in types && types[n] == "is.floating-ip" ==> Event(DeleteFloatingIp(n), Cloud.Ok) in t)
    && (forall n :: n in types && types[n] == "is.security-group" && Inside(cluster, "is.security-group") ==>
          Event(DeleteGroup(n), Cloud.Ok) in t)
    && (forall n :: n in types && types[n] == "is.network-acl" && Inside(cluster, "is.network-acl") ==>
          Event(DeleteAcl(n), Cloud.Ok) in t)
    && (forall n :: n in types && types[n] == "is.vpc" ==> Event(DeleteVpc(n), Cloud.Ok) in t)
  }

  lemma {:induction false} PassTyped(
    p: Pass, names: seq<string>, types: map<string, string>, attached: string -> seq<string>, cluster: string)
    ensures forall c :: c in PassPlan(p, names, types, cluster) ==> Typed(c, types, attached, cluster)
  {
    if names != [] {
      var n := |names| - 1;
      PassTyped(p, names[..n], types, attached, cluster);
      ContainsMeaning(TypeOf(p), cluster);
    }
  }

  lemma {:induction false} SubnetsTyped(
    names: seq<string>, types: map<string, string>, attached: string -> seq<string>, cluster: string)
    ensures forall c :: c in SubnetPlan(names, types, attached) ==> Typed(c, types, attached, cluster)
  {
    if names != [] {
      var n := |names| - 1;
      SubnetsTyped(names[..n], types, attached, cluster);
      if names[n] in types && types[names[n]] == "is.subnet" {
        forall c | c in SubnetCommands(names[n], attached(names[n])) ensures Typed(c, types, attached, cluster) {
          SubnetCommandOnly(names[n], attached(names[n]), c);
        }
      }
    }
  }

  lemma {:induction false} SubnetCommandOnly(name: string, lbs: seq<string>, c: Command)
    requires c in SubnetCommands(name, lbs)
    ensures c == ShowSubnet(name) || c == DeleteSubnet(name) || (c.DeleteLoadBalancer? && c.name in lbs)
  {
    var j :| 0 <= j < |SubnetCommands(name, lbs)| && SubnetCommands(name, lbs)[j] == c;
    CommandAt(name, lbs, j);
  }

  lemma {:induction false} PlanTyped(d: Resources, attached: string -> seq<string>, cluster: string)
    ensures forall c :: c in Plan(d, attached, cluster) ==> Typed(c, d.at, attached, cluster)
  {
    SubnetsTyped(d.keys, d.at, attached, cluster);
    forall p: Pass ensures forall c :: c in PassPlan(p, d.keys, d.at, cluster) ==> Typed(c, d.at, attached, cluster) {
      PassTyped(p, d.keys, d.at, attached, cluster);
    }
  }

  /** ONLY: in every run, however it is cut, each command is for a resource of its own type. */
  lemma {:induction false} RunTyped(t: seq<Event>, d: Resources, attached: string -> seq<string>, cluster: string)
    requires Run(t, Plan(d, attached, cluster))
    ensures OnlyTyped(t, d.at, attached, cluster)
  {
    var plan := Plan(d, attached, cluster);
    PlanTyped(d, attached, cluster);
    forall e | e in t ensures Typed(e.cmd, d.at, attached, cluster) {
      var i :| 0 <= i < |t| && t[i] == e;
      assert Commands(t)[i] == plan[i];
      assert plan[i] in plan;
    }
  }

  lemma {:induction false} PlannedDone(t: seq<Event>, plan: seq<Command>, c: Command)
    requires Run(t, plan) && AllOk(t) && c in plan
    ensures Event(c, Cloud.Ok) in t
  {
    var i :| 0 <= i < |plan| && plan[i] == c;
    assert t[i] == Event(c, Cloud.Ok);
  }

  lemma {:induction false} PassDone(
    p: Pass, t: seq<Event>, d: Resources, attached: string -> seq<string>, cluster: string, name: string)
    requires d.Valid() && Run(t, Plan(d, attached, cluster)) && AllOk(t)
    requires name in d.at && Takes(p, d.at[name], cluster)
    ensures Event(CommandOf(p, name), Cloud.Ok) in t
  {
    PassPlanHas(p, d.keys, d.at, cluster, name);
    PlannedDone(t, Plan(d, attached, cluster), CommandOf(p, name));
  }

  lemma {:induction false} SubnetDone(
    t: seq<Event>, d: Resources, attached: string -> seq<string>, cluster: string, name: string)
    requires d.Valid() && Run(t, Plan(d, attached, cluster)) && AllOk(t)
    requires name in d.at && d.at[name] == "is.subnet"
    ensures Event(DeleteSubnet(name), Cloud.Ok) in t
    ensures forall lb :: lb in attached(name) ==> Event(DeleteLoadBalancer(lb), Cloud.Ok) in t
  {
    SubnetPlanHas(d.keys, d.at, attached, name);
    SubnetCommandsHas(name, attached(name));
    forall c | c in SubnetCommands(name, attached(name)) ensures Event(c, Cloud.Ok) in t {
      PlannedDone(t, Plan(d, attached, cluster), c);
    }
  }

  /** ALL: a run without a failure deletes every resource of the types it is meant for. */
  lemma {:induction false} RunDeletes(t: seq<Event>, d: Resources, attached: string -> seq<string>, cluster: string)
    requires d.Valid() && Run(t, Plan(d, attached, cluster)) && AllOk(t)
    ensures AllDeleted(t, d.at, attached, cluster)
  {
    forall n | n in d.at && d.at[n] == "is.subnet"
      ensures Event(DeleteSubnet(n), Cloud.Ok) in t
      ensures forall lb :: lb in attached(n) ==> Event(DeleteLoadBalancer(lb), Cloud.Ok) in t
    {
      SubnetDone(t, d, attached, cluster, n);
    }
    PassDeletes(t, d, attached, cluster);
    GuardedDeletes(t, d, attached, cluster);
  }

  lemma {:induction false} PassDeletes(t: seq<Event>, d: Resources, attached: string -> seq<string>, cluster: string)
    requires d.Valid() && Run(t, Plan(d, attached, cluster)) && AllOk(t)
    ensures forall n :: n in d.at && d.at[n] == "is.public-gateway" ==> Event(DeleteGateway(n), Cloud.Ok) in t
    ensures forall n :: n in d.at && d.at[n] == "is.floating-ip" ==> Event(DeleteFloatingIp(n), Cloud.Ok) in t
    ensures forall n :: n in d.at && d.at[n] == "is.vpc" ==> Event(DeleteVpc(n), Cloud.Ok) in t
  {
    forall n | n in d.at && d.at[n] == "is.public-gateway" ensures Event(DeleteGateway(n), Cloud.Ok) in t {
      PassDone(Gateways, t, d, attached, cluster, n);
    }
    forall n | n in d.at && d.at[n] == "is.floating-ip" ensures Event(DeleteFloatingIp(n), Cloud.Ok) in t {
      PassDone(FloatingIps, t, d, attached, cluster, n);
    }
    forall n | n in d.at && d.at[n] == "is.vpc" ensures Event(DeleteVpc(n), Cloud.Ok) in t {
      PassDone(Vpcs, t, d, attached, cluster, n);
    }
  }

  lemma {:induction false} GuardedDeletes(t: seq<Event>, d: Resources, attached: string -> seq<string>, cluster: string)
    requires d.Valid() && Run(t, Plan(d, attached, cluster)) && AllOk(t)
    ensures Inside(cluster, "is.security-group") ==>
      forall n :: n in d.at && d.at[n] == "is.security-group" ==> Event(DeleteGroup(n), Cloud.Ok) in t
    ensures Inside(cluster, "is.network-acl") ==>
      forall n :: n in d.at && d.at[n] == "is.network-acl" ==> Event(DeleteAcl(n), Cloud.Ok) in t
  {
    ContainsMeaning("is.security-group", cluster);
    ContainsMeaning("is.network-acl", cluster);
    if Inside(cluster, "is.security-group") {
      forall n | n in d.at && d.at[n] == "is.security-group" ensures Event(DeleteGroup(n), Cloud.Ok) in t {
        PassDone(Groups, t, d, attached, cluster, n);
      }
    }
    if Inside(cluster, "is.network-acl") {
      forall n | n in d.at && d.at[n] == "is.network-acl" ensures Event(DeleteAcl(n), Cloud.Ok) in t {
        PassDone(Acls, t, d, attached, cluster, n);
      }
    }
  }

  // --------------------------------------------------------------------------- the plans

  lemma {:induction false} LbDeletesStep(lbs: seq<string>, i: nat)
    requires i < |lbs|
    ensures LbDeletes(lbs[..i + 1]) == LbDeletes(lbs[..i]) + [DeleteLoadBalancer(lbs[i])]
    ensures LbDeletes(lbs[..i + 1]) <= LbDeletes(lbs)
  {
  }

  lemma {:induction false} SubnetPlanStep(d: Resources, i: nat, attached: string -> seq<string>)
    requires i < |d.keys| && d.keys[i] in d.at
    ensures SubnetPlan(d.keys[..i + 1], d.at, attached) == SubnetPlan(d.keys[..i], d.at, attached) +
      if d.at[d.keys[i]] == "is.subnet" then SubnetCommands(d.keys[i], attached(d.keys[i])) else []
  {
    assert d.keys[..i + 1][..i] == d.keys[..i];
  }

  lemma {:induction false} PassPlanStep(p: Pass, d: Resources, i: nat, cluster: string)
    requires i < |d.keys| && d.keys[i] in d.at
    ensures PassPlan(p, d.keys[..i + 1], d.at, cluster) == PassPlan(p, d.keys[..i], d.at, cluster) +
      if Takes(p, d.at[d.keys[i]], cluster) then [CommandOf(p, d.keys[i])] else []
  {
    assert d.keys[..i + 1][..i] == d.keys[..i];
  }

  lemma {:induction false} SubnetPlanPrefix(d: Resources, i: nat, attached: string -> seq<string>)
    requires d.Valid() && i <= |d.keys|
    ensures SubnetPlan(d.keys[..i], d.at, attached) <= SubnetPlan(d.keys, d.at, attached)
    decreases |d.keys| - i
  {
    if i == |d.keys| {
      assert d.keys[..i] == d.keys;
    } else {
      SubnetPlanStep(d, i, attached);
      SubnetPlanPrefix(d, i + 1, attached);
    }
  }

  lemma {:induction false} PassPlanPrefix(p: Pass, d: Resources, i: nat, cluster: string)
    requires d.Valid() && i <= |d.keys|
    ensures PassPlan(p, d.keys[..i], d.at, cluster) <= PassPlan(p, d.keys, d.at, cluster)
    decreases |d.keys| - i
  {
    if i == |d.keys| {
      assert d.keys[..i] == d.keys;
    } else {
      PassPlanStep(p, d, i, cluster);
      PassPlanPrefix(p, d, i + 1, cluster);
    }
  }

  lemma {:induction false} SubnetsAhead(base: seq<Command>, d: Resources, i: nat, attached: string -> seq<string>)
    requires d.Valid() && i <= |d.keys|
    ensures base + SubnetPlan(d.keys[..i], d.at, attached) <= base + SubnetPlan(d.keys, d.at, attached)
  {
    SubnetPlanPrefix(d, i, attached);
    PrefixAfter(base, SubnetPlan(d.keys[..i], d.at, attached), SubnetPlan(d.keys, d.at, attached));
  }

  lemma {:induction false} PassAhead(base: seq<Command>, p: Pass, d: Resources, i: nat, cluster: string)
    requires d.Valid() && i <= |d.keys|
    ensures base + PassPlan(p, d.keys[..i], d.at, cluster) <= base + PassPlan(p, d.keys, d.at, cluster)
  {
    PassPlanPrefix(p, d, i, cluster);
    PrefixAfter(base, PassPlan(p, d.keys[..i], d.at, cluster), PassPlan(p, d.keys, d.at, cluster));
  }

  // -------------------------------------------------------------------------- ordering

  /** The command was issued and accepted before step i. */
  ghost predicate DoneBefore(t: seq<Event>, i: int, c: Command) {
    exists j :: 0 <= j < i && j < |t| && t[j] == Event(c, Cloud.Ok)
  }

  /** Every planned command before a step of a run was accepted. */
  lemma {:induction false} RunBefore(t: seq<Event>, plan: seq<Command>, i: nat, k: nat)
    requires Run(t, plan) && k < i < |t| <= |plan|
    ensures DoneBefore(t, i, plan[k])
  {
    assert Commands(t)[k] == plan[k];
    if !AllOk(t) { assert t[..|t| - 1][k] == t[k]; }
  }

  lemma {:induction false} PassPlanHas(
    p: Pass, names: seq<string>, types: map<string, string>, cluster: string, name: string)
    requires name in names && name in types && Takes(p, types[name], cluster)
    ensures CommandOf(p, name) in PassPlan(p, names, types, cluster)
  {
    var n := |names| - 1;
    if names[n] != name { PassPlanHas(p, names[..n], types, cluster, name); }
  }

  lemma {:induction false} PassPlanOnly(p: Pass, names: seq<string>, types: map<string, string>, cluster: string)
    ensures forall c :: c in PassPlan(p, names, types, cluster) ==> c == CommandOf(p, c.name)
  {
    if names != [] { PassPlanOnly(p, names[..|names| - 1], types, cluster); }
  }

  lemma {:induction false} SubnetPlanHas(
    names: seq<string>, types: map<string, string>, attached: string -> seq<string>, name: string)
    requires name in names && name in types && types[name] == "is.subnet"
    ensures forall c :: c in SubnetCommands(name, attached(name)) ==> c in SubnetPlan(names, types, attached)
  {
    var n := |names| - 1;
    if names[n] != name { SubnetPlanHas(names[..n], types, attached, name); }
  }

  lemma {:induction false} SubnetPlanOnly(
    names: seq<string>, types: map<string, string>, attached: string -> seq<string>)
    ensures forall c :: c in SubnetPlan(names, types, attached) ==>
      c.ShowSubnet? || c.DeleteLoadBalancer? || c.DeleteSubnet?
  {
    if names != [] { SubnetPlanOnly(names[..|names| - 1], types, attached); }
  }

  /** The deletes of these balancers come immediately before step i. */
  ghost predicate Preceded(plan: seq<Command>, i: nat, lbs: seq<string>) {
    |lbs| <= i <= |plan| && forall k :: 0 <= k < |lbs| ==> plan[i - |lbs| + k] == DeleteLoadBalancer(lbs[k])
  }

  /** In the commands for a subnet, the one subnet-delete comes after the balancers. */
  lemma {:induction false} BlockAt(name: string, lbs: seq<string>, j: nat)
    requires j < |SubnetCommands(name, lbs)| && SubnetCommands(name, lbs)[j].DeleteSubnet?
    ensures SubnetCommands(name, lbs)[j] == DeleteSubnet(name) && Preceded(SubnetCommands(name, lbs), j, lbs)
  {
    CommandAt(name, lbs, j);
    forall k | 0 <= k < |lbs| ensures SubnetCommands(name, lbs)[j - |lbs| + k] == DeleteLoadBalancer(lbs[k]) {
      CommandAt(name, lbs, 1 + k);
    }
  }

  lemma {:induction false} CommandAt(name: string, lbs: seq<string>, j: nat)
    requires j < |SubnetCommands(name, lbs)|
    ensures |SubnetCommands(name, lbs)| == |lbs| + 2
    ensures SubnetCommands(name, lbs)[j] ==
      if j == 0 then ShowSubnet(name) else if j <= |lbs| then DeleteLoadBalancer(lbs[j - 1]) else DeleteSubnet(name)
  {
  }

  lemma {:induction false} PrecededAppend(a: seq<Command>, b: seq<Command>, j: nat, lbs: seq<string>)
    ensures Preceded(a, j, lbs) ==> Preceded(a + b, j, lbs)
    ensures Preceded(b, j, lbs) ==> Preceded(a + b, |a| + j, lbs)
  {
    if Preceded(b, j, lbs) {
      forall k | 0 <= k < |lbs| ensures (a + b)[|a| + j - |lbs| + k] == DeleteLoadBalancer(lbs[k]) {
        assert (a + b)[|a| + (j - |lbs| + k)] == b[j - |lbs| + k];
      }
    }
  }

  lemma {:induction false} SubnetPlanSnoc(
    names: seq<string>, types: map<string, string>, attached: string -> seq<string>)
    returns (block: seq<Command>)
    requires names != []
    ensures SubnetPlan(names, types, attached) == SubnetPlan(names[..|names| - 1], types, attached) + block
    ensures block == [] || block == SubnetCommands(names[|names| - 1], attached(names[|names| - 1]))
  {
    var n := |names| - 1;
    block := SubnetPlan(names, types, attached)[|SubnetPlan(names[..n], types, attached)|..];
  }

  /** In the subnet pass each subnet-delete is immediately preceded by its balancers' deletes. */
  lemma {:induction false} SubnetPlanAt(
    names: seq<string>, types: map<string, string>, attached: string -> seq<string>, i: nat)
    requires i < |SubnetPlan(names, types, attached)| && SubnetPlan(names, types, attached)[i].DeleteSubnet?
    ensures var plan := SubnetPlan(names, types, attached); Preceded(plan, i, attached(plan[i].name))
  {
    var n := |names| - 1;
    var init, plan := SubnetPlan(names[..n], types, attached), SubnetPlan(names, types, attached);
    var block := SubnetPlanSnoc(names, types, attached);
    if i < |init| {
      SubnetPlanAt(names[..n], types, attached, i);
      PrecededAppend(init, block, i, attached(plan[i].name));
    } else {
      BlockAt(names[n], attached(names[n]), i - |init|);
      PrecededAppend(init, block, i - |init|, attached(names[n]));
    }
  }

  lemma {:induction false} PreparationOnly(d: Resources, attached: string -> seq<string>, cluster: string)
    ensures forall c :: c in Preparation(d, attached, cluster) ==> !c.DeleteVpc?
  {
    SubnetPlanOnly(d.keys, d.at, attached);
    PassPlanOnly(Gateways, d.keys, d.at, cluster);
    PassPlanOnly(FloatingIps, d.keys, d.at, cluster);
    PassPlanOnly(Groups, d.keys, d.at, cluster);
    PassPlanOnly(Acls, d.keys, d.at, cluster);
  }

  /** Whatever was planned as preparation was accepted before any vpc-delete. */
  lemma {:induction false} PreparedFirst(
    t: seq<Event>, d: Resources, attached: string -> seq<string>, cluster: string, i: nat, c: Command)
    requires Run(t, Plan(d, attached, cluster)) && i < |t| && t[i].cmd.DeleteVpc?
    requires c in Preparation(d, attached, cluster)
    ensures DoneBefore(t, i, c)
  {
    var prep, plan := Preparation(d, attached, cluster), Plan(d, attached, cluster);
    PreparationOnly(d, attached, cluster);
    var k :| 0 <= k < |prep| && prep[k] == c;
    assert forall j :: 0 <= j < |prep| ==> plan[j] == prep[j] && prep[j] in prep;
    assert Commands(t)[i] == plan[i];
    RunBefore(t, plan, i, k);
  }

  lemma {:induction false} SubnetsFirst(
    t: seq<Event>, d: Resources, attached: string -> seq<string>, cluster: string, i: nat, name: string, c: Command)
    requires d.Valid() && Run(t, Plan(d, attached, cluster)) && i < |t| && t[i].cmd.DeleteVpc?
    requires name in d.at && d.at[name] == "is.subnet" && c in SubnetCommands(name, attached(name))
    ensures DoneBefore(t, i, c)
  {
    SubnetPlanHas(d.keys, d.at, attached, name);
    PreparedFirst(t, d, attached, cluster, i, c);
  }

  lemma {:induction false} PassFirst(
    p: Pass, t: seq<Event>, d: Resources, attached: string -> seq<string>, cluster: string, i: nat, name: string)
    requires d.Valid() && Run(t, Plan(d, attached, cluster)) && i < |t| && t[i].cmd.DeleteVpc?
    requires name in d.at && d.at[name] == TypeOf(p) && p != Vpcs && Open(p, cluster)
    ensures DoneBefore(t, i, CommandOf(p, name))
  {
    PassPlanHas(p, d.keys, d.at, cluster, name);
    PreparedFirst(t, d, attached, cluster, i, CommandOf(p, name));
  }

  lemma {:induction false} SubnetCommandsHas(name: string, lbs: seq<string>)
    ensures DeleteSubnet(name) in SubnetCommands(name, lbs)
    ensures forall lb :: lb in lbs ==> DeleteLoadBalancer(lb) in SubnetCommands(name, lbs)
  {
    var cs := SubnetCommands(name, lbs);
    assert cs[|cs| - 1] == DeleteSubnet(name);
    forall lb | lb in lbs ensures DeleteLoadBalancer(lb) in cs {
      var k :| 0 <= k < |lbs| && lbs[k] == lb;
      assert cs[k + 1] == DeleteLoadBalancer(lb);
    }
  }

  /** VPC LAST: in every run, however it is cut, a vpc-delete comes only after accepted deletes
      of every subnet, its attached load balancers, every public gateway and every floating IP. */
  lemma {:induction false} VpcLast(
    t: seq<Event>, d: Resources, attached: string -> seq<string>, cluster: string, i: nat, name: string)
    requires d.Valid() && Run(t, Plan(d, attached, cluster)) && i < |t| && t[i].cmd.DeleteVpc?
    requires name in d.at
    ensures d.at[name] == "is.subnet" ==> DoneBefore(t, i, DeleteSubnet(name))
    ensures d.at[name] == "is.subnet" ==>
      forall lb :: lb in attached(name) ==> DoneBefore(t, i, DeleteLoadBalancer(lb))
    ensures d.at[name] == "is.public-gateway" ==> DoneBefore(t, i, DeleteGateway(name))
    ensures d.at[name] == "is.floating-ip" ==> DoneBefore(t, i, DeleteFloatingIp(name))
  {
    if d.at[name] == "is.subnet" {
      SubnetCommandsHas(name, attached(name));
      forall c | c in SubnetCommands(name, attached(name)) ensures DoneBefore(t, i, c) {
        SubnetsFirst(t, d, attached, cluster, i, name, c);
      }
    } else if d.at[name] == TypeOf(Gateways) {
      PassFirst(Gateways, t, d, attached, cluster, i, name);
    } else if d.at[name] == TypeOf(FloatingIps) {
      PassFirst(FloatingIps, t, d, attached, cluster, i, name);
    }
  }

  /** BALANCERS FIRST: each subnet-delete follows the accepted deletes of its own balancers. */
  lemma {:induction false} BalancersFirst(
    t: seq<Event>, d: Resources, attached: string -> seq<string>, cluster: string, i: nat)
    requires Run(t, Plan(d, attached, cluster)) && i < |t| && t[i].cmd.DeleteSubnet?
    ensures forall lb :: lb in attached(t[i].cmd.name) ==> DoneBefore(t, i, DeleteLoadBalancer(lb))
  {
    var plan, first := Plan(d, attached, cluster), SubnetPlan(d.keys, d.at, attached);
    LaterPasses(d, attached, cluster, i);
    assert Commands(t)[i] == plan[i] == first[i];
    SubnetPlanAt(d.keys, d.at, attached, i);
    PrecededDone(t, plan, i, attached(t[i].cmd.name));
  }

  lemma {:induction false} PrecededDone(t: seq<Event>, plan: seq<Command>, i: nat, lbs: seq<string>)
    requires Run(t, plan) && i < |t| <= |plan| && Preceded(plan, i, lbs)
    ensures forall lb :: lb in lbs ==> DoneBefore(t, i, DeleteLoadBalancer(lb))
  {
    forall lb | lb in lbs ensures DoneBefore(t, i, DeleteLoadBalancer(lb)) {
      var k :| 0 <= k < |lbs| && lbs[k] == lb;
      RunBefore(t, plan, i, i - |lbs| + k);
    }
  }

  lemma {:induction false} LaterPasses(d: Resources, attached: string -> seq<string>, cluster: string, i: nat)
    requires i < |Plan(d, attached, cluster)| && Plan(d, attached, cluster)[i].DeleteSubnet?
    ensures i < |SubnetPlan(d.keys, d.at, attached)|
    ensures SubnetPlan(d.keys, d.at, attached) <= Plan(d, attached, cluster)
  {
    var p0 := SubnetPlan(d.keys, d.at, attached);
    var p1 := p0 + PassPlan(Gateways, d.keys, d.at, cluster);
    var p2 := p1 + PassPlan(FloatingIps, d.keys, d.at, cluster);
    var p3 := p2 + PassPlan(Groups, d.keys, d.at, cluster);
    var p4 := p3 + PassPlan(Acls, d.keys, d.at, cluster);
    NotInPass(p4, Vpcs, d, cluster, i);
    NotInPass(p3, Acls, d, cluster, i);
    NotInPass(p2, Groups, d, cluster, i);
    NotInPass(p1, FloatingIps, d, cluster, i);
    NotInPass(p0, Gateways, d, cluster, i);
  }

  /** A subnet-delete is not in a pass over one other type. */
  lemma {:induction false} NotInPass(before: seq<Command>, p: Pass, d: Resources, cluster: string, i: nat)
    requires var all := before + PassPlan(p, d.keys, d.at, cluster); i < |all| && all[i].DeleteSubnet?
    ensures i < |before| && before[i].DeleteSubnet? && before <= before + PassPlan(p, d.keys, d.at, cluster)
  {
    var pass := PassPlan(p, d.keys, d.at, cluster);
    PassPlanOnly(p, d.keys, d.at, cluster);
    assert forall j :: 0 <= j < |pass| ==> pass[j] in pass;
  }
}
