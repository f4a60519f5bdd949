/** The IBM Cloud command line as the deployment code sees it: a fixed set of listings, an
    arbitrary stream of command answers, and a trace of the commands issued so far. */
module Cloud {
  import opened Py

  datatype Kind = Instance | FloatingIp | LoadBalancer | SecurityGroup | CosInstance | Image

  /** `Failed` is a CommandFailed exception, `Crashed` any other one (a subprocess timeout, say). */
  datatype Answer = Ok | Failed | Crashed

  datatype Command =
    | List(kind: Kind)
    | Delete(kind: Kind, handle: Option<string>)
    | Probe(kind: Kind, handle: Option<string>)
    | DropRule(group: Option<string>, rule: string)

  datatype Event = Event(cmd: Command, answer: Answer)

  datatype Rule = Rule(id: Option<string>, remote: Option<string>)

  datatype Resource = Resource(
    name: Option<string>, id: Option<string>, guid: Option<string>, isPrivate: bool, rules: seq<Rule>)

  /** What a list command prints: unparsable output, or resources. */
  datatype Listing = Unreadable | Listed(items: seq<Resource>)

  function KindOf(c: Command): Kind {
    match c
    case List(k) => k
    case Delete(k, _) => k
    case Probe(k, _) => k
    case DropRule(_, _) => SecurityGroup
  }

  /** The identifier the delete command of a kind takes. */
  function Handle(kind: Kind, r: Resource): Option<string> {
    if kind == CosInstance then r.guid else r.id
  }

  /** The name filter of the delete methods: `.get("name", "").startswith(...)`. */
  predicate Matches(kind: Kind, r: Resource, prefix: string) {
    var name := if r.name.Some? then r.name.value else "";
    match kind
    case LoadBalancer => StartsWith(name, prefix) || StartsWith(name, "kube-" + prefix)
    case Image => StartsWith(name, prefix) && r.isPrivate
    case _ => StartsWith(name, prefix)
  }

  // ------------------------------------------------------------------ trace predicates

  ghost predicate NoCrash(t: seq<Event>) { forall e :: e in t ==> e.answer != Crashed }

  /** A resource is known to be gone: its delete was accepted or, for a floating IP,
      a probe of it failed. */
  ghost predicate Accepted(t: seq<Event>, kind: Kind, h: Option<string>) {
    || Event(Delete(kind, h), Ok) in t
    || (kind == FloatingIp && Event(Probe(kind, h), Failed) in t)
  }

  ghost predicate Targets(kind: Kind, l: Listing, prefix: string, h: Option<string>) {
    l.Listed? && exists r :: r in l.items && Matches(kind, r, prefix) && Handle(kind, r) == h
  }

  /** The rule belongs to a listed group and refers to a listed group that matches. */
  ghost predicate RuleTargets(l: Listing, prefix: string, group: Option<string>, rule: string) {
    l.Listed? && exists g, u, sg ::
      && g in l.items && u in g.rules && sg in l.items
      && Matches(SecurityGroup, sg, prefix)
      && g.id == group && u.id == Some(rule) && rule != "" && u.remote == sg.id
  }

  /** Commands a delete method for `kind` may issue. */
  ghost predicate Allowed(c: Command, kind: Kind, l: Listing, prefix: string) {
    && KindOf(c) == kind
    && match c
       case List(_) => true
       case Delete(_, h) => Targets(kind, l, prefix, h)
       case Probe(_, h) => Targets(kind, l, prefix, h)
       case DropRule(g, u) => RuleTargets(l, prefix, g, u)
  }

  /** Every listed match of the kind was deleted, and the listing was obtained. */
  ghost predicate Complete(t: seq<Event>, kind: Kind, l: Listing, prefix: string) {
    && Event(List(kind), Ok) in t
    && l.Listed?
    && forall r :: r in l.items && Matches(kind, r, prefix) ==> Accepted(t, kind, Handle(kind, r))
  }

  /** The resource was probed until a probe failed, or as often as permitted. */
  ghost predicate Awaited(t: seq<Event>, kind: Kind, h: Option<string>, bound: nat) {
    || Event(Probe(kind, h), Failed) in t
    || multiset(t)[Event(Probe(kind, h), Ok)] >= bound
  }

  // ---------------------------------------------------------------------- wait verdicts

  datatype Verdict = Gone | TimedOut | Raised

  /** The first of `max` probes that did not answer Ok, counted from 1. */
  function FirstEnd(answers: nat -> Answer, at: nat, max: nat): (a: Option<nat>)
    decreases max
    ensures a.None? ==> forall i :: at <= i < at + max ==> answers(i) == Ok
    ensures a.Some? ==> 1 <= a.value <= max && answers(at + a.value - 1) != Ok
    ensures a.Some? ==> forall i :: at <= i < at + a.value - 1 ==> answers(i) == Ok
  {
    if max == 0 then None
    else if answers(at) != Ok then Some(1)
    else
      var a := FirstEnd(answers, at + 1, max - 1);
      if a.None? then None else Some(a.value + 1)
  }

  /** `_wait_for_resource_deletion`: any failing probe within the bound means gone. */
  function WaitVerdict(answers: nat -> Answer, at: nat, max: nat): Verdict {
    var a := FirstEnd(answers, at, max);
    if a.None? then TimedOut
    else if answers(at + a.value - 1) == Failed then Gone else Raised
  }

  /** How many probes a wait issues: up to the first that is not answered Ok. */
  function Probes(answers: nat -> Answer, at: nat, max: nat): nat {
    var a := FirstEnd(answers, at, max);
    if a.None? then max else a.value
  }

  lemma {:induction false} AllSame(t: seq<Event>, e: Event)
    requires forall i :: 0 <= i < |t| ==> t[i] == e
    ensures multiset(t)[e] == |t|
  {
    if t != [] {
      var n := |t| - 1;
      AllSame(t[..n], e);
      assert t == t[..n] + [t[n]];
    }
  }

  class Cli {
    const answers: nat -> Answer
    const listing: Kind -> Listing
    var trace: seq<Event>

    constructor (answers: nat -> Answer, listing: Kind -> Listing)
      ensures this.answers == answers && this.listing == listing && trace == [] && Valid()
    {
      this.answers, this.listing, trace := answers, listing, [];
    }

    /** Every recorded answer is the one the stream gave at that point. */
    ghost predicate Valid()
      reads this
    {
      forall i :: 0 <= i < |trace| ==> trace[i].answer == answers(i)
    }

    /** `exec_cmd` */
    method Exec(c: Command) returns (a: Answer)
      requires Valid()
      modifies this
      ensures Valid()
      ensures a == answers(old(|trace|)) && trace == old(trace) + [Event(c, a)]
    {
      a := answers(|trace|);
      trace := trace + [Event(c, a)];
    }

    /** `retry(CommandFailed, tries)(exec_cmd)` */
    method ExecRetry(c: Command, tries: nat) returns (a: Answer, ghost seg: seq<Event>)
      requires tries > 0 && Valid()
      modifies this
      ensures Valid()
      ensures trace == old(trace) + seg && 0 < |seg| <= tries
      ensures a == seg[|seg| - 1].answer
      ensures forall i :: 0 <= i < |seg| ==> seg[i].cmd == c && (i < |seg| - 1 ==> seg[i].answer == Failed)
      ensures a == Failed ==> |seg| == tries
    {
      var left := tries;
      seg := [];
      while left > 1
        invariant 1 <= left <= tries && |seg| == tries - left
        invariant Valid() && trace == old(trace) + seg
        invariant forall i :: 0 <= i < |seg| ==> seg[i] == Event(c, Failed)
      {
        a := Exec(c);
        seg := seg + [Event(c, a)];
        if a != Failed { return; }
        left := left - 1;
      }
      a := Exec(c);
      seg := seg + [Event(c, a)];
    }

    /** `_wait_for_resource_deletion`; a kind without a show command raises ResourceNotSupported. */
    method WaitForDeletion(kind: Kind, h: Option<string>, max: nat)
      returns (v: Verdict, ghost seg: seq<Event>)
      requires Valid()
      modifies this
      ensures Valid() && trace == old(trace) + seg && |seg| <= max
      ensures forall e :: e in seg ==> e.cmd == Probe(kind, h)
      ensures forall i :: 0 <= i < |seg| - 1 ==> seg[i].answer == Ok
      ensures kind != CosInstance && kind != Image ==>
        v == WaitVerdict(answers, old(|trace|), max) && |seg| == Probes(answers, old(|trace|), max)
      ensures kind == CosInstance || kind == Image ==> seg == [] && v == if max == 0 then TimedOut else Raised
      ensures v == Raised || (NoCrash(seg) && Awaited(seg, kind, h, max))
      ensures v == Raised ==> kind == CosInstance || kind == Image || !NoCrash(seg)
    {
      seg := [];
      if kind == CosInstance || kind == Image {
        v := if max == 0 then TimedOut else Raised;
        return;
      }
      ghost var at := |trace|;
      ghost var first := FirstEnd(answers, at, max);
      for attempt := 1 to max + 1
        invariant Valid() && trace == old(trace) + seg && |seg| == attempt - 1
        invariant forall i :: 0 <= i < |seg| ==> seg[i] == Event(Probe(kind, h), Ok)
        invariant first.Some? ==> attempt <= first.value
      {
        var a := Exec(Probe(kind, h));
        seg := seg + [Event(Probe(kind, h), a)];
        assert seg[|seg| - 1] in seg;
        if a == Crashed { return Raised, seg; }
        if a == Failed { return Gone, seg; }
      }
      AllSame(seg, Event(Probe(kind, h), Ok));
      v := TimedOut;
    }

    /** The wait loop written inline in `force_cleanup_leftovers`: it leaves the loop on the first
        failing probe and then compares the attempt counter with the bound. */
    method InlineLoadBalancerWait(h: Option<string>, max: nat) returns (v: Verdict, ghost seg: seq<Event>)
      requires Valid()
      modifies this
      ensures Valid() && trace == old(trace) + seg
      ensures forall e :: e in seg ==> e.cmd == Probe(LoadBalancer, h)
      ensures v == InlineVerdict(answers, old(|trace|), max)
      ensures |seg| == Probes(answers, old(|trace|), max)
    {
      seg := [];
      ghost var at := |trace|;
      ghost var first := FirstEnd(answers, at, max);
      var attempts := 0;
      while attempts < max
        invariant attempts <= max && Valid() && trace == old(trace) + seg && |seg| == attempts
        invariant forall e :: e in seg ==> e.cmd == Probe(LoadBalancer, h)
        invariant first.Some? ==> attempts < first.value
      {
        attempts := attempts + 1;
        var a := Exec(Probe(LoadBalancer, h));
        seg := seg + [Event(Probe(LoadBalancer, h), a)];
        if a == Crashed { return Raised, seg; }
        if a == Failed { break; }
      }
      v := if attempts == max then TimedOut else Gone;
    }
  }

  /** The verdict of the inline wait: a failing probe on the last attempt counts as a timeout. */
  ghost function InlineVerdict(answers: nat -> Answer, at: nat, max: nat): Verdict {
    var a := FirstEnd(answers, at, max);
    if a.None? then TimedOut
    else if answers(at + a.value - 1) == Crashed then Raised
    else if a.value == max then TimedOut else Gone
  }

  /** The two waits see the same probes. The inline one accepts only what the other accepts, and
      they differ exactly when the first failing probe is the last permitted attempt. */
  lemma {:induction false} WaitsCompared(answers: nat -> Answer, at: nat, max: nat)
    ensures InlineVerdict(answers, at, max) == Gone ==> WaitVerdict(answers, at, max) == Gone
    ensures InlineVerdict(answers, at, max) != WaitVerdict(answers, at, max) <==>
      && max > 0
      && answers(at + max - 1) == Failed
      && forall i :: at <= i < at + max - 1 ==> answers(i) == Ok
  {
    var a := FirstEnd(answers, at, max);
    if a.Some? && a.value < max { assert answers(at + a.value - 1) != Ok; }
  }
}
