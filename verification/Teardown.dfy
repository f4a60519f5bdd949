/** The six `delete_*` methods of the existing-VPC teardown. Each method returns, as a ghost value,
    a record of what it added to the command trace: the listing command, one part per matching
    resource, and the probes of the final wait. */
module Teardown {
  import opened Py
  import opened Cloud

  // ------------------------------------------------------------------------- filtering

  function Filter(kind: Kind, items: seq<Resource>, prefix: string): (m: seq<Resource>)
    ensures forall r :: r in m <==> r in items && Matches(kind, r, prefix)
  {
    if items == [] then [] else
    var n := |items| - 1;
    assert items == items[..n] + [items[n]];
    if Matches(kind, items[n], prefix) then Filter(kind, items[..n], prefix) + [items[n]]
    else Filter(kind, items[..n], prefix)
  }

  /** The matches are kept in listing order, each as often as it is listed. */
  lemma {:induction false} FilterMeaning(kind: Kind, items: seq<Resource>, prefix: string) returns (idx: seq<nat>)
    ensures Filtered(items, Filter(kind, items, prefix), idx, (r: Resource) => Matches(kind, r, prefix))
  {
    if items == [] {
      idx := [];
    } else {
      var n := |items| - 1;
      var wanted := (r: Resource) => Matches(kind, r, prefix);
      idx := FilterMeaning(kind, items[..n], prefix);
      FilteredSnoc(items[..n], Filter(kind, items[..n], prefix), idx, wanted, items[n]);
      assert items == items[..n] + [items[n]];
      if wanted(items[n]) { idx := idx + [n]; }
    }
  }

  /** The identifiers of the matching resources, in listing order. */
  function Handles(kind: Kind, items: seq<Resource>, prefix: string): (hs: seq<Option<string>>)
    ensures forall h :: h in hs <==> exists r :: r in items && Matches(kind, r, prefix) && Handle(kind, r) == h
  {
    var m := Filter(kind, items, prefix);
    var hs := seq(|m|, i requires 0 <= i < |m| => Handle(kind, m[i]));
    assert forall i :: 0 <= i < |m| ==> m[i] in m && hs[i] == Handle(kind, m[i]);
    hs
  }

  // ----------------------------------------------------------------- one resource at a time

  /** The events that make up a rejected delete: three failed deletes, or, for a floating IP,
      eight failed releases, each followed by a probe that still finds it. */
  function Span(kind: Kind): nat { if kind == FloatingIp then 16 else 3 }

  function Refusal(kind: Kind, h: Option<string>, k: nat): Event {
    if kind == FloatingIp && k % 2 == 1 then Event(Probe(kind, h), Ok) else Event(Delete(kind, h), Failed)
  }

  ghost predicate Refuses(t: seq<Event>, kind: Kind, h: Option<string>, n: int) {
    n <= |t| && forall k :: 0 <= k < n ==> t[k] == Refusal(kind, h, k)
  }

  /** The resource is gone: its delete was accepted, or a floating IP was not found. */
  predicate Settles(e: Event, kind: Kind, h: Option<string>) {
    e == Event(Delete(kind, h), Ok) || (kind == FloatingIp && e == Event(Probe(kind, h), Failed))
  }

  /** The attempts to delete one resource: a whole refusal, or a refusal cut at the first event that
      deviates from it, which settles the matter or crashes. */
  ghost predicate Attempts(t: seq<Event>, kind: Kind, h: Option<string>, a: Answer) {
    if a == Failed then |t| == Span(kind) && Refuses(t, kind, h, |t|)
    else
      var n := |t| - 1;
      && 0 <= n < Span(kind) && Refuses(t, kind, h, n)
      && t[n].cmd == Refusal(kind, h, n).cmd
      && if a == Ok then Settles(t[n], kind, h) else t[n].answer == Crashed
  }

  /** Releases a floating IP: up to eight attempts, each failure followed by a probe. */
  method ReleaseFloatingIp(cli: Cli, h: Option<string>) returns (a: Answer, ghost seg: seq<Event>)
    requires cli.Valid()
    modifies cli
    ensures cli.Valid() && cli.trace == old(cli.trace) + seg
    ensures Attempts(seg, FloatingIp, h, a)
  {
    seg := [];
    for attempt := 1 to 9
      invariant cli.Valid() && cli.trace == old(cli.trace) + seg
      invariant |seg| == 2 * (attempt - 1) && Refuses(seg, FloatingIp, h, |seg|)
    {
      var r := cli.Exec(Delete(FloatingIp, h));
      seg := seg + [Event(Delete(FloatingIp, h), r)];
      if r != Failed { return r, seg; }
      var p := cli.Exec(Probe(FloatingIp, h));
      seg := seg + [Event(Probe(FloatingIp, h), p)];
      if p == Failed { return Ok, seg; }
      if p == Crashed { return Crashed, seg; }
    }
    a := Failed;
  }

  // -------------------------------------------------------------------- referring rules

  /** The rule refers to the group and can be named in a command. */
  predicate Refers(u: Rule, h: Option<string>) { u.remote == h && u.id.Some? && u.id.value != "" }

  /** The removal commands for the first n rules of a group. */
  function GroupDrops(g: Resource, n: nat, h: Option<string>): seq<Command>
    requires n <= |g.rules|
  {
    if n == 0 then [] else
    GroupDrops(g, n - 1, h) +
    if Refers(g.rules[n - 1], h) then [DropRule(g.id, g.rules[n - 1].id.value)] else []
  }

  /** The removal commands for the first n groups. */
  function Drops(groups: seq<Resource>, n: nat, h: Option<string>): seq<Command>
    requires n <= |groups|
  {
    if n == 0 then [] else Drops(groups, n - 1, h) + GroupDrops(groups[n - 1], |groups[n - 1].rules|, h)
  }

  ghost predicate RuleDrop(c: Command, groups: seq<Resource>, h: Option<string>) {
    c.DropRule? && exists g, u ::
      g in groups && u in g.rules && Refers(u, h) && g.id == c.group && u.id.value == c.rule
  }

  lemma {:induction false} GroupDropsMeaning(g: Resource, n: nat, h: Option<string>, c: Command)
    requires n <= |g.rules|
    ensures c in GroupDrops(g, n, h) <==>
      c.DropRule? && g.id == c.group && exists u :: u in g.rules[..n] && Refers(u, h) && u.id.value == c.rule
  {
    if n > 0 {
      GroupDropsMeaning(g, n - 1, h, c);
      assert g.rules[..n] == g.rules[..n - 1] + [g.rules[n - 1]];
    }
  }

  /** A removal command is planned exactly for the listed rules that refer to the group. */
  lemma {:induction false} DropsMeaning(groups: seq<Resource>, n: nat, h: Option<string>, c: Command)
    requires n <= |groups|
    ensures c in Drops(groups, n, h) <==> RuleDrop(c, groups[..n], h)
  {
    if n > 0 {
      var g := groups[n - 1];
      DropsMeaning(groups, n - 1, h, c);
      GroupDropsMeaning(g, |g.rules|, h, c);
      assert g.rules[..|g.rules|] == g.rules;
      assert groups[..n] == groups[..n - 1] + [g];
    }
  }

  /** The commands were all issued, in order, whether accepted or rejected. */
  ghost predicate CarriedOut(t: seq<Event>, cs: seq<Command>) {
    |t| == |cs| && forall i :: 0 <= i < |cs| ==> t[i].cmd == cs[i] && t[i].answer != Crashed
  }

  /** A crash cut the commands short. */
  ghost predicate CutShort(t: seq<Event>, cs: seq<Command>) {
    && 0 < |t| <= |cs| && t[|t| - 1].answer == Crashed
    && forall i :: 0 <= i < |t| ==> t[i].cmd == cs[i] && (i < |t| - 1 ==> t[i].answer != Crashed)
  }

  ghost predicate Followed(t: seq<Event>, cs: seq<Command>, ok: bool) {
    if ok then CarriedOut(t, cs) else CutShort(t, cs)
  }

  lemma {:induction false} FollowedAppend(t: seq<Event>, cs: seq<Command>, t': seq<Event>, cs': seq<Command>, ok: bool)
    requires CarriedOut(t, cs) && Followed(t', cs', ok)
    ensures Followed(t + t', cs + cs', ok)
  {
  }

  lemma {:induction false} CutLonger(t: seq<Event>, cs: seq<Command>, cs': seq<Command>)
    requires CutShort(t, cs) && cs <= cs'
    ensures CutShort(t, cs')
  {
  }

  lemma {:induction false} GroupDropsExtend(g: Resource, n: nat, h: Option<string>)
    requires n <= |g.rules|
    ensures GroupDrops(g, n, h) <= GroupDrops(g, |g.rules|, h)
    decreases |g.rules| - n
  {
    if n < |g.rules| { GroupDropsExtend(g, n + 1, h); }
  }

  lemma {:induction false} DropsExtend(groups: seq<Resource>, n: nat, h: Option<string>)
    requires n <= |groups|
    ensures Drops(groups, n, h) <= Drops(groups, |groups|, h)
    decreases |groups| - n
  {
    if n < |groups| { DropsExtend(groups, n + 1, h); }
  }

  /** The rules of one group that refer to the group being deleted. A rejected removal is ignored. */
  method DropGroupRules(cli: Cli, g: Resource, h: Option<string>) returns (ok: bool, ghost seg: seq<Event>)
    requires cli.Valid()
    modifies cli
    ensures cli.Valid() && cli.trace == old(cli.trace) + seg
    ensures Followed(seg, GroupDrops(g, |g.rules|, h), ok)
  {
    seg := [];
    for j := 0 to |g.rules|
      invariant cli.Valid() && cli.trace == old(cli.trace) + seg
      invariant CarriedOut(seg, GroupDrops(g, j, h))
    {
      var u := g.rules[j];
      if Refers(u, h) {
        var c := DropRule(g.id, u.id.value);
        var r := cli.Exec(c);
        FollowedAppend(seg, GroupDrops(g, j, h), [Event(c, r)], [c], r != Crashed);
        seg := seg + [Event(c, r)];
        if r == Crashed {
          GroupDropsExtend(g, j + 1, h);
          CutLonger(seg, GroupDrops(g, j + 1, h), GroupDrops(g, |g.rules|, h));
          return false, seg;
        }
      }
    }
    ok := true;
  }

  /** Removes, from every listed group, the rules that refer to the group being deleted. */
  method DropReferringRules(cli: Cli, groups: seq<Resource>, h: Option<string>)
    returns (ok: bool, ghost seg: seq<Event>)
    requires cli.Valid()
    modifies cli
    ensures cli.Valid() && cli.trace == old(cli.trace) + seg
    ensures Followed(seg, Drops(groups, |groups|, h), ok)
  {
    seg := [];
    for i := 0 to |groups|
      invariant cli.Valid() && cli.trace == old(cli.trace) + seg
      invariant Followed(seg, Drops(groups, i, h), true)
    {
      ghost var s;
      ok, s := DropGroupRules(cli, groups[i], h);
      DropsStep(seg, s, groups, i, h, ok);
      seg := seg + s;
      if !ok { return; }
    }
    ok := true;
  }

  lemma {:induction false} DropsStep(
    t: seq<Event>, s: seq<Event>, groups: seq<Resource>, i: nat, h: Option<string>, ok: bool)
    requires i < |groups| && Followed(t, Drops(groups, i, h), true)
    requires Followed(s, GroupDrops(groups[i], |groups[i].rules|, h), ok)
    ensures Followed(t + s, Drops(groups, if ok then i + 1 else |groups|, h), ok)
  {
    FollowedAppend(t, Drops(groups, i, h), s, GroupDrops(groups[i], |groups[i].rules|, h), ok);
    if !ok {
      DropsExtend(groups, i + 1, h);
      CutLonger(t + s, Drops(groups, i + 1, h), Drops(groups, |groups|, h));
    }
  }

  // ---------------------------------------------------------------------- one resource

  /** What was done about one matching resource. */
  datatype Part = Part(rules: seq<Event>, tries: seq<Event>, answer: Answer)

  /** The rule removals that precede a delete. */
  function Preface(kind: Kind, items: seq<Resource>, h: Option<string>): seq<Command> {
    if kind == SecurityGroup then Drops(items, |items|, h) else []
  }

  ghost predicate Handled(p: Part, kind: Kind, items: seq<Resource>, h: Option<string>) {
    if p.tries == [] then p.answer == Crashed && CutShort(p.rules, Preface(kind, items, h))
    else CarriedOut(p.rules, Preface(kind, items, h)) && Attempts(p.tries, kind, h, p.answer)
  }

  /** Deletes one matching resource in the way its kind asks for. */
  method DeleteOne(cli: Cli, kind: Kind, items: seq<Resource>, h: Option<string>)
    returns (a: Answer, ghost p: Part)
    requires cli.Valid()
    modifies cli
    ensures cli.Valid() && cli.trace == old(cli.trace) + p.rules + p.tries
    ensures a == p.answer && Handled(p, kind, items, h)
  {
    ghost var rules, tries := [], [];
    if kind == FloatingIp {
      a, tries := ReleaseFloatingIp(cli, h);
    } else {
      if kind == SecurityGroup {
        var ok;
        ok, rules := DropReferringRules(cli, items, h);
        if !ok { return Crashed, Part(rules, [], Crashed); }
      }
      a, tries := cli.ExecRetry(Delete(kind, h), 3);
    }
    p := Part(rules, tries, a);
  }

  // --------------------------------------------------------------------- all of one kind

  ghost function Events(parts: seq<Part>): seq<Event> {
    if parts == [] then [] else
    var n := |parts| - 1;
    Events(parts[..n]) + parts[n].rules + parts[n].tries
  }

  /** A crash ended the work on the last of these parts. */
  ghost predicate Broke(parts: seq<Part>) { parts != [] && parts[|parts| - 1].answer == Crashed }

  /** The resources were handled in order; only a crash ends the work before the last one. */
  ghost predicate Worked(parts: seq<Part>, kind: Kind, items: seq<Resource>, hs: seq<Option<string>>) {
    && |parts| <= |hs|
    && (forall j :: 0 <= j < |parts| ==> Handled(parts[j], kind, items, hs[j]))
    && (forall j :: 0 <= j < |parts| - 1 ==> parts[j].answer != Crashed)
    && (|parts| < |hs| ==> Broke(parts))
  }

  /** How many deletes were rejected. */
  ghost function Rejected(parts: seq<Part>): nat {
    if parts == [] then 0 else
    var n := |parts| - 1;
    Rejected(parts[..n]) + if parts[n].answer == Failed then 1 else 0
  }

  /** The identifiers whose delete was accepted, in order. */
  ghost function Deleted(parts: seq<Part>, hs: seq<Option<string>>): seq<Option<string>>
    requires |parts| <= |hs|
  {
    if parts == [] then [] else
    var n := |parts| - 1;
    Deleted(parts[..n], hs) + if parts[n].answer == Ok then [hs[n]] else []
  }

  /** One more part, seen through the functions of the parts. */
  lemma {:induction false} PartStep(parts: seq<Part>, p: Part, hs: seq<Option<string>>)
    requires |parts| < |hs|
    ensures Events(parts + [p]) == Events(parts) + p.rules + p.tries
    ensures Rejected(parts + [p]) == Rejected(parts) + if p.answer == Failed then 1 else 0
    ensures Deleted(parts + [p], hs) == Deleted(parts, hs) + if p.answer == Ok then [hs[|parts|]] else []
  {
    assert (parts + [p])[..|parts|] == parts;
  }

  /** The first resources were handled and nothing crashed. */
  ghost predicate Working(parts: seq<Part>, kind: Kind, items: seq<Resource>, hs: seq<Option<string>>) {
    && |parts| <= |hs|
    && forall j :: 0 <= j < |parts| ==> Handled(parts[j], kind, items, hs[j]) && parts[j].answer != Crashed
  }

  lemma {:induction false} WorkStep(
    parts: seq<Part>, p: Part, kind: Kind, items: seq<Resource>, hs: seq<Option<string>>)
    requires Working(parts, kind, items, hs) && |parts| < |hs| && Handled(p, kind, items, hs[|parts|])
    ensures if p.answer == Crashed then Worked(parts + [p], kind, items, hs) && Broke(parts + [p])
      else Working(parts + [p], kind, items, hs)
  {
    var all := parts + [p];
    forall j | 0 <= j < |all| ensures Handled(all[j], kind, items, hs[j]) {
      assert all[j] == if j < |parts| then parts[j] else p;
    }
  }

  lemma {:induction false} TraceGrows(base: seq<Event>, parts: seq<Part>, p: Part)
    ensures base + Events(parts) + p.rules + p.tries == base + (Events(parts) + p.rules + p.tries)
  {
  }

  /** The deletion loop of a delete method: a rejected delete does not stop it, a crash does. */
  method DeleteLoop(cli: Cli, kind: Kind, items: seq<Resource>, hs: seq<Option<string>>)
    returns (crashed: bool, errors: nat, accepted: seq<Option<string>>, ghost parts: seq<Part>)
    requires cli.Valid()
    modifies cli
    ensures cli.Valid() && cli.trace == old(cli.trace) + Events(parts)
    ensures Worked(parts, kind, items, hs) && (crashed <==> Broke(parts))
    ensures errors == Rejected(parts) && accepted == Deleted(parts, hs)
  {
    crashed, errors, accepted, parts := false, 0, [], [];
    for i := 0 to |hs|
      invariant cli.Valid() && cli.trace == old(cli.trace) + Events(parts)
      invariant |parts| == i && Working(parts, kind, items, hs)
      invariant errors == Rejected(parts) && accepted == Deleted(parts, hs)
    {
      var a;
      ghost var p;
      a, p := DeleteOne(cli, kind, items, hs[i]);
      WorkStep(parts, p, kind, items, hs);
      PartStep(parts, p, hs);
      TraceGrows(old(cli.trace), parts, p);
      parts := parts + [p];
      if a == Crashed { return true, errors, accepted, parts; }
      if a == Ok { accepted := accepted + [hs[i]]; } else { errors := errors + 1; }
    }
  }

  // --------------------------------------------------------------------------- the wait

  /** The accepted resources of these kinds are waited for. */
  predicate IsAwaited(kind: Kind) { kind == Instance || kind == LoadBalancer }

  /** How often a resource of a kind is probed at most. */
  ghost function WaitBound(kind: Kind): nat { if kind == Instance then 40 else 60 }

  /** At most that many probes for each of n resources. */
  ghost predicate WithinBound(w: seq<Event>, kind: Kind, n: nat) {
    if kind == Instance then |w| <= 40 * n else |w| <= 60 * n
  }

  /** The probes of the final wait: unless one crashes, every handle is probed until a probe
      fails or as often as permitted. */
  ghost predicate Waited(w: seq<Event>, kind: Kind, hs: seq<Option<string>>) {
    && (forall e :: e in w ==> e.cmd.Probe? && e.cmd.kind == kind && e.cmd.handle in hs)
    && (forall i :: 0 <= i < |w| - 1 ==> w[i].answer != Crashed)
    && (NoCrash(w) ==> forall h :: h in hs ==> Awaited(w, kind, h, WaitBound(kind)))
    && WithinBound(w, kind, |hs|)
  }

  /** Waits for each accepted resource; a timeout is ignored. */
  method WaitLoop(cli: Cli, kind: Kind, hs: seq<Option<string>>) returns (crashed: bool, ghost w: seq<Event>)
    requires cli.Valid() && IsAwaited(kind)
    modifies cli
    ensures cli.Valid() && cli.trace == old(cli.trace) + w
    ensures Waited(w, kind, hs) && (crashed <==> !NoCrash(w))
  {
    crashed, w := false, [];
    for i := 0 to |hs|
      invariant cli.Valid() && cli.trace == old(cli.trace) + w && Waiting(w, kind, hs, i)
    {
      crashed, w := WaitNext(cli, kind, hs, i, old(cli.trace), w);
      if crashed { return; }
    }
  }

  /** Waits for one more resource; `base` is the trace before the wait, `w` the wait so far. */
  method WaitNext(cli: Cli, kind: Kind, hs: seq<Option<string>>, i: nat, ghost base: seq<Event>, ghost w: seq<Event>)
    returns (crashed: bool, ghost w': seq<Event>)
    requires cli.Valid() && IsAwaited(kind) && i < |hs| && Waiting(w, kind, hs, i) && cli.trace == base + w
    modifies cli
    ensures cli.Valid() && cli.trace == base + w'
    ensures if crashed then Waited(w', kind, hs) && !NoCrash(w') else Waiting(w', kind, hs, i + 1)
  {
    var v;
    ghost var s;
    v, s := cli.WaitForDeletion(kind, hs[i], if kind == Instance then 40 else 60);
    WaitStep(w, kind, hs, i, s);
    Associate(base, w, s);
    crashed, w' := v == Raised, w + s;
  }

  /** The first n handles were waited for and nothing crashed. */
  ghost predicate Waiting(w: seq<Event>, kind: Kind, hs: seq<Option<string>>, n: nat)
    requires n <= |hs|
  {
    && NoCrash(w)
    && (forall e :: e in w ==> e.cmd.Probe? && e.cmd.kind == kind && e.cmd.handle in hs)
    && (forall j :: 0 <= j < n ==> Awaited(w, kind, hs[j], WaitBound(kind)))
    && WithinBound(w, kind, n)
  }

  lemma {:induction false} WaitStep(w: seq<Event>, kind: Kind, hs: seq<Option<string>>, n: nat, s: seq<Event>)
    requires n < |hs| && Waiting(w, kind, hs, n)
    requires forall e :: e in s ==> e.cmd == Probe(kind, hs[n])
    requires NoCrash(s) ==> Awaited(s, kind, hs[n], WaitBound(kind))
    requires forall i :: 0 <= i < |s| - 1 ==> s[i].answer == Ok
    requires |s| <= WaitBound(kind)
    ensures if NoCrash(s) then Waiting(w + s, kind, hs, n + 1) else Waited(w + s, kind, hs) && !NoCrash(w + s)
  {
    if !NoCrash(s) { CrashLast(w, s); }
  }

  lemma {:induction false} CrashLast(w: seq<Event>, s: seq<Event>)
    requires NoCrash(w) && !NoCrash(s) && forall i :: 0 <= i < |s| - 1 ==> s[i].answer == Ok
    ensures !NoCrash(w + s) && forall i :: 0 <= i < |w + s| - 1 ==> (w + s)[i].answer != Crashed
  {
    var e :| e in s && e.answer == Crashed;
    assert e in w + s;
    forall i | 0 <= i < |w + s| - 1 ensures (w + s)[i].answer != Crashed {
      if i < |w| { assert w[i] in w; }
    }
  }

  // ------------------------------------------------------------------- the delete methods

  /** What a delete method did. */
  datatype Record = Record(listed: Answer, parts: seq<Part>, waits: seq<Event>)

  ghost function TraceOf(kind: Kind, rec: Record): seq<Event> {
    [Event(List(kind), rec.listed)] + Events(rec.parts) + rec.waits
  }

  /** The listing was obtained and could be read. */
  ghost predicate Readable(rec: Record, l: Listing) { rec.listed == Ok && l.Listed? }

  /** One listing command; if it gives a listing, the matches are handled in order and, unless
      something crashed, the accepted ones of an awaited kind are waited for. */
  ghost predicate WellRun(rec: Record, kind: Kind, l: Listing, prefix: string) {
    if !Readable(rec, l) then rec.parts == [] && rec.waits == []
    else
      var hs := Handles(kind, l.items, prefix);
      && Worked(rec.parts, kind, l.items, hs)
      && if IsAwaited(kind) && !Broke(rec.parts) then Waited(rec.waits, kind, Deleted(rec.parts, hs))
         else rec.waits == []
  }

  /** An exception other than a rejected delete ended the method body. */
  ghost predicate Interrupted(rec: Record, l: Listing) {
    !Readable(rec, l) || Broke(rec.parts) || !NoCrash(rec.waits)
  }

  /** Every rejected delete is an error, and so is the exception that ends the body. */
  ghost function ErrorCount(rec: Record, l: Listing): nat {
    Rejected(rec.parts) + if Interrupted(rec, l) then 1 else 0
  }

  /** The shared shape of the six delete methods: list, filter by prefix, delete each match,
      then wait for the accepted ones where the kind is waited for. */
  method DeleteMatching(cli: Cli, kind: Kind, prefix: string) returns (count: nat, errors: nat, ghost rec: Record)
    requires cli.Valid()
    modifies cli
    ensures cli.Valid() && cli.trace == old(cli.trace) + TraceOf(kind, rec)
    ensures WellRun(rec, kind, cli.listing(kind), prefix)
    ensures errors == ErrorCount(rec, cli.listing(kind))
    ensures count == if Readable(rec, cli.listing(kind)) then |Filter(kind, cli.listing(kind).items, prefix)| else 0
  {
    ghost var base := cli.trace;
    var a := cli.Exec(List(kind));
    var l := cli.listing(kind);
    rec := Record(a, [], []);
    if a != Ok || l.Unreadable? { return 0, 1, rec; }
    var hs := Handles(kind, l.items, prefix);
    var crashed, accepted;
    ghost var parts, w := [], [];
    crashed, errors, accepted, parts := DeleteLoop(cli, kind, l.items, hs);
    count := |hs|;
    if crashed {
      errors := errors + 1;
    } else if IsAwaited(kind) {
      crashed, w := WaitLoop(cli, kind, accepted);
      if crashed { errors := errors + 1; }
    }
    rec := Record(a, parts, w);
    TraceParts(base, [Event(List(kind), a)], Events(parts), w);
  }

  lemma {:induction false} TraceParts(base: seq<Event>, a: seq<Event>, b: seq<Event>, c: seq<Event>)
    ensures base + a + b + c == base + (a + b + c)
    ensures base + a + b == base + (a + b + [])
  {
  }
}
