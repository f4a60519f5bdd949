/** `destroy_cluster_from_existing_vpc`: the six delete methods in order, and what every run of
    them guarantees, whatever the listings and whichever commands fail. */
module Destroy {
  import opened Py
  import opened Cloud
  import opened Teardown
  import opened TeardownLaws

  /** The order in which the kinds are torn down. */
  function KindAt(i: nat): Kind
    requires i < 6
  {
    match i
    case 0 => Instance
    case 1 => FloatingIp
    case 2 => LoadBalancer
    case 3 => SecurityGroup
    case 4 => CosInstance
    case _ => Image
  }

  function Rank(k: Kind): (i: nat)
    ensures i < 6 && KindAt(i) == k
  {
    match k
    case Instance => 0
    case FloatingIp => 1
    case LoadBalancer => 2
    case SecurityGroup => 3
    case CosInstance => 4
    case Image => 5
  }

  lemma {:induction false} RankOfKind(i: nat)
    requires i < 6
    ensures Rank(KindAt(i)) == i
  {
  }

  type Listings = Kind -> Listing

  // ----------------------------------------------------------- what the trace must show

  /** Every command is one that its kind's delete method may issue. */
  ghost predicate Safe(t: seq<Event>, ls: Listings, prefix: string) {
    forall e :: e in t ==> Allowed(e.cmd, KindOf(e.cmd), ls(KindOf(e.cmd)), prefix)
  }

  /** No command of a kind comes after a command of a later kind. */
  ghost predicate InOrder(t: seq<Event>) {
    forall i, j :: 0 <= i < j < |t| ==> Rank(KindOf(t[i].cmd)) <= Rank(KindOf(t[j].cmd))
  }

  /** Nothing is done about a kind after one of its commands crashed. */
  ghost predicate CrashStops(t: seq<Event>) {
    forall i, j :: 0 <= i < j < |t| && t[i].answer == Crashed ==> KindOf(t[i].cmd) != KindOf(t[j].cmd)
  }

  /** No event of the trace concerns the kind. */
  ghost predicate Free(t: seq<Event>, k: Kind) { forall e :: e in t ==> KindOf(e.cmd) != k }

  /** The kind is listed once, before anything else is done about it. */
  ghost predicate ListedFirst(t: seq<Event>, k: Kind) {
    exists i :: 0 <= i < |t| && ListedAt(t, k, i)
  }

  ghost predicate ListedAt(t: seq<Event>, k: Kind, i: nat)
    requires i < |t|
  {
    && t[i].cmd == List(k)
    && forall j :: 0 <= j < |t| && KindOf(t[j].cmd) == k && j != i ==> i < j && !t[j].cmd.List?
  }

  /** The listing failed or cannot be read, or a command of the kind crashed. */
  ghost predicate Broken(t: seq<Event>, k: Kind, l: Listing) {
    || Event(List(k), Ok) !in t
    || l.Unreadable?
    || exists e :: e in t && KindOf(e.cmd) == k && e.answer == Crashed
  }

  /** How many of the first n kinds are broken. */
  ghost function BrokenKinds(t: seq<Event>, ls: Listings, n: nat): nat
    requires n <= 6
  {
    if n == 0 then 0
    else BrokenKinds(t, ls, n - 1) + if Broken(t, KindAt(n - 1), ls(KindAt(n - 1))) then 1 else 0
  }

  /** The errors that a trace shows: rejected deletes and broken kinds. */
  ghost function Faults(t: seq<Event>, ls: Listings): nat { Rejections(t) + BrokenKinds(t, ls, 6) }

  /** Every match of the kind is settled. */
  ghost predicate KindSettled(t: seq<Event>, k: Kind, l: Listing, prefix: string)
    requires l.Listed?
  {
    forall r :: r in l.items && Matches(k, r, prefix) ==> Settled(t, k, l.items, Handle(k, r))
  }

  /** Every kind is listed, and its matches are settled unless it is broken. */
  ghost predicate Thorough(t: seq<Event>, ls: Listings, prefix: string) {
    forall k :: ListedFirst(t, k) && (!Broken(t, k, ls(k)) ==> KindSettled(t, k, ls(k), prefix))
  }

  /** Every listed match of all six kinds is gone and nothing crashed. */
  ghost predicate AllGone(t: seq<Event>, ls: Listings, prefix: string) {
    NoCrash(t) && forall k :: Complete(t, k, ls(k), prefix)
  }

  // -------------------------------------------------------------------- the whole run

  /** The trace of the first delete methods, one after the other. */
  ghost function Whole(recs: seq<Record>): seq<Event>
    requires |recs| <= 6
  {
    if recs == [] then [] else
    var n := |recs| - 1;
    Whole(recs[..n]) + TraceOf(KindAt(n), recs[n])
  }

  ghost function TotalErrors(recs: seq<Record>, ls: Listings): nat
    requires |recs| <= 6
  {
    if recs == [] then 0 else
    var n := |recs| - 1;
    TotalErrors(recs[..n], ls) + ErrorCount(recs[n], ls(KindAt(n)))
  }

  /** Each delete method ran as it should. */
  ghost predicate AllWellRun(recs: seq<Record>, ls: Listings, prefix: string) {
    |recs| <= 6 && forall i :: 0 <= i < |recs| ==> WellRun(recs[i], KindAt(i), ls(KindAt(i)), prefix)
  }

  lemma {:induction false} RecordKind(rec: Record, k: Kind, l: Listing, prefix: string)
    requires WellRun(rec, k, l, prefix)
    ensures forall e :: e in TraceOf(k, rec) ==> KindOf(e.cmd) == k && Allowed(e.cmd, k, l, prefix)
  {
    forall e | e in TraceOf(k, rec) ensures KindOf(e.cmd) == k && Allowed(e.cmd, k, l, prefix) {
      RecordAllowed(rec, k, l, prefix, e);
    }
  }

  lemma {:induction false} WholeSafe(recs: seq<Record>, ls: Listings, prefix: string)
    requires AllWellRun(recs, ls, prefix)
    ensures Safe(Whole(recs), ls, prefix)
    ensures forall e :: e in Whole(recs) ==> Rank(KindOf(e.cmd)) < |recs|
  {
    if recs != [] {
      var n := |recs| - 1;
      WholeSafe(recs[..n], ls, prefix);
      RecordKind(recs[n], KindAt(n), ls(KindAt(n)), prefix);
      RankOfKind(n);
    }
  }

  lemma {:induction false} OrderAppend(t: seq<Event>, s: seq<Event>, n: nat)
    requires InOrder(t) && forall e :: e in t ==> Rank(KindOf(e.cmd)) < n
    requires forall e :: e in s ==> Rank(KindOf(e.cmd)) == n
    ensures InOrder(t + s)
  {
    var u := t + s;
    forall i, j | 0 <= i < j < |u| ensures Rank(KindOf(u[i].cmd)) <= Rank(KindOf(u[j].cmd)) {
      if i < |t| {
        assert t[i] in t;
        if j < |t| { assert Rank(KindOf(t[i].cmd)) <= Rank(KindOf(t[j].cmd)); } else { assert s[j - |t|] in s; }
      } else {
        assert s[i - |t|] in s && s[j - |t|] in s;
      }
    }
  }

  lemma {:induction false} CrashAppend(t: seq<Event>, s: seq<Event>, k: Kind)
    requires CrashStops(t) && Free(t, k) && CrashLastOnly(s) && forall e :: e in s ==> KindOf(e.cmd) == k
    ensures CrashStops(t + s)
  {
    var u := t + s;
    forall i, j | 0 <= i < j < |u| && u[i].answer == Crashed ensures KindOf(u[i].cmd) != KindOf(u[j].cmd) {
      assert i < |t| && t[i] in t;
      if j >= |t| { assert s[j - |t|] in s; }
    }
  }

  /** A crash ends the work on its own kind and on no other. */
  lemma {:induction false} WholeCrash(recs: seq<Record>, ls: Listings, prefix: string)
    requires AllWellRun(recs, ls, prefix)
    ensures CrashStops(Whole(recs))
  {
    if recs != [] {
      var n := |recs| - 1;
      WholeCrash(recs[..n], ls, prefix);
      WholeSafe(recs[..n], ls, prefix);
      RecordKind(recs[n], KindAt(n), ls(KindAt(n)), prefix);
      RecordCrash(recs[n], KindAt(n), ls(KindAt(n)), prefix);
      RankOfKind(n);
      CrashAppend(Whole(recs[..n]), TraceOf(KindAt(n), recs[n]), KindAt(n));
    }
  }

  lemma {:induction false} WholeInOrder(recs: seq<Record>, ls: Listings, prefix: string)
    requires AllWellRun(recs, ls, prefix)
    ensures InOrder(Whole(recs))
  {
    if recs != [] {
      var n := |recs| - 1;
      WholeInOrder(recs[..n], ls, prefix);
      WholeSafe(recs[..n], ls, prefix);
      RecordKind(recs[n], KindAt(n), ls(KindAt(n)), prefix);
      RankOfKind(n);
      OrderAppend(Whole(recs[..n]), TraceOf(KindAt(n), recs[n]), n);
    }
  }

  /** The events of a kind are those of its own delete method. */
  lemma {:induction false} Isolate(recs: seq<Record>, ls: Listings, prefix: string, i: nat)
    returns (pre: seq<Event>, post: seq<Event>)
    requires AllWellRun(recs, ls, prefix) && i < |recs|
    ensures Whole(recs) == pre + TraceOf(KindAt(i), recs[i]) + post
    ensures Free(pre, KindAt(i)) && Free(post, KindAt(i))
  {
    var n := |recs| - 1;
    if i == n {
      pre, post := Whole(recs[..n]), [];
      WholeSafe(recs[..n], ls, prefix);
      RankOfKind(n);
    } else {
      pre, post := Isolate(recs[..n], ls, prefix, i);
      var s := TraceOf(KindAt(n), recs[n]);
      RecordKind(recs[n], KindAt(n), ls(KindAt(n)), prefix);
      RankOfKind(n);
      RankOfKind(i);
      Associate(pre + TraceOf(KindAt(i), recs[i]), post, s);
      post := post + s;
    }
  }

  // ---------------------------------------------------- from one method to the whole run

  lemma {:induction false} SameEvents(pre: seq<Event>, s: seq<Event>, post: seq<Event>, k: Kind)
    requires Free(pre, k) && Free(post, k)
    ensures forall e: Event :: KindOf(e.cmd) == k ==> (e in pre + s + post <==> e in s)
  {
  }

  lemma {:induction false} BrokenInside(
    rec: Record, k: Kind, l: Listing, prefix: string, pre: seq<Event>, post: seq<Event>)
    requires WellRun(rec, k, l, prefix) && Free(pre, k) && Free(post, k)
    ensures Broken(pre + TraceOf(k, rec) + post, k, l) <==> Interrupted(rec, l)
  {
    var s := TraceOf(k, rec);
    SameEvents(pre, s, post, k);
    RecordKind(rec, k, l, prefix);
    RecordCrash(rec, k, l, prefix);
    assert s[0] in s;
    if Event(List(k), Ok) in s { RecordAllowed(rec, k, l, prefix, Event(List(k), Ok)); }
  }

  lemma {:induction false} ListedInside(
    rec: Record, k: Kind, l: Listing, prefix: string, pre: seq<Event>, post: seq<Event>)
    requires WellRun(rec, k, l, prefix) && Free(pre, k) && Free(post, k)
    ensures ListedFirst(pre + TraceOf(k, rec) + post, k)
  {
    var s := TraceOf(k, rec);
    var t := pre + s + post;
    assert forall j :: 0 <= j < |pre| ==> pre[j] in pre;
    assert forall j :: 0 <= j < |post| ==> post[j] in post;
    forall j | 0 <= j < |t| && KindOf(t[j].cmd) == k && j != |pre| ensures |pre| < j && !t[j].cmd.List? {
      if |pre| < j < |pre| + |s| { ListsOnce(rec, k, l, prefix, j - |pre|); }
    }
    assert ListedAt(t, k, |pre|);
  }

  lemma {:induction false} SettledInside(
    pre: seq<Event>, s: seq<Event>, post: seq<Event>, k: Kind, items: seq<Resource>, h: Option<string>)
    requires Settled(s, k, items, h) && Free(pre, k) && Free(post, k)
    ensures Settled(pre + s + post, k, items, h)
  {
    var t := pre + s + post;
    SameEvents(pre, s, post, k);
    assert Accepted(t, k, h) <==> Accepted(s, k, h);
    if RejectedIn(s, k, h) {
      var i :| 0 <= i < |s| && RejectedAt(s, k, h, i);
      RejectedInside(pre, s, post, k, h, i);
    }
    if IsAwaited(k) && Accepted(s, k, h) {
      AwaitedInside(pre, s, k, h, WaitBound(k));
      AwaitedInside(post, pre + s, k, h, WaitBound(k));
    }
  }

  /** THOROUGH: each kind is listed and, unless broken, settled, whatever happened to the others. */
  lemma {:induction false} WholeThorough(recs: seq<Record>, ls: Listings, prefix: string)
    requires AllWellRun(recs, ls, prefix) && |recs| == 6
    ensures Thorough(Whole(recs), ls, prefix)
  {
    var t := Whole(recs);
    forall k ensures ListedFirst(t, k) && (!Broken(t, k, ls(k)) ==> KindSettled(t, k, ls(k), prefix)) {
      var rec := recs[Rank(k)];
      var pre, post := Isolate(recs, ls, prefix, Rank(k));
      ListedInside(rec, k, ls(k), prefix, pre, post);
      BrokenInside(rec, k, ls(k), prefix, pre, post);
      if !Broken(t, k, ls(k)) { SettledKind(rec, k, ls(k), prefix, pre, post); }
    }
  }

  lemma {:induction false} SettledKind(
    rec: Record, k: Kind, l: Listing, prefix: string, pre: seq<Event>, post: seq<Event>)
    requires WellRun(rec, k, l, prefix) && !Interrupted(rec, l) && Free(pre, k) && Free(post, k)
    ensures KindSettled(pre + TraceOf(k, rec) + post, k, l, prefix)
  {
    forall r | r in l.items && Matches(k, r, prefix)
      ensures Settled(pre + TraceOf(k, rec) + post, k, l.items, Handle(k, r))
    {
      assert Handle(k, r) in Handles(k, l.items, prefix);
      RecordSettled(rec, k, l, prefix, Handle(k, r));
      SettledInside(pre, TraceOf(k, rec), post, k, l.items, Handle(k, r));
    }
  }

  // ----------------------------------------------------------------------------- counting

  /** The rejected deletes of all methods. */
  ghost function AllRejected(recs: seq<Record>): nat {
    if recs == [] then 0 else AllRejected(recs[..|recs| - 1]) + Rejected(recs[|recs| - 1].parts)
  }

  ghost function AllInterrupted(recs: seq<Record>, ls: Listings): nat
    requires |recs| <= 6
  {
    if recs == [] then 0 else
    var n := |recs| - 1;
    AllInterrupted(recs[..n], ls) + if Interrupted(recs[n], ls(KindAt(n))) then 1 else 0
  }

  lemma {:induction false} ErrorsSplit(recs: seq<Record>, ls: Listings)
    requires |recs| <= 6
    ensures TotalErrors(recs, ls) == AllRejected(recs) + AllInterrupted(recs, ls)
  {
    if recs != [] { ErrorsSplit(recs[..|recs| - 1], ls); }
  }

  lemma {:induction false} WholeRejections(recs: seq<Record>, ls: Listings, prefix: string, u: seq<Event>)
    requires AllWellRun(recs, ls, prefix)
    ensures Rejections(Whole(recs) + u) == AllRejected(recs) + Rejections(u)
  {
    if recs == [] {
      assert Whole(recs) + u == u;
    } else {
      var n := |recs| - 1;
      var s := TraceOf(KindAt(n), recs[n]);
      Associate(Whole(recs[..n]), s, u);
      WholeRejections(recs[..n], ls, prefix, s + u);
      RecordRejections(recs[n], KindAt(n), ls(KindAt(n)), prefix, u);
    }
  }

  lemma {:induction false} KindBroken(recs: seq<Record>, ls: Listings, prefix: string, i: nat)
    requires AllWellRun(recs, ls, prefix) && i < |recs|
    ensures Broken(Whole(recs), KindAt(i), ls(KindAt(i))) <==> Interrupted(recs[i], ls(KindAt(i)))
  {
    var pre, post := Isolate(recs, ls, prefix, i);
    BrokenInside(recs[i], KindAt(i), ls(KindAt(i)), prefix, pre, post);
  }

  lemma {:induction false} BrokenCount(t: seq<Event>, recs: seq<Record>, ls: Listings)
    requires |recs| <= 6
    requires forall i :: 0 <= i < |recs| ==> (Broken(t, KindAt(i), ls(KindAt(i))) <==>
      Interrupted(recs[i], ls(KindAt(i))))
    ensures BrokenKinds(t, ls, |recs|) == AllInterrupted(recs, ls)
  {
    if recs != [] { BrokenCount(t, recs[..|recs| - 1], ls); }
  }

  /** EXACT COUNT: the errors of the six methods are the faults that the trace shows. */
  lemma {:induction false} ErrorsAreFaults(recs: seq<Record>, ls: Listings, prefix: string)
    requires AllWellRun(recs, ls, prefix) && |recs| == 6
    ensures TotalErrors(recs, ls) == Faults(Whole(recs), ls)
  {
    ErrorsSplit(recs, ls);
    WholeRejections(recs, ls, prefix, []);
    assert Whole(recs) + [] == Whole(recs);
    forall i | 0 <= i < 6
      ensures Broken(Whole(recs), KindAt(i), ls(KindAt(i))) <==> Interrupted(recs[i], ls(KindAt(i)))
    {
      KindBroken(recs, ls, prefix, i);
    }
    BrokenCount(Whole(recs), recs, ls);
  }

  // -------------------------------------------------------------------- what faults mean

  /** A listing failed or cannot be read, something crashed, or some delete was rejected. */
  ghost predicate Trouble(t: seq<Event>, ls: Listings) {
    || (exists k :: Event(List(k), Ok) !in t || ls(k).Unreadable?)
    || !NoCrash(t)
    || exists k, h :: RejectedIn(t, k, h)
  }

  lemma {:induction false} SomeBroken(t: seq<Event>, ls: Listings, n: nat)
    requires n <= 6
    ensures BrokenKinds(t, ls, n) == 0 <==> forall i :: 0 <= i < n ==> !Broken(t, KindAt(i), ls(KindAt(i)))
  {
    if n > 0 { SomeBroken(t, ls, n - 1); }
  }

  lemma {:induction false} SomeRejected(t: seq<Event>)
    ensures Rejections(t) > 0 <==> exists k, h :: RejectedIn(t, k, h)
  {
    NoRejection(t);
    if k, h :| RejectedIn(t, k, h) {
      var i :| 0 <= i < |t| && RejectedAt(t, k, h, i);
      StartsAt(t, k, h, i);
    }
    if i :| 0 <= i < |t| && Starts(t[i..]) {
      var c := t[i..][0].cmd;
      assert RejectedAt(t, c.kind, c.handle, i);
      assert RejectedIn(t, c.kind, c.handle);
    }
  }

  /** A trace shows a fault exactly when there was trouble. */
  lemma {:induction false} FaultsAreTrouble(t: seq<Event>, ls: Listings)
    ensures Faults(t, ls) > 0 <==> Trouble(t, ls)
  {
    NoneBroken(t, ls);
    SomeRejected(t);
    if !NoCrash(t) {
      var e :| e in t && e.answer == Crashed;
      assert Broken(t, KindOf(e.cmd), ls(KindOf(e.cmd)));
    }
  }

  lemma {:induction false} NoneBroken(t: seq<Event>, ls: Listings)
    ensures BrokenKinds(t, ls, 6) == 0 <==> forall k :: !Broken(t, k, ls(k))
  {
    SomeBroken(t, ls, 6);
    if BrokenKinds(t, ls, 6) == 0 {
      forall k ensures !Broken(t, k, ls(k)) { assert !Broken(t, KindAt(Rank(k)), ls(KindAt(Rank(k)))); }
    }
  }

  /** Without a fault, a thorough teardown leaves nothing behind. */
  lemma {:induction false} NoFaultAllGone(t: seq<Event>, ls: Listings, prefix: string)
    requires Thorough(t, ls, prefix) && Faults(t, ls) == 0
    ensures AllGone(t, ls, prefix)
  {
    FaultsAreTrouble(t, ls);
    forall k ensures Complete(t, k, ls(k), prefix) {
      assert !Broken(t, k, ls(k));
      forall r | r in ls(k).items && Matches(k, r, prefix) ensures Accepted(t, k, Handle(k, r)) {
        assert Settled(t, k, ls(k).items, Handle(k, r));
      }
    }
  }

  // ------------------------------------------------------- the same, resource by resource

  /** The resource has a name that starts with the text. */
  ghost predicate Named(r: Resource, text: string) { r.name.Some? && text <= r.name.value }

  /** The rule can be named in a command and refers to the group. */
  ghost predicate PointsAt(u: Rule, sg: Resource) { u.remote == sg.id && u.id.Some? && u.id.value != "" }

  /** Every listed resource of the cluster is gone: an accepted delete by identifier, by guid for
      object storage; load balancers also under their kube- name, private images only. */
  ghost predicate NothingLeft(t: seq<Event>, ls: Listings, prefix: string) {
    && (forall k :: ls(k).Listed?)
    && (forall r :: r in ls(Instance).items && Named(r, prefix) ==> Event(Delete(Instance, r.id), Ok) in t)
    && (forall r :: r in ls(FloatingIp).items && Named(r, prefix) ==>
          Event(Delete(FloatingIp, r.id), Ok) in t || Event(Probe(FloatingIp, r.id), Failed) in t)
    && (forall r :: r in ls(LoadBalancer).items && (Named(r, prefix) || Named(r, "kube-" + prefix)) ==>
          Event(Delete(LoadBalancer, r.id), Ok) in t)
    && (forall r :: r in ls(SecurityGroup).items && Named(r, prefix) ==> Event(Delete(SecurityGroup, r.id), Ok) in t)
    && (forall r :: r in ls(CosInstance).items && Named(r, prefix) ==> Event(Delete(CosInstance, r.guid), Ok) in t)
    && (forall r :: r in ls(Image).items && Named(r, prefix) && r.isPrivate ==> Event(Delete(Image, r.id), Ok) in t)
  }

  /** Each listed rule that refers to a group of the cluster got a removal command. */
  ghost predicate RulesRemoved(t: seq<Event>, l: Listing, prefix: string)
    requires l.Listed?
  {
    forall sg, g, u :: sg in l.items && g in l.items && u in g.rules && Named(sg, prefix) && PointsAt(u, sg) ==>
      exists e :: e in t && e.cmd == DropRule(g.id, u.id.value)
  }

  /** Each deleted instance was probed until gone or 40 times, each load balancer 60 times. */
  ghost predicate WaitedFor(t: seq<Event>, ls: Listings, prefix: string) {
    && (forall h :: !Broken(t, Instance, ls(Instance)) && Event(Delete(Instance, h), Ok) in t ==>
          Event(Probe(Instance, h), Failed) in t || multiset(t)[Event(Probe(Instance, h), Ok)] >= 40)
    && (forall h :: !Broken(t, LoadBalancer, ls(LoadBalancer)) && Event(Delete(LoadBalancer, h), Ok) in t ==>
          Event(Probe(LoadBalancer, h), Failed) in t || multiset(t)[Event(Probe(LoadBalancer, h), Ok)] >= 60)
  }

  /** The identifier is that of a listed resource of the cluster. */
  ghost predicate OwnHandle(k: Kind, h: Option<string>, ls: Listings, prefix: string) {
    ls(k).Listed? &&
    match k
    case LoadBalancer =>
      exists r :: r in ls(k).items && (Named(r, prefix) || Named(r, "kube-" + prefix)) && h == r.id
    case CosInstance => exists r :: r in ls(k).items && Named(r, prefix) && h == r.guid
    case Image => exists r :: r in ls(k).items && Named(r, prefix) && r.isPrivate && h == r.id
    case _ => exists r :: r in ls(k).items && Named(r, prefix) && h == r.id
  }

  /** The rule is one of a listed group and refers to a listed group of the cluster. */
  ghost predicate OwnRule(group: Option<string>, rule: string, ls: Listings, prefix: string) {
    ls(SecurityGroup).Listed? && exists g, u, sg ::
      && g in ls(SecurityGroup).items && u in g.rules && sg in ls(SecurityGroup).items && Named(sg, prefix)
      && u.remote == sg.id && group == g.id && u.id == Some(rule) && rule != ""
  }

  /** Nothing but resources of the cluster is deleted, probed or stripped of rules. */
  ghost predicate OnlyOurs(t: seq<Event>, ls: Listings, prefix: string) {
    && (forall e :: e in t && (e.cmd.Delete? || e.cmd.Probe?) ==> OwnHandle(e.cmd.kind, e.cmd.handle, ls, prefix))
    && (forall e :: e in t && e.cmd.DropRule? ==> OwnRule(e.cmd.group, e.cmd.rule, ls, prefix))
  }

  /** The name filter and the identifier of each kind. */
  lemma {:induction false} MatchMeaning(k: Kind, r: Resource, prefix: string)
    requires prefix != ""
    ensures Matches(k, r, prefix) <==>
      && (Named(r, prefix) || (k == LoadBalancer && Named(r, "kube-" + prefix)))
      && (k == Image ==> r.isPrivate)
    ensures Handle(k, r) == if k == CosInstance then r.guid else r.id
  {
  }

  lemma {:induction false} OwnTarget(k: Kind, h: Option<string>, ls: Listings, prefix: string)
    requires prefix != "" && Targets(k, ls(k), prefix, h)
    ensures OwnHandle(k, h, ls, prefix)
  {
    var r :| r in ls(k).items && Matches(k, r, prefix) && Handle(k, r) == h;
    MatchMeaning(k, r, prefix);
  }

  lemma {:induction false} SafeMeansOurs(t: seq<Event>, ls: Listings, prefix: string)
    requires prefix != "" && Safe(t, ls, prefix)
    ensures OnlyOurs(t, ls, prefix)
  {
    forall e | e in t && (e.cmd.Delete? || e.cmd.Probe?) ensures OwnHandle(e.cmd.kind, e.cmd.handle, ls, prefix) {
      OwnTarget(e.cmd.kind, e.cmd.handle, ls, prefix);
    }
    forall e | e in t && e.cmd.DropRule? ensures OwnRule(e.cmd.group, e.cmd.rule, ls, prefix) {
      var l := ls(SecurityGroup);
      var g, u, sg :| g in l.items && u in g.rules && sg in l.items && Matches(SecurityGroup, sg, prefix)
        && g.id == e.cmd.group && u.id == Some(e.cmd.rule) && u.remote == sg.id;
      MatchMeaning(SecurityGroup, sg, prefix);
    }
  }

  lemma {:induction false} GoneMeansNothingLeft(t: seq<Event>, ls: Listings, prefix: string)
    requires prefix != "" && AllGone(t, ls, prefix)
    ensures NothingLeft(t, ls, prefix)
  {
    forall k ensures Complete(t, k, ls(k), prefix) { }
    forall k: Kind, r: Resource ensures Matches(k, r, prefix) <==>
      (Named(r, prefix) || (k == LoadBalancer && Named(r, "kube-" + prefix))) && (k == Image ==> r.isPrivate)
    {
      MatchMeaning(k, r, prefix);
    }
  }

  lemma {:induction false} ThoroughRules(t: seq<Event>, ls: Listings, prefix: string)
    requires prefix != "" && Thorough(t, ls, prefix) && !Broken(t, SecurityGroup, ls(SecurityGroup))
    ensures RulesRemoved(t, ls(SecurityGroup), prefix)
  {
    var l := ls(SecurityGroup);
    assert KindSettled(t, SecurityGroup, l, prefix);
    forall sg, g, u | sg in l.items && g in l.items && u in g.rules && Named(sg, prefix) && PointsAt(u, sg)
      ensures exists e :: e in t && e.cmd == DropRule(g.id, u.id.value)
    {
      MatchMeaning(SecurityGroup, sg, prefix);
      assert Settled(t, SecurityGroup, l.items, sg.id);
      assert RuleDrop(DropRule(g.id, u.id.value), l.items, sg.id);
    }
  }

  lemma {:induction false} ThoroughWaits(t: seq<Event>, ls: Listings, prefix: string, k: Kind, h: Option<string>)
    requires Thorough(t, ls, prefix) && Safe(t, ls, prefix) && !Broken(t, k, ls(k)) && IsAwaited(k)
    requires Event(Delete(k, h), Ok) in t
    ensures Awaited(t, k, h, WaitBound(k))
  {
    assert KindSettled(t, k, ls(k), prefix);
    var e := Event(Delete(k, h), Ok);
    assert Allowed(e.cmd, k, ls(k), prefix);
    var r :| r in ls(k).items && Matches(k, r, prefix) && Handle(k, r) == h;
    assert Settled(t, k, ls(k).items, h);
  }

  lemma {:induction false} AllWaitedFor(t: seq<Event>, ls: Listings, prefix: string)
    requires Thorough(t, ls, prefix) && Safe(t, ls, prefix)
    ensures WaitedFor(t, ls, prefix)
  {
    forall h | !Broken(t, Instance, ls(Instance)) && Event(Delete(Instance, h), Ok) in t
      ensures Awaited(t, Instance, h, 40)
    {
      ThoroughWaits(t, ls, prefix, Instance, h);
    }
    forall h | !Broken(t, LoadBalancer, ls(LoadBalancer)) && Event(Delete(LoadBalancer, h), Ok) in t
      ensures Awaited(t, LoadBalancer, h, 60)
    {
      ThoroughWaits(t, ls, prefix, LoadBalancer, h);
    }
  }

  /** What a teardown means, resource by resource. */
  ghost predicate Accounted(t: seq<Event>, ls: Listings, prefix: string, o: Outcome) {
    && OnlyOurs(t, ls, prefix) && WaitedFor(t, ls, prefix)
    && (!Broken(t, SecurityGroup, ls(SecurityGroup)) ==> RulesRemoved(t, ls(SecurityGroup), prefix))
    && (o == Returned ==> NothingLeft(t, ls, prefix))
  }

  lemma {:induction false} TornDownMeaning(t: seq<Event>, ls: Listings, prefix: string, o: Outcome)
    requires prefix != "" && TornDown(t, ls, prefix, o)
    ensures Accounted(t, ls, prefix, o)
  {
    Targeted(t, ls, prefix);
    Finished(t, ls, prefix, o);
  }

  lemma {:induction false} Targeted(t: seq<Event>, ls: Listings, prefix: string)
    requires prefix != "" && Safe(t, ls, prefix) && Thorough(t, ls, prefix)
    ensures OnlyOurs(t, ls, prefix) && WaitedFor(t, ls, prefix)
  {
    SafeMeansOurs(t, ls, prefix);
    AllWaitedFor(t, ls, prefix);
  }

  lemma {:induction false} Finished(t: seq<Event>, ls: Listings, prefix: string, o: Outcome)
    requires prefix != "" && Thorough(t, ls, prefix) && (o == Returned ==> AllGone(t, ls, prefix))
    ensures !Broken(t, SecurityGroup, ls(SecurityGroup)) ==> RulesRemoved(t, ls(SecurityGroup), prefix)
    ensures o == Returned ==> NothingLeft(t, ls, prefix)
  {
    if !Broken(t, SecurityGroup, ls(SecurityGroup)) { ThoroughRules(t, ls, prefix); }
    if o == Returned { GoneMeansNothingLeft(t, ls, prefix); }
  }

  // --------------------------------------------------------------------------- the method

  datatype Outcome = Returned | LeftoversExist(errors: nat)

  lemma {:induction false} NextRecord(recs: seq<Record>, rec: Record, ls: Listings, prefix: string, k: Kind)
    requires AllWellRun(recs, ls, prefix) && Rank(k) == |recs| && WellRun(rec, k, ls(k), prefix)
    ensures AllWellRun(recs + [rec], ls, prefix)
    ensures Whole(recs + [rec]) == Whole(recs) + TraceOf(k, rec)
    ensures TotalErrors(recs + [rec], ls) == TotalErrors(recs, ls) + ErrorCount(rec, ls(k))
  {
    assert (recs + [rec])[..|recs|] == recs;
  }

  /** One of the six blocks; `base` is the trace before the teardown. */
  method Block(cli: Cli, kind: Kind, prefix: string, errors: nat, ghost base: seq<Event>, ghost recs: seq<Record>)
    returns (count: nat, errors': nat, ghost recs': seq<Record>)
    requires cli.Valid() && AllWellRun(recs, cli.listing, prefix) && Rank(kind) == |recs|
    requires cli.trace == base + Whole(recs) && errors == TotalErrors(recs, cli.listing)
    modifies cli
    ensures cli.Valid() && AllWellRun(recs', cli.listing, prefix) && |recs'| == |recs| + 1
    ensures cli.trace == base + Whole(recs') && errors' == TotalErrors(recs', cli.listing)
  {
    ghost var rec;
    var more;
    count, more, rec := DeleteMatching(cli, kind, prefix);
    NextRecord(recs, rec, cli.listing, prefix, kind);
    Associate(base, Whole(recs), TraceOf(kind, rec));
    errors', recs' := errors + more, recs + [rec];
  }

  method SixBlocks(cli: Cli, prefix: string) returns (errors: nat, ghost recs: seq<Record>)
    requires cli.Valid()
    modifies cli
    ensures cli.Valid() && AllWellRun(recs, cli.listing, prefix) && |recs| == 6
    ensures cli.trace == old(cli.trace) + Whole(recs) && errors == TotalErrors(recs, cli.listing)
  {
    var vsis, fips, lbs, groups, cos, images;
    ghost var base := cli.trace;
    vsis, errors, recs := Block(cli, Instance, prefix, 0, base, []);
    fips, errors, recs := Block(cli, FloatingIp, prefix, errors, base, recs);
    lbs, errors, recs := Block(cli, LoadBalancer, prefix, errors, base, recs);
    groups, errors, recs := Block(cli, SecurityGroup, prefix, errors, base, recs);
    cos, errors, recs := Block(cli, CosInstance, prefix, errors, base, recs);
    images, errors, recs := Block(cli, Image, prefix, errors, base, recs);
  }

  /** Every command is allowed and in order; a crash stops its kind only; every kind is listed and,
      unless broken, settled; the error raised counts the faults of the trace, and without one
      everything is gone. */
  ghost predicate TornDown(t: seq<Event>, ls: Listings, prefix: string, o: Outcome) {
    && Safe(t, ls, prefix) && InOrder(t) && CrashStops(t) && Thorough(t, ls, prefix)
    && (o.LeftoversExist? <==> Trouble(t, ls))
    && (o.LeftoversExist? ==> o.errors == Faults(t, ls))
    && (o.Returned? ==> AllGone(t, ls, prefix))
  }

  lemma {:induction false} RunTornDown(recs: seq<Record>, ls: Listings, prefix: string, errors: nat)
    requires AllWellRun(recs, ls, prefix) && |recs| == 6 && errors == TotalErrors(recs, ls)
    ensures TornDown(Whole(recs), ls, prefix, if errors > 0 then LeftoversExist(errors) else Returned)
  {
    var t := Whole(recs);
    WholeSafe(recs, ls, prefix);
    WholeInOrder(recs, ls, prefix);
    WholeCrash(recs, ls, prefix);
    WholeThorough(recs, ls, prefix);
    ErrorsAreFaults(recs, ls, prefix);
    FaultsAreTrouble(t, ls);
    if errors == 0 { NoFaultAllGone(t, ls, prefix); }
  }

  /** `cli.Valid()` says that the trace holds the answers of the stream. */
  method DestroyFromExistingVpc(cli: Cli, prefix: string) returns (o: Outcome, ghost t: seq<Event>)
    requires cli.Valid()
    modifies cli
    ensures cli.Valid() && cli.trace == old(cli.trace) + t
    ensures prefix == "" ==> t == [] && o == Returned
    ensures prefix != "" ==> TornDown(t, cli.listing, prefix, o) && Accounted(t, cli.listing, prefix, o)
  {
    t := [];
    if prefix == "" { return Returned, t; }
    var errors;
    ghost var recs;
    errors, recs := SixBlocks(cli, prefix);
    o, t := if errors > 0 then LeftoversExist(errors) else Returned, Whole(recs);
    RunMeaning(recs, cli.listing, prefix, errors, o);
  }

  lemma {:induction false} RunMeaning(recs: seq<Record>, ls: Listings, prefix: string, errors: nat, o: Outcome)
    requires prefix != "" && AllWellRun(recs, ls, prefix) && |recs| == 6 && errors == TotalErrors(recs, ls)
    requires o == if errors > 0 then LeftoversExist(errors) else Returned
    ensures TornDown(Whole(recs), ls, prefix, o) && Accounted(Whole(recs), ls, prefix, o)
  {
    RunTornDown(recs, ls, prefix, errors);
    TornDownMeaning(Whole(recs), ls, prefix, o);
  }
}
