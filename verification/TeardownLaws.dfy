/** What the record of one delete method says about its trace: rejected deletes can be counted in the
    trace alone, every command is allowed, every match is settled, and a crash comes last. */
module TeardownLaws {
  import opened Py
  import opened Cloud
  import opened Teardown

  // ------------------------------------------------------------------ counting rejections

  /** A rejected delete of the resource starts at step i. */
  ghost predicate RejectedAt(t: seq<Event>, kind: Kind, h: Option<string>, i: nat) {
    i <= |t| && Refuses(t[i..], kind, h, Span(kind))
  }

  /** A rejected delete starts here. */
  ghost predicate Starts(t: seq<Event>) {
    t != [] && t[0].cmd.Delete? && Refuses(t, t[0].cmd.kind, t[0].cmd.handle, Span(t[0].cmd.kind))
  }

  /** The number of rejected deletes in a trace, found by scanning it from the left. */
  ghost function Rejections(t: seq<Event>): nat {
    if t == [] then 0
    else if Starts(t) then 1 + Rejections(t[Span(t[0].cmd.kind)..])
    else Rejections(t[1..])
  }

  /** Steps at which nothing starts do not matter. */
  lemma {:induction false} Skip(t: seq<Event>, n: nat)
    requires n <= |t| && forall i :: 0 <= i < n ==> !Starts(t[i..])
    ensures Rejections(t) == Rejections(t[n..])
  {
    if n == 0 {
      assert t[0..] == t;
    } else {
      assert t[0..] == t;
      forall i | 0 <= i < n - 1 ensures !Starts(t[1..][i..]) { assert t[1..][i..] == t[i + 1..]; }
      Skip(t[1..], n - 1);
      assert t[1..][n - 1..] == t[n..];
    }
  }

  lemma {:induction false} SkipAppend(s: seq<Event>, u: seq<Event>)
    requires forall i :: 0 <= i < |s| ==> !Starts(s[i..] + u)
    ensures Rejections(s + u) == Rejections(u)
  {
    forall i | 0 <= i < |s| ensures !Starts((s + u)[i..]) { assert (s + u)[i..] == s[i..] + u; }
    Skip(s + u, |s|);
    assert (s + u)[|s|..] == u;
  }

  /** Nothing starts at an event that is not a delete. */
  lemma {:induction false} SkipOthers(s: seq<Event>, u: seq<Event>)
    requires forall i :: 0 <= i < |s| ==> !s[i].cmd.Delete?
    ensures Rejections(s + u) == Rejections(u)
  {
    forall i | 0 <= i < |s| ensures !Starts(s[i..] + u) { assert (s[i..] + u)[0] == s[i]; }
    SkipAppend(s, u);
  }

  /** Attempts that end differently block every refusal that might start inside them. */
  lemma {:induction false} Blocked(s: seq<Event>, kind: Kind, h: Option<string>, a: Answer, u: seq<Event>)
    requires Attempts(s, kind, h, a) && a != Failed
    ensures Rejections(s + u) == Rejections(u)
  {
    var n := |s| - 1;
    forall i | 0 <= i < |s| ensures !Starts(s[i..] + u) {
      var t := s[i..] + u;
      assert t[0] == s[i] && t[n - i] == s[n];
    }
    SkipAppend(s, u);
  }

  lemma {:induction false} Counted(s: seq<Event>, kind: Kind, h: Option<string>, u: seq<Event>)
    requires Attempts(s, kind, h, Failed)
    ensures Rejections(s + u) == 1 + Rejections(u)
  {
    var t := s + u;
    assert t[0] == Refusal(kind, h, 0);
    assert Starts(t);
    assert t[|s|..] == u;
  }

  lemma {:induction false} PartRejections(p: Part, kind: Kind, items: seq<Resource>, h: Option<string>, u: seq<Event>)
    requires Handled(p, kind, items, h)
    ensures Rejections(p.rules + p.tries + u) == (if p.answer == Failed then 1 else 0) + Rejections(u)
  {
    PrefaceOnly(kind, items, h);
    Associate(p.rules, p.tries, u);
    SkipOthers(p.rules, p.tries + u);
    if p.tries == [] {
      assert p.tries + u == u;
    } else if p.answer == Failed {
      Counted(p.tries, kind, h, u);
    } else {
      Blocked(p.tries, kind, h, p.answer, u);
    }
  }

  lemma {:induction false} PrefaceOnly(kind: Kind, items: seq<Resource>, h: Option<string>)
    ensures forall c :: c in Preface(kind, items, h) ==> kind == SecurityGroup && RuleDrop(c, items, h)
    ensures forall i :: 0 <= i < |Preface(kind, items, h)| ==> Preface(kind, items, h)[i].DropRule?
  {
    if kind == SecurityGroup {
      forall c | c in Preface(kind, items, h) ensures RuleDrop(c, items, h) {
        DropsMeaning(items, |items|, h, c);
        assert items[..|items|] == items;
      }
      var cs := Preface(kind, items, h);
      assert forall i :: 0 <= i < |cs| ==> cs[i] in cs;
    }
  }

  /** Each part adds its own rejection, if any, whatever follows. */
  lemma {:induction false} PartsRejections(
    parts: seq<Part>, kind: Kind, items: seq<Resource>, hs: seq<Option<string>>, u: seq<Event>)
    requires |parts| <= |hs| && forall j :: 0 <= j < |parts| ==> Handled(parts[j], kind, items, hs[j])
    ensures Rejections(Events(parts) + u) == Rejected(parts) + Rejections(u)
  {
    if parts == [] {
      assert Events(parts) + u == u;
    } else {
      var n := |parts| - 1;
      var init, p := Events(parts[..n]), parts[n];
      PartsRejections(parts[..n], kind, items, hs, p.rules + p.tries + u);
      PartRejections(p, kind, items, hs[n], u);
      Regroup(init, p.rules, p.tries, u);
    }
  }

  lemma {:induction false} Regroup(a: seq<Event>, b: seq<Event>, c: seq<Event>, d: seq<Event>)
    ensures a + b + c + d == a + (b + c + d)
  {
  }

  /** COUNTED IN THE TRACE: whatever follows, the trace of a delete method shows exactly its
      rejected deletes. */
  lemma {:induction false} RecordRejections(rec: Record, kind: Kind, l: Listing, prefix: string, u: seq<Event>)
    requires WellRun(rec, kind, l, prefix)
    ensures Rejections(TraceOf(kind, rec) + u) == Rejected(rec.parts) + Rejections(u)
  {
    var head, body := [Event(List(kind), rec.listed)], Events(rec.parts);
    assert TraceOf(kind, rec) + u == head + (body + (rec.waits + u));
    SkipOthers(head, body + (rec.waits + u));
    if Readable(rec, l) {
      PartsRejections(rec.parts, kind, l.items, Handles(kind, l.items, prefix), rec.waits + u);
      assert forall i :: 0 <= i < |rec.waits| ==> rec.waits[i] in rec.waits;
      SkipOthers(rec.waits, u);
    } else {
      assert body + (rec.waits + u) == u;
    }
  }

  /** No rejection is counted exactly when none starts anywhere. */
  lemma {:induction false} NoRejection(t: seq<Event>)
    ensures Rejections(t) == 0 <==> forall i :: 0 <= i < |t| ==> !Starts(t[i..])
  {
    if t != [] {
      assert t[0..] == t;
      NoRejection(t[1..]);
      forall i | 0 <= i < |t| - 1 ensures t[1..][i..] == t[i + 1..] { }
      if (forall i :: 0 <= i < |t| - 1 ==> !Starts(t[1..][i..])) && !Starts(t) {
        forall i | 0 <= i < |t| ensures !Starts(t[i..]) {
          if i > 0 { assert t[1..][i - 1..] == t[i..]; }
        }
      }
      if forall i :: 0 <= i < |t| ==> !Starts(t[i..]) {
        forall i | 0 <= i < |t| - 1 ensures !Starts(t[1..][i..]) { assert t[1..][i..] == t[i + 1..]; }
      }
    }
  }

  lemma {:induction false} StartsAt(t: seq<Event>, kind: Kind, h: Option<string>, i: nat)
    requires RejectedAt(t, kind, h, i)
    ensures i < |t| && Starts(t[i..])
  {
    assert t[i..][0] == Refusal(kind, h, 0);
  }

  // ------------------------------------------------------------------------------ events

  lemma {:induction false} PartEvents(p: Part, kind: Kind, items: seq<Resource>, h: Option<string>, e: Event)
    requires Handled(p, kind, items, h) && (e in p.rules || e in p.tries)
    ensures
      || e.cmd == Delete(kind, h)
      || e.cmd == Probe(kind, h)
      || (kind == SecurityGroup && RuleDrop(e.cmd, items, h))
  {
    PrefaceOnly(kind, items, h);
    if e in p.rules {
      var i :| 0 <= i < |p.rules| && p.rules[i] == e;
      assert e.cmd == Preface(kind, items, h)[i];
    } else {
      var i :| 0 <= i < |p.tries| && p.tries[i] == e;
      assert e.cmd == Refusal(kind, h, i).cmd;
    }
  }

  lemma {:induction false} InParts(parts: seq<Part>, e: Event) returns (j: nat)
    requires e in Events(parts)
    ensures j < |parts| && (e in parts[j].rules || e in parts[j].tries)
  {
    var n := |parts| - 1;
    if e in parts[n].rules || e in parts[n].tries { j := n; } else { j := InParts(parts[..n], e); }
  }

  lemma {:induction false} PartInside(parts: seq<Part>, j: nat) returns (pre: seq<Event>, post: seq<Event>)
    requires j < |parts|
    ensures Events(parts) == pre + parts[j].rules + parts[j].tries + post
  {
    var n := |parts| - 1;
    if j == n {
      pre, post := Events(parts[..n]), [];
    } else {
      pre, post := PartInside(parts[..n], j);
      post := post + parts[n].rules + parts[n].tries;
    }
  }

  /** SAFETY of one method: every command is one its kind may issue. */
  lemma {:induction false} RecordAllowed(rec: Record, kind: Kind, l: Listing, prefix: string, e: Event)
    requires WellRun(rec, kind, l, prefix) && e in TraceOf(kind, rec)
    ensures Allowed(e.cmd, kind, l, prefix)
    ensures e.cmd.List? ==> e == Event(List(kind), rec.listed)
  {
    if e in Events(rec.parts) {
      PartsAllowed(rec.parts, kind, l.items, prefix, e);
    } else if e in rec.waits {
      DeletedMeaning(rec.parts, Handles(kind, l.items, prefix), e.cmd.handle);
    }
  }

  lemma {:induction false} PartsAllowed(parts: seq<Part>, kind: Kind, items: seq<Resource>, prefix: string, e: Event)
    requires Worked(parts, kind, items, Handles(kind, items, prefix)) && e in Events(parts)
    ensures Allowed(e.cmd, kind, Listed(items), prefix) && !e.cmd.List?
  {
    var hs := Handles(kind, items, prefix);
    var j := InParts(parts, e);
    PartEvents(parts[j], kind, items, hs[j], e);
    assert hs[j] in hs;
  }

  lemma {:induction false} DeletedMeaning(parts: seq<Part>, hs: seq<Option<string>>, h: Option<string>)
    requires |parts| <= |hs|
    ensures h in Deleted(parts, hs) <==> exists j :: 0 <= j < |parts| && hs[j] == h && parts[j].answer == Ok
    ensures h in Deleted(parts, hs) ==> h in hs
  {
    if parts != [] {
      var n := |parts| - 1;
      DeletedMeaning(parts[..n], hs, h);
      assert forall j :: 0 <= j < n ==> parts[..n][j] == parts[j];
    }
  }

  /** The first event is the one and only listing command. */
  lemma {:induction false} ListsOnce(rec: Record, kind: Kind, l: Listing, prefix: string, i: nat)
    requires WellRun(rec, kind, l, prefix) && 0 < i < |TraceOf(kind, rec)|
    ensures !TraceOf(kind, rec)[i].cmd.List?
  {
    var e := TraceOf(kind, rec)[i];
    AfterFirst(kind, rec, i);
    if e in Events(rec.parts) { PartsAllowed(rec.parts, kind, l.items, prefix, e); }
  }

  lemma {:induction false} AfterFirst(kind: Kind, rec: Record, i: nat)
    requires 0 < i < |TraceOf(kind, rec)|
    ensures TraceOf(kind, rec)[i] in Events(rec.parts) || TraceOf(kind, rec)[i] in rec.waits
  {
    var body := Events(rec.parts);
    if i <= |body| {
      assert TraceOf(kind, rec)[i] == body[i - 1];
    } else {
      assert TraceOf(kind, rec)[i] == rec.waits[i - 1 - |body|];
    }
  }

  // ----------------------------------------------------------------------------- crashes

  ghost predicate CrashLastOnly(t: seq<Event>) { forall i :: 0 <= i < |t| - 1 ==> t[i].answer != Crashed }

  lemma {:induction false} PartCrash(p: Part, kind: Kind, items: seq<Resource>, h: Option<string>)
    requires Handled(p, kind, items, h)
    ensures CrashLastOnly(p.rules + p.tries)
    ensures NoCrash(p.rules + p.tries) <==> p.answer != Crashed
  {
    var t := p.rules + p.tries;
    if p.tries == [] { assert t == p.rules; }
    if p.answer == Crashed { assert t[|t| - 1] in t; }
  }

  lemma {:induction false} NoCrashAppend(t: seq<Event>, s: seq<Event>)
    ensures NoCrash(t + s) <==> NoCrash(t) && NoCrash(s)
  {
    assert forall e :: e in t + s <==> e in t || e in s;
  }

  lemma {:induction false} CrashLastAppend(t: seq<Event>, s: seq<Event>)
    requires NoCrash(t) && CrashLastOnly(s)
    ensures CrashLastOnly(t + s)
  {
    var u := t + s;
    forall i | 0 <= i < |u| - 1 ensures u[i].answer != Crashed {
      if i < |t| { assert t[i] in t; }
    }
  }

  lemma {:induction false} PartsCrash(parts: seq<Part>, kind: Kind, items: seq<Resource>, hs: seq<Option<string>>)
    requires |parts| <= |hs| && forall j :: 0 <= j < |parts| ==> Handled(parts[j], kind, items, hs[j])
    requires forall j :: 0 <= j < |parts| - 1 ==> parts[j].answer != Crashed
    ensures CrashLastOnly(Events(parts))
    ensures NoCrash(Events(parts)) <==> !Broke(parts)
  {
    if parts != [] {
      var n := |parts| - 1;
      var init, p := Events(parts[..n]), parts[n];
      PartsCrash(parts[..n], kind, items, hs);
      PartCrash(p, kind, items, hs[n]);
      Associate(init, p.rules, p.tries);
      NoCrashAppend(init, p.rules + p.tries);
      CrashLastAppend(init, p.rules + p.tries);
    }
  }

  /** A crash is the last event of a method, and it or the missing listing is what interrupts it. */
  lemma {:induction false} RecordCrash(rec: Record, kind: Kind, l: Listing, prefix: string)
    requires WellRun(rec, kind, l, prefix)
    ensures CrashLastOnly(TraceOf(kind, rec))
    ensures Interrupted(rec, l) <==> !Readable(rec, l) || !NoCrash(TraceOf(kind, rec))
  {
    var head, body := [Event(List(kind), rec.listed)], Events(rec.parts);
    if Readable(rec, l) {
      PartsCrash(rec.parts, kind, l.items, Handles(kind, l.items, prefix));
      NoCrashAppend(head, body);
      NoCrashAppend(head + body, rec.waits);
      CrashLastAppend(head, body);
      if Broke(rec.parts) {
        assert head + body + rec.waits == head + body;
      } else {
        CrashLastAppend(head + body, rec.waits);
      }
    } else {
      assert TraceOf(kind, rec) == head;
    }
  }

  // ----------------------------------------------------------------------------- settled

  /** The delete of the resource was rejected somewhere in the trace. */
  ghost predicate RejectedIn(t: seq<Event>, kind: Kind, h: Option<string>) {
    exists i :: 0 <= i < |t| && RejectedAt(t, kind, h, i)
  }

  lemma {:induction false} RejectedInside(
    pre: seq<Event>, s: seq<Event>, post: seq<Event>, kind: Kind, h: Option<string>, i: nat)
    requires RejectedAt(s, kind, h, i)
    ensures RejectedIn(pre + s + post, kind, h)
  {
    var t := pre + s + post;
    StartsAt(s, kind, h, i);
    forall k | 0 <= k < Span(kind) ensures t[|pre| + i..][k] == Refusal(kind, h, k) {
      assert s[i..][k] == Refusal(kind, h, k);
    }
    assert RejectedAt(t, kind, h, |pre| + i);
  }

  /** Every listed rule that refers to the group got a removal command. */
  ghost predicate RulesGone(t: seq<Event>, items: seq<Resource>, h: Option<string>) {
    forall c :: RuleDrop(c, items, h) ==> exists e :: e in t && e.cmd == c
  }

  /** What was done about one match: its delete was accepted, and for an awaited kind waited for, or
      it was rejected; either way every rule that refers to a group got a removal command. */
  ghost predicate Settled(t: seq<Event>, kind: Kind, items: seq<Resource>, h: Option<string>) {
    && (Accepted(t, kind, h) || RejectedIn(t, kind, h))
    && (IsAwaited(kind) && Accepted(t, kind, h) ==> Awaited(t, kind, h, WaitBound(kind)))
    && (kind == SecurityGroup ==> RulesGone(t, items, h))
  }

  lemma {:induction false} PartSettles(
    p: Part, kind: Kind, items: seq<Resource>, h: Option<string>, pre: seq<Event>, post: seq<Event>)
    requires Handled(p, kind, items, h) && p.answer != Crashed
    ensures var t := pre + p.rules + p.tries + post;
      && (Accepted(t, kind, h) || RejectedIn(t, kind, h))
      && (kind == SecurityGroup ==> RulesGone(t, items, h))
  {
    var t := pre + p.rules + p.tries + post;
    if p.answer == Failed {
      assert p.tries[0..] == p.tries;
      RejectedInside(pre + p.rules, p.tries, post, kind, h, 0);
    } else {
      assert p.tries[|p.tries| - 1] in t;
    }
    if kind == SecurityGroup {
      forall c | RuleDrop(c, items, h) ensures exists e :: e in t && e.cmd == c {
        DropsMeaning(items, |items|, h, c);
        assert items[..|items|] == items;
        var cs := Preface(kind, items, h);
        var i :| 0 <= i < |cs| && cs[i] == c;
        assert p.rules[i] in t && p.rules[i].cmd == c;
      }
    }
  }

  /** An accepted delete belongs to a part that was accepted. */
  lemma {:induction false} AcceptedPart(rec: Record, kind: Kind, l: Listing, prefix: string, h: Option<string>)
    requires WellRun(rec, kind, l, prefix) && Readable(rec, l) && IsAwaited(kind)
    requires Accepted(TraceOf(kind, rec), kind, h)
    ensures h in Deleted(rec.parts, Handles(kind, l.items, prefix))
  {
    var hs := Handles(kind, l.items, prefix);
    var e := Event(Delete(kind, h), Ok);
    assert e in Events(rec.parts);
    var j := InParts(rec.parts, e);
    PartAccepted(rec.parts[j], kind, l.items, hs[j], h);
    DeletedMeaning(rec.parts, hs, h);
  }

  lemma {:induction false} PartAccepted(
    p: Part, kind: Kind, items: seq<Resource>, h: Option<string>, h': Option<string>)
    requires Handled(p, kind, items, h) && kind != SecurityGroup
    requires Event(Delete(kind, h'), Ok) in p.rules || Event(Delete(kind, h'), Ok) in p.tries
    ensures h == h' && p.answer == Ok
  {
    var k :| 0 <= k < |p.tries| && p.tries[k] == Event(Delete(kind, h'), Ok);
    assert p.tries[k] != Refusal(kind, h, k);
  }

  lemma {:induction false} AwaitedInside(pre: seq<Event>, s: seq<Event>, kind: Kind, h: Option<string>, bound: nat)
    requires Awaited(s, kind, h, bound)
    ensures Awaited(pre + s, kind, h, bound) && Awaited(s + pre, kind, h, bound)
  {
  }

  /** SETTLED: unless the method was interrupted, every match is. */
  lemma {:induction false} RecordSettled(rec: Record, kind: Kind, l: Listing, prefix: string, h: Option<string>)
    requires WellRun(rec, kind, l, prefix) && !Interrupted(rec, l)
    requires h in Handles(kind, l.items, prefix)
    ensures Settled(TraceOf(kind, rec), kind, l.items, h)
  {
    var hs := Handles(kind, l.items, prefix);
    var j :| 0 <= j < |hs| && hs[j] == h;
    HandledAt(rec, kind, l, prefix, j);
    MatchSettled(rec, kind, l.items, hs, j);
    if IsAwaited(kind) && Accepted(TraceOf(kind, rec), kind, h) { AcceptedAwaited(rec, kind, l, prefix, h); }
  }

  lemma {:induction false} HandledAt(rec: Record, kind: Kind, l: Listing, prefix: string, j: nat)
    requires WellRun(rec, kind, l, prefix) && !Interrupted(rec, l) && j < |Handles(kind, l.items, prefix)|
    ensures |rec.parts| == |Handles(kind, l.items, prefix)| && rec.parts[j].answer != Crashed
    ensures Handled(rec.parts[j], kind, l.items, Handles(kind, l.items, prefix)[j])
  {
  }

  lemma {:induction false} AcceptedAwaited(rec: Record, kind: Kind, l: Listing, prefix: string, h: Option<string>)
    requires WellRun(rec, kind, l, prefix) && !Interrupted(rec, l) && IsAwaited(kind)
    requires Accepted(TraceOf(kind, rec), kind, h)
    ensures Awaited(TraceOf(kind, rec), kind, h, WaitBound(kind))
  {
    AcceptedPart(rec, kind, l, prefix, h);
    AwaitedInside([Event(List(kind), rec.listed)] + Events(rec.parts), rec.waits, kind, h, WaitBound(kind));
  }

  lemma {:induction false} MatchSettled(rec: Record, kind: Kind, items: seq<Resource>, hs: seq<Option<string>>, j: nat)
    requires j < |rec.parts| <= |hs| && Handled(rec.parts[j], kind, items, hs[j]) && rec.parts[j].answer != Crashed
    ensures var t := TraceOf(kind, rec);
      && (Accepted(t, kind, hs[j]) || RejectedIn(t, kind, hs[j]))
      && (kind == SecurityGroup ==> RulesGone(t, items, hs[j]))
  {
    var head, p := [Event(List(kind), rec.listed)], rec.parts[j];
    var pre, post := PartInside(rec.parts, j);
    PartSettles(p, kind, items, hs[j], head + pre, post + rec.waits);
    Spliced(head, pre, p.rules, p.tries, post, rec.waits);
  }

  lemma {:induction false} Spliced(
    a: seq<Event>, b: seq<Event>, c: seq<Event>, d: seq<Event>, e: seq<Event>, f: seq<Event>)
    ensures a + (b + c + d + e) + f == (a + b) + c + d + (e + f)
  {
  }
}
