/** Recovery of hosts that wait for a user action: the rate-limited handler of the bare-metal
    deployment and the polling loop of the Assisted Installer that calls it. */
module Recovery {
  import opened Py

  /** A machine is not recovered more often than once in twenty minutes. */
  const PERIOD: real := 1200.0

  /** The values of a status that the code tells apart: "installing-pending-user-action",
      "installed", and all others. */
  datatype Status = Pending | Complete | Ongoing

  type Record = map<string, real>

  /** What a call of the handler does. `Missing` is a KeyError, `Raised` any other exception. */
  datatype Effect = Skipped | Missing | NoServerId | Recovered | Raised

  /** One call of the handler: clock at entry, clock after the power commands, and the effect. */
  datatype Call = Call(machine: string, start: real, finish: real, effect: Effect)

  function Last(rec: Record, m: string): real { if m in rec then rec[m] else 0.0 }

  predicate Eligible(rec: Record, m: string, now: real) { !(now - Last(rec, m) < PERIOD) }

  predicate Recovers(rec: Record, c: Call) { Eligible(rec, c.machine, c.start) && c.effect == Recovered }

  /** The record after a run of calls. */
  function After(calls: seq<Call>): Record {
    if calls == [] then map[] else
    var n := |calls| - 1;
    var rec := After(calls[..n]);
    if Recovers(rec, calls[n]) then rec[calls[n].machine := calls[n].finish] else rec
  }

  /** The completed recoveries of one machine, in order. */
  function Recoveries(calls: seq<Call>, m: string): seq<Call> {
    if calls == [] then [] else
    var n := |calls| - 1;
    var before := Recoveries(calls[..n], m);
    if calls[n].machine == m && Recovers(After(calls[..n]), calls[n]) then before + [calls[n]] else before
  }

  ghost predicate Timed(calls: seq<Call>) {
    forall i :: 0 <= i < |calls| ==> calls[i].start <= calls[i].finish
  }

  /** RATE LIMIT: n completed recoveries of a machine span at least (n-1) periods from the
      completion of the first to the start of the last. */
  lemma {:induction false} RateLimit(calls: seq<Call>, m: string)
    requires Timed(calls)
    ensures var f := Recoveries(calls, m); var n := |f|;
      && (n == 0 ==> m !in After(calls))
      && (n > 0 ==> m in After(calls) && After(calls)[m] == f[n - 1].finish >= f[n - 1].start)
      && (n > 1 ==> f[n - 1].start - f[0].finish >= (n - 1) as real * 1200.0)
  {
    if calls != [] { RateLimit(calls[..|calls| - 1], m); }
  }

  /** Any two completed recoveries of a machine are a period apart. */
  lemma {:induction false} RecoveriesApart(calls: seq<Call>, m: string, i: nat, j: nat)
    requires Timed(calls) && i < j < |Recoveries(calls, m)|
    ensures Recoveries(calls, m)[j].start - Recoveries(calls, m)[i].finish >= 1200.0
  {
    var n := |calls| - 1;
    var before := Recoveries(calls[..n], m);
    RateLimit(calls[..n], m);
    if j < |before| {
      RecoveriesApart(calls[..n], m, i, j);
    } else if i < |before| - 1 {
      RecoveriesApart(calls[..n], m, i, |before| - 1);
    }
  }

  /** The calls that concern one machine. */
  function Only(calls: seq<Call>, m: string): seq<Call> {
    if calls == [] then [] else
    var n := |calls| - 1;
    if calls[n].machine == m then Only(calls[..n], m) + [calls[n]] else Only(calls[..n], m)
  }

  /** NON-INTERFERENCE: what is recorded for a machine, hence when it becomes eligible again, and
      which of its calls recover it, do not depend on the calls for other machines. */
  lemma {:induction false} NonInterference(calls: seq<Call>, m: string)
    ensures Last(After(calls), m) == Last(After(Only(calls, m)), m)
    ensures Recoveries(calls, m) == Recoveries(Only(calls, m), m)
  {
    if calls != [] {
      var n := |calls| - 1;
      NonInterference(calls[..n], m);
      OneMoreCall(calls[..n], Only(calls[..n], m), calls[n], m);
      assert calls == calls[..n] + [calls[n]];
    }
  }

  lemma {:induction false} OneMoreCall(calls: seq<Call>, only: seq<Call>, c: Call, m: string)
    requires Last(After(calls), m) == Last(After(only), m) && Recoveries(calls, m) == Recoveries(only, m)
    ensures var only' := if c.machine == m then only + [c] else only;
      && Last(After(calls + [c]), m) == Last(After(only'), m)
      && Recoveries(calls + [c], m) == Recoveries(only', m)
  {
    AfterNext(calls, c);
    AfterNext(only, c);
    RecoveriesNext(calls, c, m);
    RecoveriesNext(only, c, m);
  }

  lemma {:induction false} AfterNext(calls: seq<Call>, c: Call)
    ensures var rec := After(calls);
      After(calls + [c]) == if Recovers(rec, c) then rec[c.machine := c.finish] else rec
  {
    assert (calls + [c])[..|calls|] == calls;
  }

  lemma {:induction false} RecoveriesNext(calls: seq<Call>, c: Call, m: string)
    ensures var before := Recoveries(calls, m);
      Recoveries(calls + [c], m) == if c.machine == m && Recovers(After(calls), c) then before + [c] else before
  {
    assert (calls + [c])[..|calls|] == calls;
  }

  // ------------------------------------------------------------------------ the handler

  datatype Provider = Ipmitool | IbmCloud | VpcBm | OtherProvider

  datatype Machine = Machine(provider: Provider, serverId: Option<string>)

  datatype Host = Host(status: Option<Status>, hostname: Option<string>, statusInfo: Option<string>)

  datatype Sample = Sample(status: Status, hosts: seq<Host>)

  /** How the power commands of a recovery end. */
  datatype Power = Done | KeyMissing | PowerFailed

  /** The machines the handler is to be called for. */
  function PendingNames(hosts: seq<Host>): seq<string> {
    if hosts == [] then [] else
    var n := |hosts| - 1;
    PendingNames(hosts[..n]) +
    if hosts[n].status == Some(Pending) && hosts[n].hostname.Some? && hosts[n].statusInfo.Some?
    then [hosts[n].hostname.value] else []
  }

  lemma {:induction false} PendingStep(hosts: seq<Host>, i: nat)
    requires i < |hosts|
    ensures PendingNames(hosts[..i + 1]) == PendingNames(hosts[..i]) +
      if hosts[i].status == Some(Pending) && hosts[i].hostname.Some? && hosts[i].statusInfo.Some?
      then [hosts[i].hostname.value] else []
  {
    assert hosts[..i + 1][..i] == hosts[..i];
  }

  lemma {:induction false} PendingPrefix(hosts: seq<Host>, i: nat)
    requires i <= |hosts|
    ensures PendingNames(hosts[..i]) <= PendingNames(hosts)
    decreases |hosts| - i
  {
    if i == |hosts| {
      assert hosts[..i] == hosts;
    } else {
      PendingStep(hosts, i);
      PendingPrefix(hosts, i + 1);
    }
  }

  /** The machines the handler is to be called for over a run of samples. */
  function Polled(samples: seq<Sample>): seq<string> {
    if samples == [] then [] else
    var n := |samples| - 1;
    Polled(samples[..n]) + PolledIn(samples[n])
  }

  function PolledIn(sample: Sample): seq<string> {
    if sample.status == Pending then PendingNames(sample.hosts) else []
  }

  lemma {:induction false} PolledStep(samples: seq<Sample>, i: nat)
    requires i < |samples|
    ensures Polled(samples[..i + 1]) == Polled(samples[..i]) + PolledIn(samples[i])
  {
    assert samples[..i + 1][..i] == samples[..i];
  }

  /** The readings of the clock that a run of calls took: one at entry, one when recording. */
  function ReadingsOf(calls: seq<Call>): nat {
    if calls == [] then 0 else
    var n := |calls| - 1;
    ReadingsOf(calls[..n]) + if calls[n].effect == Recovered then 2 else 1
  }

  lemma {:induction false} ReadingsNext(calls: seq<Call>, c: Call)
    ensures ReadingsOf(calls + [c]) == ReadingsOf(calls) + if c.effect == Recovered then 2 else 1
  {
    assert (calls + [c])[..|calls|] == calls;
  }

  /** How an installation ends: ZeroDivisionError for a sample without hosts, an exception of the
      handler, or the timeout of the sampler. */
  datatype End = Installed | TimedOut | HandlerRaised | NoHosts

  /** How a sample ends the installation unless the handler raises. */
  function EndOf(sample: Sample): Option<End> {
    if sample.hosts == [] then Some(NoHosts)
    else if sample.status == Complete then Some(Installed)
    else None
  }

  /** None of the first n samples ends the installation. */
  ghost predicate StillGoing(samples: seq<Sample>, n: int) {
    n <= |samples| && forall i :: 0 <= i < n ==> EndOf(samples[i]).None?
  }

  /** The sample is one at which an installation can end this way. */
  predicate EndsAt(sample: Sample, end: End) {
    EndOf(sample) == Some(end) || (end == HandlerRaised && sample.status == Pending && sample.hosts != [])
  }

  /** The sample ends the installation this way, or not at all. */
  predicate Judged(sample: Sample, end: Option<End>) {
    if end.None? then EndOf(sample).None? else EndsAt(sample, end.value) && end != Some(TimedOut)
  }

  /** The installation ended at the last of the used samples, and not before. */
  ghost predicate Ended(samples: seq<Sample>, used: nat, end: End) {
    if end == TimedOut then used == |samples| && StillGoing(samples, used)
    else 0 < used <= |samples| && StillGoing(samples, used - 1) && EndsAt(samples[used - 1], end)
  }

  class Installer {
    const machines: map<string, Machine>
    /** Successive readings of the clock. */
    const clock: nat -> real
    /** How the power commands issued after so many clock readings end. */
    const power: nat -> Power
    var handled: Record
    var readings: nat
    /** The machines the handler was called for so far. */
    ghost var names: seq<string>

    constructor (machines: map<string, Machine>, clock: nat -> real, power: nat -> Power)
      ensures this.machines == machines && this.clock == clock && this.power == power
      ensures Valid() && handled == map[] && names == []
    {
      this.machines, this.clock, this.power := machines, clock, power;
      handled, readings, names := map[], 0, [];
    }

    /** A VPC machine that cannot be restarted. */
    predicate Nameless(m: Machine) { m.provider == VpcBm && (m.serverId == None || m.serverId == Some("")) }

    /** What a call for a machine does at time `now`, the power commands being issued after
        `n` clock readings. An unknown provider reboots nothing but counts as handled. */
    function Decide(rec: Record, machine: string, now: real, n: nat): (e: Effect)
      ensures e == Skipped <==> !Eligible(rec, machine, now)
      ensures e == NoServerId <==> Eligible(rec, machine, now) && machine in machines && Nameless(machines[machine])
      ensures e == Recovered ==>
        machine in machines && (machines[machine].provider == OtherProvider || power(n) == Done)
      ensures e == Raised ==>
        machine in machines && machines[machine].provider != OtherProvider && power(n) == PowerFailed
      ensures e == Missing ==>
        machine in machines ==> machines[machine].provider != OtherProvider && power(n) == KeyMissing
    {
      if !Eligible(rec, machine, now) then Skipped
      else if machine !in machines then Missing
      else if Nameless(machines[machine]) then NoServerId
      else if machines[machine].provider == OtherProvider then Recovered
      else match power(n)
           case Done => Recovered
           case KeyMissing => Missing
           case PowerFailed => Raised
    }

    /** What a call for a machine that is due does: an unknown machine or a missing setting is a
        KeyError; a VPC machine without server id is left alone; an unknown provider, or power
        commands that work, complete the recovery; any other failure raises. */
    ghost predicate Prescribed(effect: Effect, machine: string, p: Power) {
      if machine !in machines then effect == Missing
      else
        var m := machines[machine];
        if m.provider == VpcBm && (m.serverId.None? || m.serverId.value == "") then effect == NoServerId
        else if m.provider == OtherProvider || p == Done then effect == Recovered
        else if p == KeyMissing then effect == Missing
        else effect == Raised
    }

    /** Due exactly when 1200 seconds have passed since the recorded completion. */
    lemma {:induction false} DecideMeaning(rec: Record, machine: string, now: real, n: nat)
      ensures var elapsed := now - (if machine in rec then rec[machine] else 0.0);
        && (Decide(rec, machine, now, n) == Skipped <==> elapsed < 1200.0)
        && (elapsed >= 1200.0 ==> Prescribed(Decide(rec, machine, now, n), machine, power(n)))
    {
    }

    /** The call made for a machine after a run of calls. */
    ghost function NextCall(before: seq<Call>, machine: string): Call {
      var n := ReadingsOf(before);
      Call(machine, clock(n), clock(n + 1), Decide(After(before), machine, clock(n), n + 1))
    }

    /** The calls made for these machines, one after the other. */
    ghost function History(ms: seq<string>): seq<Call> {
      if ms == [] then [] else
      var n := |ms| - 1;
      var before := History(ms[..n]);
      before + [NextCall(before, ms[n])]
    }

    /** The state is exactly what the calls so far leave behind. */
    ghost predicate Valid()
      reads this
    {
      Leaves(names, handled, readings)
    }

    ghost predicate Leaves(ms: seq<string>, rec: Record, n: nat) {
      rec == After(History(ms)) && n == ReadingsOf(History(ms))
    }

    lemma {:induction false} HistoryNext(ms: seq<string>, machine: string)
      ensures History(ms + [machine]) == History(ms) + [NextCall(History(ms), machine)]
    {
      assert (ms + [machine])[..|ms|] == ms;
    }

    /** The record after a call for a machine, made when the clock has been read n times. */
    function RecordAfter(rec: Record, machine: string, n: nat): Record {
      if Decide(rec, machine, clock(n), n + 1) == Recovered then rec[machine := clock(n + 1)] else rec
    }

    function ReadingsAfter(rec: Record, machine: string, n: nat): nat {
      if Decide(rec, machine, clock(n), n + 1) == Recovered then n + 2 else n + 1
    }

    /** What the next call leaves behind. */
    lemma {:induction false} NextState(ms: seq<string>, rec: Record, n: nat, machine: string)
      requires Leaves(ms, rec, n)
      ensures Leaves(ms + [machine], RecordAfter(rec, machine, n), ReadingsAfter(rec, machine, n))
    {
      HistoryNext(ms, machine);
      CallLeaves(History(ms), machine);
    }

    lemma {:induction false} CallEffect(ms: seq<string>, rec: Record, n: nat, machine: string)
      requires Leaves(ms, rec, n)
      ensures NextCall(History(ms), machine).effect == Decide(rec, machine, clock(n), n + 1)
    {
    }

    lemma {:induction false} CallLeaves(before: seq<Call>, machine: string)
      ensures var rec, n, all := After(before), ReadingsOf(before), before + [NextCall(before, machine)];
        After(all) == RecordAfter(rec, machine, n) && ReadingsOf(all) == ReadingsAfter(rec, machine, n)
    {
      AfterNext(before, NextCall(before, machine));
      ReadingsNext(before, NextCall(before, machine));
    }

    /** The body of the handler: a clock reading, the power commands, and the record. */
    method Act(machine: string) returns (effect: Effect)
      modifies this`handled, this`readings
      ensures effect == Decide(old(handled), machine, clock(old(readings)), old(readings) + 1)
      ensures handled == RecordAfter(old(handled), machine, old(readings))
      ensures readings == ReadingsAfter(old(handled), machine, old(readings))
    {
      var now := clock(readings);
      readings := readings + 1;
      effect := Decide(handled, machine, now, readings);
      if effect == Recovered {
        handled := handled[machine := clock(readings)];
        readings := readings + 1;
      }
    }

    /** `pending_user_action_handler`, once the host name is known. */
    method HandleMachine(machine: string) returns (effect: Effect)
      requires Valid()
      modifies this
      ensures Valid() && names == old(names) + [machine]
      ensures effect == NextCall(History(old(names)), machine).effect
      ensures effect == Decide(old(handled), machine, clock(old(readings)), old(readings) + 1)
      ensures handled == RecordAfter(old(handled), machine, old(readings))
    {
      CallEffect(names, handled, readings, machine);
      NextState(names, handled, readings, machine);
      names := names + [machine];
      effect := Act(machine);
    }

    /** `pending_user_action_handler` */
    method Handle(host: Host) returns (effect: Effect)
      requires Valid()
      modifies this
      ensures Valid()
      ensures host.hostname.None? ==> effect == Missing && names == old(names) && handled == old(handled)
      ensures host.hostname.Some? ==>
        && names == old(names) + [host.hostname.value]
        && effect == NextCall(History(old(names)), host.hostname.value).effect
      ensures host.hostname.Some? ==>
        var m := host.hostname.value;
        var elapsed := clock(old(readings)) - (if m in old(handled) then old(handled)[m] else 0.0);
        && (effect == Skipped <==> elapsed < 1200.0)
        && (elapsed >= 1200.0 ==> Prescribed(effect, m, power(old(readings) + 1)))
        && (effect == Recovered ==> handled == old(handled)[m := clock(old(readings) + 1)])
      ensures effect != Recovered ==> handled == old(handled)
      ensures forall m :: Some(m) != host.hostname ==> Last(handled, m) == old(Last(handled, m))
    {
      if host.hostname.None? { return Missing; }
      DecideMeaning(handled, host.hostname.value, clock(readings), readings + 1);
      effect := HandleMachine(host.hostname.value);
    }

    // ----------------------------------------------------------------------- the installer

    /** The i-th call raised. */
    ghost predicate RaisedAt(ms: seq<string>, i: nat)
      requires i < |ms|
    {
      NextCall(History(ms[..i]), ms[i]).effect == Raised
    }

    /** After the calls `before`, the handler was called for the machines `ms` in order, up to and
        including the first call that raised, or for all of them if none did. */
    ghost predicate Served(before: seq<string>, after: seq<string>, ms: seq<string>, raised: bool) {
      && before <= after <= before + ms
      && (forall i :: |before| <= i < |after| ==> (RaisedAt(after, i) <==> raised && i == |after| - 1))
      && if raised then |before| < |after| else after == before + ms
    }

    lemma {:induction false} ServedOne(before: seq<string>, m: string)
      ensures Served(before, before + [m], [m], NextCall(History(before), m).effect == Raised)
    {
      assert (before + [m])[..|before|] == before;
    }

    lemma {:induction false} ServedAppend(
      a: seq<string>, b: seq<string>, c: seq<string>, m: seq<string>, n: seq<string>, raised: bool)
      requires Served(a, b, m, false) && Served(b, c, n, raised)
      ensures Served(a, c, m + n, raised)
    {
      Associate(a, m, n);
      forall i | |a| <= i < |b| ensures !RaisedAt(c, i) {
        assert c[..i] == b[..i];
        assert !RaisedAt(b, i);
      }
    }

    lemma {:induction false} ServedLonger(a: seq<string>, b: seq<string>, m: seq<string>, n: seq<string>)
      requires Served(a, b, m, true) && m <= n
      ensures Served(a, b, n, true)
    {
      PrefixAfter(a, m, n);
    }

    /** The dispatch over the hosts of one sample: the handler is called for exactly the pending
        hosts, in order, up to the first call that raises; a KeyError is swallowed. */
    method Dispatch(hosts: seq<Host>) returns (raised: bool)
      requires Valid()
      modifies this
      ensures Valid() && Served(old(names), names, PendingNames(hosts), raised)
    {
      raised := false;
      for i := 0 to |hosts|
        invariant Valid() && Served(old(names), names, PendingNames(hosts[..i]), false)
      {
        var host := hosts[i];
        PendingStep(hosts, i);
        if host.status == Some(Pending) && host.hostname.Some? && host.statusInfo.Some? {
          ghost var before := names;
          var effect := Handle(host);
          raised := effect == Raised;
          ServedOne(before, host.hostname.value);
          ServedAppend(old(names), before, names, PendingNames(hosts[..i]), [host.hostname.value], raised);
          if raised {
            PendingPrefix(hosts, i + 1);
            ServedLonger(old(names), names, PendingNames(hosts[..i + 1]), PendingNames(hosts));
            return;
          }
        }
      }
      assert hosts[..|hosts|] == hosts;
    }

    /** One sample: a sample without hosts raises ZeroDivisionError before anything else. */
    method Poll(sample: Sample) returns (end: Option<End>)
      requires Valid()
      modifies this
      ensures Valid() && Served(old(names), names, PolledIn(sample), end == Some(HandlerRaised))
      ensures Judged(sample, end)
    {
      if sample.hosts == [] { return Some(NoHosts); }
      if sample.status == Pending {
        var raised := Dispatch(sample.hosts);
        if raised { return Some(HandlerRaised); }
      }
      end := if sample.status == Complete then Some(Installed) else None;
    }

    /** `install_cluster`: polls until installed, for as many samples as the timeout allows. */
    method InstallCluster(samples: seq<Sample>) returns (end: End, used: nat)
      requires Valid()
      modifies this
      ensures Valid() && Ended(samples, used, end)
      ensures Served(old(names), names, Polled(samples[..used]), end == HandlerRaised)
    {
      used := 0;
      while used < |samples|
        invariant Valid() && StillGoing(samples, used)
        invariant Served(old(names), names, Polled(samples[..used]), false)
      {
        var e := PollNext(samples, used, old(names));
        used := used + 1;
        if e.Some? { return e.value, used; }
      }
      end := TimedOut;
    }

    /** The next sample, after the first `used` ones; `start` are the calls before all of them. */
    method PollNext(samples: seq<Sample>, used: nat, ghost start: seq<string>) returns (end: Option<End>)
      requires Valid() && used < |samples| && Served(start, names, Polled(samples[..used]), false)
      modifies this
      ensures Valid() && Served(start, names, Polled(samples[..used + 1]), end == Some(HandlerRaised))
      ensures Judged(samples[used], end)
    {
      end := Poll(samples[used]);
      ServedAppend(
        start, old(names), names, Polled(samples[..used]), PolledIn(samples[used]), end == Some(HandlerRaised));
      PolledStep(samples, used);
    }

    // ------------------------------------------------------------------------ its rate limit

    /** The clock never goes back. */
    ghost predicate Steady() { forall i, j :: 0 <= i <= j ==> clock(i) <= clock(j) }

    lemma {:induction false} HistoryTimed(ms: seq<string>)
      requires Steady()
      ensures Timed(History(ms))
    {
      if ms != [] { HistoryTimed(ms[..|ms| - 1]); }
    }

    /** Whatever samples were seen, with a steady clock the recoveries of each machine respect the
        period, and the recorded time is that of the last one. */
    lemma {:induction false} RunIsRateLimited(m: string)
      requires Valid() && Steady()
      ensures var f := Recoveries(History(names), m); var n := |f|;
        && (n > 1 ==> f[n - 1].start - f[0].finish >= (n - 1) as real * 1200.0)
        && Last(handled, m) == if n == 0 then 0.0 else f[n - 1].finish
    {
      HistoryTimed(names);
      RateLimit(History(names), m);
    }
  }
}
