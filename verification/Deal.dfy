/** Dealing a family of named groups in rounds: round r takes the element of rank r of
    every group that has one, in key order. This is the specification that the
    round-robin loop over availability zones is proved against. */
module Deal {
  import opened Py

  type Zone = Option<string>

  type Groups = map<Zone, seq<string>>

  /** The element of rank `rank` in the group of `zone`. */
  datatype Slot = Slot(zone: Zone, rank: nat)

  function Size(g: Groups, z: Zone): nat { if z in g then |g[z]| else 0 }

  function Round(keys: seq<Zone>, g: Groups, r: nat): seq<Slot> {
    if keys == [] then [] else
    var n := |keys| - 1;
    Round(keys[..n], g, r) + if Size(g, keys[n]) > r then [Slot(keys[n], r)] else []
  }

  function Rounds(keys: seq<Zone>, g: Groups, k: nat): seq<Slot> {
    if k == 0 then [] else Rounds(keys, g, k - 1) + Round(keys, g, k - 1)
  }

  function Tallest(keys: seq<Zone>, g: Groups): (t: nat)
    ensures forall z :: z in keys ==> Size(g, z) <= t
  {
    if keys == [] then 0 else
    var n := |keys| - 1;
    assert forall z :: z in keys ==> z in keys[..n] || z == keys[n];
    Max(Tallest(keys[..n], g), Size(g, keys[n]))
  }

  /** The whole deal: as many rounds as the largest group needs. */
  function Dealt(keys: seq<Zone>, g: Groups): seq<Slot> {
    Rounds(keys, g, Tallest(keys, g))
  }

  function NameAt(g: Groups, s: Slot): string {
    if s.rank < Size(g, s.zone) then g[s.zone][s.rank] else ""
  }

  function Names(g: Groups, s: seq<Slot>): (ns: seq<string>)
    ensures |ns| == |s|
    ensures forall i :: 0 <= i < |s| ==> ns[i] == NameAt(g, s[i])
  {
    seq(|s|, i requires 0 <= i < |s| => NameAt(g, s[i]))
  }

  // ---------------------------------------------------------------- closed form

  /** Sum over the groups of min(size, r). */
  function Below(keys: seq<Zone>, g: Groups, r: nat): nat {
    if keys == [] then 0 else
    var n := |keys| - 1;
    Below(keys[..n], g, r) + Min(Size(g, keys[n]), r)
  }

  /** Number of groups with more than r elements. */
  function Taller(keys: seq<Zone>, g: Groups, r: nat): nat {
    if keys == [] then 0 else
    var n := |keys| - 1;
    Taller(keys[..n], g, r) + if Size(g, keys[n]) > r then 1 else 0
  }

  /** Where the element of rank r of the j-th group ends up. */
  function Position(keys: seq<Zone>, g: Groups, j: nat, r: nat): nat
    requires j < |keys|
  {
    Below(keys, g, r) + Taller(keys[..j], g, r)
  }

  lemma {:induction false} RoundLength(keys: seq<Zone>, g: Groups, r: nat)
    ensures |Round(keys, g, r)| == Taller(keys, g, r)
    ensures Below(keys, g, r + 1) == Below(keys, g, r) + Taller(keys, g, r)
  {
    if keys != [] { RoundLength(keys[..|keys| - 1], g, r); }
  }

  lemma {:induction false} RoundsLength(keys: seq<Zone>, g: Groups, k: nat)
    ensures |Rounds(keys, g, k)| == Below(keys, g, k)
  {
    if k == 0 {
      BelowZero(keys, g);
    } else {
      RoundsLength(keys, g, k - 1);
      RoundLength(keys, g, k - 1);
    }
  }

  lemma {:induction false} BelowZero(keys: seq<Zone>, g: Groups)
    ensures Below(keys, g, 0) == 0
  {
    if keys != [] { BelowZero(keys[..|keys| - 1], g); }
  }

  /** A later number of rounds extends an earlier one. */
  lemma {:induction false} RoundsExtend(keys: seq<Zone>, g: Groups, k: nat, k': nat)
    requires k <= k'
    ensures Rounds(keys, g, k) <= Rounds(keys, g, k')
  {
    if k < k' { RoundsExtend(keys, g, k, k' - 1); }
  }

  lemma {:induction false} RoundAt(keys: seq<Zone>, g: Groups, j: nat, r: nat)
    requires j < |keys| && r < Size(g, keys[j])
    ensures Taller(keys[..j], g, r) < |Round(keys, g, r)|
    ensures Round(keys, g, r)[Taller(keys[..j], g, r)] == Slot(keys[j], r)
  {
    var n := |keys| - 1;
    RoundLength(keys[..n], g, r);
    if j < n {
      assert keys[..n][..j] == keys[..j];
      RoundAt(keys[..n], g, j, r);
    }
  }

  lemma {:induction false} RoundsAt(keys: seq<Zone>, g: Groups, j: nat, r: nat)
    requires j < |keys| && r < Size(g, keys[j])
    ensures Position(keys, g, j, r) < |Rounds(keys, g, r + 1)|
    ensures Rounds(keys, g, r + 1)[Position(keys, g, j, r)] == Slot(keys[j], r)
  {
    RoundsLength(keys, g, r);
    RoundAt(keys, g, j, r);
  }

  /** CLOSED FORM: rank r of group j is dealt at index
      (sum over groups of min(size, r)) + (number of earlier groups larger than r). */
  lemma {:induction false} ClosedForm(keys: seq<Zone>, g: Groups, j: nat, r: nat)
    requires j < |keys| && r < Size(g, keys[j])
    ensures Position(keys, g, j, r) < |Dealt(keys, g)|
    ensures Dealt(keys, g)[Position(keys, g, j, r)] == Slot(keys[j], r)
  {
    TallestBounds(keys, g, j);
    ClosedFormWithin(keys, g, j, r, Tallest(keys, g));
  }

  lemma {:induction false} ClosedFormWithin(keys: seq<Zone>, g: Groups, j: nat, r: nat, k: nat)
    requires j < |keys| && r < Size(g, keys[j]) && r < k
    ensures Position(keys, g, j, r) < |Rounds(keys, g, k)|
    ensures Rounds(keys, g, k)[Position(keys, g, j, r)] == Slot(keys[j], r)
  {
    RoundsAt(keys, g, j, r);
    StillThere(keys, g, r + 1, k, Position(keys, g, j, r), Slot(keys[j], r));
  }

  lemma {:induction false} StillThere(keys: seq<Zone>, g: Groups, k: nat, k': nat, p: nat, s: Slot)
    requires k <= k' && p < |Rounds(keys, g, k)| && Rounds(keys, g, k)[p] == s
    ensures p < |Rounds(keys, g, k')| && Rounds(keys, g, k')[p] == s
  {
    if k < k' { StillThere(keys, g, k, k' - 1, p, s); }
  }

  lemma {:induction false} TallestBounds(keys: seq<Zone>, g: Groups, j: nat)
    requires j < |keys|
    ensures Size(g, keys[j]) <= Tallest(keys, g)
  {
    assert keys[j] in keys;
  }

  /** Every index of the deal is the position of exactly the slot found there. */
  lemma {:induction false} ClosedFormOnto(keys: seq<Zone>, g: Groups, p: nat)
    returns (j: nat)
    requires p < |Dealt(keys, g)|
    ensures j < |keys| && Dealt(keys, g)[p].zone == keys[j]
    ensures Dealt(keys, g)[p].rank < Size(g, keys[j])
    ensures Position(keys, g, j, Dealt(keys, g)[p].rank) == p
  {
    j := RoundsOnto(keys, g, Tallest(keys, g), p);
  }

  lemma {:induction false} RoundsOnto(keys: seq<Zone>, g: Groups, k: nat, p: nat)
    returns (j: nat)
    requires p < |Rounds(keys, g, k)|
    ensures var s := Rounds(keys, g, k)[p];
      j < |keys| && s.zone == keys[j] && s.rank < Size(g, keys[j]) && s.rank < k
      && Position(keys, g, j, s.rank) == p
  {
    var done := |Rounds(keys, g, k - 1)|;
    if p < done {
      j := RoundsOnto(keys, g, k - 1, p);
    } else {
      RoundsLength(keys, g, k - 1);
      j := RoundOnto(keys, g, k - 1, p - done);
    }
  }

  lemma {:induction false} RoundOnto(keys: seq<Zone>, g: Groups, r: nat, p: nat)
    returns (j: nat)
    requires p < |Round(keys, g, r)|
    ensures j < |keys| && Round(keys, g, r)[p] == Slot(keys[j], r)
    ensures r < Size(g, keys[j]) && Taller(keys[..j], g, r) == p
  {
    var n := |keys| - 1;
    RoundLength(keys[..n], g, r);
    if p < |Round(keys[..n], g, r)| {
      j := RoundOnto(keys[..n], g, r, p);
      assert keys[..n][..j] == keys[..j];
    } else {
      j := n;
    }
  }

  lemma {:induction false} BelowGrows(keys: seq<Zone>, g: Groups, r: nat, r': nat)
    requires r <= r'
    ensures Below(keys, g, r) <= Below(keys, g, r')
  {
    if keys != [] { BelowGrows(keys[..|keys| - 1], g, r, r'); }
  }

  lemma {:induction false} PositionInRound(keys: seq<Zone>, g: Groups, j: nat, r: nat)
    requires j < |keys| && r < Size(g, keys[j])
    ensures Below(keys, g, r) <= Position(keys, g, j, r) < Below(keys, g, r + 1)
  {
    RoundAt(keys, g, j, r);
    RoundLength(keys, g, r);
  }

  /** The dealing order is (rank, group order): positions are strictly increasing in it. */
  lemma {:induction false} PositionOrder(keys: seq<Zone>, g: Groups, j: nat, r: nat, j': nat, r': nat)
    requires j < |keys| && j' < |keys| && r < Size(g, keys[j]) && r' < Size(g, keys[j'])
    requires r < r' || (r == r' && j < j')
    ensures Position(keys, g, j, r) < Position(keys, g, j', r')
  {
    if r < r' {
      PositionInRound(keys, g, j, r);
      PositionInRound(keys, g, j', r');
      BelowGrows(keys, g, r + 1, r');
    } else {
      TallerGrows(keys, g, j, j', r);
    }
  }

  lemma {:induction false} TallerGrows(keys: seq<Zone>, g: Groups, j: nat, j': nat, r: nat)
    requires j < j' <= |keys| && Size(g, keys[j]) > r
    ensures Taller(keys[..j], g, r) < Taller(keys[..j'], g, r)
  {
    assert keys[..j'][..j' - 1] == keys[..j' - 1];
    if j + 1 < j' { TallerGrows(keys, g, j, j' - 1, r); }
  }

  // ------------------------------------------------------------ prefix fairness

  /** How many of the first n slots belong to group z. */
  function CountTo(s: seq<Slot>, n: nat, z: Zone): nat
    requires n <= |s|
  {
    if n == 0 then 0 else CountTo(s, n - 1, z) + CountOne(s[n - 1], z)
  }

  function CountOne(s: Slot, z: Zone): nat { if s.zone == z then 1 else 0 }

  function CountIn(s: seq<Slot>, z: Zone): nat { CountTo(s, |s|, z) }

  lemma {:induction false} CountSame(s: seq<Slot>, t: seq<Slot>, n: nat, z: Zone)
    requires n <= |s| && n <= |t| && forall i :: 0 <= i < n ==> s[i] == t[i]
    ensures CountTo(s, n, z) == CountTo(t, n, z)
  {
    if n > 0 { CountSame(s, t, n - 1, z); }
  }

  lemma {:induction false} CountShift(a: seq<Slot>, b: seq<Slot>, n: nat, z: Zone)
    requires n <= |b|
    ensures CountTo(a + b, |a| + n, z) == CountTo(a, |a|, z) + CountTo(b, n, z)
  {
    if n == 0 { CountSame(a + b, a, |a|, z); } else { CountShift(a, b, n - 1, z); }
  }

  lemma {:induction false} CountAppend(a: seq<Slot>, b: seq<Slot>, z: Zone)
    ensures CountIn(a + b, z) == CountIn(a, z) + CountIn(b, z)
  {
    CountShift(a, b, |b|, z);
  }

  lemma {:induction false} CountLast(a: seq<Slot>, s: Slot, z: Zone)
    ensures CountIn(a + [s], z) == CountIn(a, z) + CountOne(s, z)
  {
    CountSame(a + [s], a, |a|, z);
  }

  lemma {:induction false} CountPrefix(s: seq<Slot>, t: nat, z: Zone)
    requires t <= |s|
    ensures CountIn(s[..t], z) <= CountIn(s, z)
  {
    CountAppend(s[..t], s[t..], z);
    assert s[..t] + s[t..] == s;
  }

  /** One round holds each group once, if it is tall enough. */
  lemma {:induction false} RoundCount(keys: seq<Zone>, g: Groups, r: nat, z: Zone)
    requires Distinct(keys)
    ensures CountIn(Round(keys, g, r), z) == if z in keys && Size(g, z) > r then 1 else 0
  {
    if keys != [] {
      var n := |keys| - 1;
      RoundCount(keys[..n], g, r, z);
      if Size(g, keys[n]) > r {
        CountLast(Round(keys[..n], g, r), Slot(keys[n], r), z);
      } else {
        assert Round(keys, g, r) == Round(keys[..n], g, r);
      }
      if z == keys[n] { assert z !in keys[..n]; } else { assert z in keys <==> z in keys[..n]; }
    }
  }

  lemma {:induction false} CountSnoc(s: seq<Slot>, p: nat, z: Zone)
    requires p < |s|
    ensures CountIn(s[..p + 1], z) == CountIn(s[..p], z) + CountOne(s[p], z)
  {
    CountSame(s[..p + 1], s[..p], p, z);
  }

  lemma {:induction false} RoundsCount(keys: seq<Zone>, g: Groups, k: nat, z: Zone)
    requires Distinct(keys) && z in keys
    ensures CountIn(Rounds(keys, g, k), z) == Min(Size(g, z), k)
  {
    forall r: nat ensures CountIn(Round(keys, g, r), z) == InRound(g, z, r) { RoundCount(keys, g, r, z); }
    RoundsSum(keys, g, k, z);
  }

  /** How often round r visits a listed group. */
  function InRound(g: Groups, z: Zone, r: nat): nat { if Size(g, z) > r then 1 else 0 }

  lemma {:induction false} RoundsSum(keys: seq<Zone>, g: Groups, k: nat, z: Zone)
    requires forall r: nat :: CountIn(Round(keys, g, r), z) == InRound(g, z, r)
    ensures CountIn(Rounds(keys, g, k), z) == Min(Size(g, z), k)
  {
    if k > 0 {
      RoundsSum(keys, g, k - 1, z);
      CountAppend(Rounds(keys, g, k - 1), Round(keys, g, k - 1), z);
    }
  }

  /** Every prefix of the deal is some whole rounds followed by part of the next one. */
  lemma {:induction false} SplitPrefix(keys: seq<Zone>, g: Groups, k: nat, p: nat)
    returns (q: nat, t: nat)
    requires p <= |Rounds(keys, g, k)|
    ensures t <= |Round(keys, g, q)|
    ensures Rounds(keys, g, k)[..p] == Rounds(keys, g, q) + Round(keys, g, q)[..t]
  {
    if k == 0 {
      q, t := 0, 0;
    } else if p <= |Rounds(keys, g, k - 1)| {
      q, t := SplitPrefix(keys, g, k - 1, p);
      assert Rounds(keys, g, k)[..p] == Rounds(keys, g, k - 1)[..p];
    } else {
      q, t := k - 1, p - |Rounds(keys, g, k - 1)|;
    }
  }

  /** FAIRNESS: in every prefix no group is more than one ahead of another,
      unless the other group is used up. */
  lemma {:induction false} Fair(keys: seq<Zone>, g: Groups, p: nat, a: Zone, b: Zone)
    requires Distinct(keys) && a in keys && b in keys
    requires p <= |Dealt(keys, g)|
    ensures var prefix := Dealt(keys, g)[..p];
      CountIn(prefix, a) <= CountIn(prefix, b) + 1 || CountIn(prefix, b) == Size(g, b)
  {
    var q, t := SplitPrefix(keys, g, Tallest(keys, g), p);
    var whole, part := Rounds(keys, g, q), Round(keys, g, q)[..t];
    RoundsCount(keys, g, q, a);
    RoundsCount(keys, g, q, b);
    RoundCount(keys, g, q, a);
    RoundCount(keys, g, q, b);
    CountPrefix(Round(keys, g, q), t, a);
    CountPrefix(Round(keys, g, q), t, b);
    CountAppend(whole, part, a);
    CountAppend(whole, part, b);
  }

  ghost function ZonesOf(s: seq<Slot>): set<Zone> { set i | 0 <= i < |s| :: s[i].zone }

  /** With no empty group, the first round visits the groups in order. */
  lemma {:induction false} FirstRound(keys: seq<Zone>, g: Groups)
    requires forall z :: z in keys ==> Size(g, z) > 0
    ensures |Round(keys, g, 0)| == |keys|
    ensures forall i :: 0 <= i < |keys| ==> Round(keys, g, 0)[i] == Slot(keys[i], 0)
  {
    if keys != [] { FirstRound(keys[..|keys| - 1], g); }
  }

  lemma {:induction false} FirstDealt(keys: seq<Zone>, g: Groups)
    requires forall z :: z in keys ==> Size(g, z) > 0
    ensures |keys| <= |Dealt(keys, g)|
    ensures forall i :: 0 <= i < |keys| ==> Dealt(keys, g)[i] == Slot(keys[i], 0)
  {
    if keys != [] {
      FirstRound(keys, g);
      assert keys[0] in keys;
      assert Rounds(keys, g, 1) == Round(keys, g, 0);
      RoundsExtend(keys, g, 1, Tallest(keys, g));
    }
  }

  lemma {:induction false} DealtZone(keys: seq<Zone>, g: Groups, i: nat)
    requires i < |Dealt(keys, g)|
    ensures Dealt(keys, g)[i].zone in keys
  {
    var j := ClosedFormOnto(keys, g, i);
  }

  /** A prefix of length p touches the first p groups, or all of them. */
  lemma {:induction false} PrefixZones(keys: seq<Zone>, g: Groups, p: nat)
    requires p <= |Dealt(keys, g)|
    requires forall z :: z in keys ==> Size(g, z) > 0
    ensures ZonesOf(Dealt(keys, g)[..p]) == set z | z in keys[..Min(p, |keys|)]
  {
    var d := Dealt(keys, g);
    var m := Min(p, |keys|);
    FirstDealt(keys, g);
    forall z | z in keys[..m] ensures z in ZonesOf(d[..p]) {
      var i :| 0 <= i < m && keys[i] == z;
      assert d[..p][i] == Slot(keys[i], 0);
    }
    forall z | z in ZonesOf(d[..p]) ensures z in keys[..m] {
      var i :| 0 <= i < p && d[i].zone == z;
      if i < |keys| {
        assert keys[..m][i] == z;
      } else {
        DealtZone(keys, g, i);
        assert keys[..m] == keys;
      }
    }
  }

  /** COVERAGE: a prefix of length p touches exactly min(p, number of groups) groups. */
  lemma {:induction false} Covers(keys: seq<Zone>, g: Groups, p: nat)
    requires Distinct(keys) && p <= |Dealt(keys, g)|
    requires forall z :: z in keys ==> Size(g, z) > 0
    ensures |ZonesOf(Dealt(keys, g)[..p])| == Min(p, |keys|)
  {
    PrefixZones(keys, g, p);
    DistinctCardinality(keys[..Min(p, |keys|)]);
  }
}
