/** Which disks of a node are wiped, and where: `disks_available_to_cleanup`, `clean_disks`,
    `clean_disk` and `detect_simulation_disk_on_node`. */
module Disks {
  import opened Py

  datatype Device = Device(kname: string, pkname: Option<string>, kind: string, mountpoint: Option<string>)

  predicate Nbd(d: Device) { Contains(d.kname, "nbd") }

  predicate BootPartition(d: Device) {
    !Nbd(d) && d.kind == "part" && d.mountpoint == Some("/boot")
  }

  /** The disk is the parent of a non-nbd partition mounted at /boot. */
  predicate BootDisk(l: seq<Device>, kname: string) {
    exists i :: 0 <= i < |l| && BootPartition(l[i]) && l[i].pkname == Some(kname)
  }

  predicate Wipeable(l: seq<Device>, d: Device) {
    d.kind == "disk" && !Nbd(d) && !BootDisk(l, d.kname)
  }

  // ------------------------------------------------------------------------ selection

  predicate Whole(d: Device) { d.kind == "disk" && !Nbd(d) }

  /** The whole disks of a listing, in listing order. */
  function WholeDisks(l: seq<Device>): seq<Device> {
    if l == [] then [] else
    var n := |l| - 1;
    WholeDisks(l[..n]) + if Whole(l[n]) then [l[n]] else []
  }

  /** Names of the disks that are not among the boot disks, in order. */
  function Spared(disks: seq<Device>, boot: set<Option<string>>): seq<string> {
    if disks == [] then [] else
    var n := |disks| - 1;
    Spared(disks[..n], boot) + if Some(disks[n].kname) in boot then [] else [disks[n].kname]
  }

  function BootParents(l: seq<Device>): set<Option<string>> {
    set i | 0 <= i < |l| && BootPartition(l[i]) :: l[i].pkname
  }

  function Candidates(l: seq<Device>): seq<string> { Spared(WholeDisks(l), BootParents(l)) }

  method DisksAvailableToCleanup(l: seq<Device>) returns (names: seq<string>)
    ensures names == Candidates(l)
  {
    var boot: set<Option<string>> := {};
    var available: seq<Device> := [];
    for i := 0 to |l|
      invariant boot == BootParents(l[..i]) && available == WholeDisks(l[..i])
    {
      assert l[..i + 1][..i] == l[..i];
      BootStep(l, i);
      var disk := l[i];
      if disk.kind == "rom" || Nbd(disk) { continue; }
      if disk.kind == "part" && disk.mountpoint == Some("/boot") { boot := boot + {disk.pkname}; }
      if disk.kind == "disk" { available := available + [disk]; }
    }
    assert l[..|l|] == l;
    names := [];
    for i := 0 to |available|
      invariant names == Spared(available[..i], boot)
    {
      assert available[..i + 1][..i] == available[..i];
      if Some(available[i].kname) !in boot { names := names + [available[i].kname]; }
    }
    assert available[..|available|] == available;
  }

  lemma {:induction false} BootStep(l: seq<Device>, i: nat)
    requires i < |l|
    ensures BootParents(l[..i + 1]) == BootParents(l[..i]) + if BootPartition(l[i]) then {l[i].pkname} else {}
  {
    assert l[..i + 1][i] == l[i];
    assert forall k :: 0 <= k < i ==> l[..i + 1][k] == l[..i][k];
  }

  lemma {:induction false} BootParentsMeaning(l: seq<Device>, kname: string)
    ensures Some(kname) in BootParents(l) <==> BootDisk(l, kname)
  {
  }

  lemma {:induction false} WholeDisksMeaning(l: seq<Device>, d: Device)
    ensures d in WholeDisks(l) <==> d in l && Whole(d)
  {
    if l != [] {
      var n := |l| - 1;
      WholeDisksMeaning(l[..n], d);
      assert d in l <==> d in l[..n] || d == l[n];
    }
  }

  lemma {:induction false} SparedMeaning(disks: seq<Device>, boot: set<Option<string>>, k: string)
    ensures k in Spared(disks, boot) <==> Some(k) !in boot && exists d :: d in disks && d.kname == k
  {
    if disks != [] {
      var n := |disks| - 1;
      SparedMeaning(disks[..n], boot, k);
      assert forall d :: d in disks <==> d in disks[..n] || d == disks[n];
    }
  }

  /** CANDIDATES: exactly the non-nbd disks that are not the parent of a non-nbd /boot partition. */
  lemma {:induction false} CandidatesMeaning(l: seq<Device>, k: string)
    ensures k in Candidates(l) <==> exists d :: d in l && Wipeable(l, d) && d.kname == k
    ensures k in Candidates(l) <==>
      && (exists d :: d in l && d.kname == k && d.kind == "disk")
      && !Contains(k, "nbd")
      && !exists p :: p in l && p.kind == "part" && p.mountpoint == Some("/boot") && !Contains(p.kname, "nbd")
                      && p.pkname == Some(k)
  {
    BootDiskMeaning(l, k);
    SparedMeaning(WholeDisks(l), BootParents(l), k);
    BootParentsMeaning(l, k);
    if k in Candidates(l) {
      var d :| d in WholeDisks(l) && d.kname == k;
      WholeDisksMeaning(l, d);
      assert Wipeable(l, d);
    }
    if d :| d in l && Wipeable(l, d) && d.kname == k {
      WholeDisksMeaning(l, d);
    }
  }

  lemma {:induction false} BootDiskMeaning(l: seq<Device>, k: string)
    ensures BootDisk(l, k) <==>
      exists p :: p in l && p.kind == "part" && p.mountpoint == Some("/boot") && !Contains(p.kname, "nbd")
        && p.pkname == Some(k)
  {
    if BootDisk(l, k) {
      var i :| 0 <= i < |l| && BootPartition(l[i]) && l[i].pkname == Some(k);
      assert l[i] in l;
    }
  }

  // ------------------------------------------------------------------------ reordering

  /** What the two passes keep of one device. */
  ghost function Kept(d: Device, boot: set<Option<string>>): multiset<string> {
    if Whole(d) && Some(d.kname) !in boot then multiset{d.kname} else multiset{}
  }

  /** The two passes as one. */
  lemma {:induction false} OnePass(l: seq<Device>, boot: set<Option<string>>)
    ensures multiset(Spared(WholeDisks(l), boot)) == Total(l, (d: Device) => Kept(d, boot))
  {
    if l != [] {
      var n := |l| - 1;
      OnePass(l[..n], boot);
      var init := WholeDisks(l[..n]);
      if Whole(l[n]) { assert (init + [l[n]])[..|init|] == init; } else { assert WholeDisks(l) == init; }
    }
  }

  /** REORDERING the listing only reorders the candidates. */
  lemma {:induction false} CandidatesReordered(l: seq<Device>, l': seq<Device>)
    requires multiset(l) == multiset(l')
    ensures multiset(Candidates(l)) == multiset(Candidates(l'))
  {
    SameParents(l, l');
    SameParents(l', l);
    assert BootParents(l) == BootParents(l');
    OnePass(l, BootParents(l));
    OnePass(l', BootParents(l));
    TotalReordered(l, l', (d: Device) => Kept(d, BootParents(l)));
  }

  lemma {:induction false} SameParents(l: seq<Device>, l': seq<Device>)
    requires multiset(l) == multiset(l')
    ensures BootParents(l) <= BootParents(l')
  {
    forall i | 0 <= i < |l| && BootPartition(l[i]) ensures l[i].pkname in BootParents(l') {
      assert l[i] in multiset(l');
      var k :| 0 <= k < |l'| && l'[k] == l[i];
    }
  }

  // --------------------------------------------------------------------------- wiping

  const GIB := 1073741824

  function Pow10(k: nat): (p: nat)
    ensures p > 0
  {
    if k == 0 then 1 else 10 * Pow10(k - 1)
  }

  /** The offsets are 2^30 * 10^k, exactly those below the disk size. */
  ghost predicate Offsets(o: seq<nat>, size: int) {
    && (forall k :: 0 <= k < |o| ==> o[k] == 1073741824 * Pow10(k))
    && (forall k: nat :: 1073741824 * Pow10(k) < size <==> k < |o|)
  }

  /** The loop of `clean_disk` that computes the offsets to overwrite. */
  method SeekOffsets(size: int) returns (o: seq<nat>)
    ensures Offsets(o, size)
  {
    var seek := GIB;
    o := [];
    while seek < size
      invariant seek == GIB * Pow10(|o|)
      invariant OffsetsBelow(o, size)
      decreases size - seek
    {
      NextOffset(o, seek, size);
      o := o + [seek];
      seek := seek * 10;
    }
    OffsetsExact(o, size);
  }

  /** The offsets so far, all below the size. */
  ghost predicate OffsetsBelow(o: seq<nat>, size: int) {
    forall k :: 0 <= k < |o| ==> o[k] == GIB * Pow10(k) < size
  }

  lemma {:induction false} NextOffset(o: seq<nat>, seek: nat, size: int)
    requires OffsetsBelow(o, size) && seek == GIB * Pow10(|o|) < size
    ensures OffsetsBelow(o + [seek], size) && seek * 10 == GIB * Pow10(|o + [seek]|)
  {
    assert Pow10(|o| + 1) == 10 * Pow10(|o|);
  }

  lemma {:induction false} OffsetsExact(o: seq<nat>, size: int)
    requires OffsetsBelow(o, size) && GIB * Pow10(|o|) >= size
    ensures Offsets(o, size)
  {
    forall k: nat ensures GIB * Pow10(k) < size <==> k < |o| {
      if k >= |o| { Pow10Grows(|o|, k); } else { assert o[k] < size; }
    }
  }

  lemma {:induction false} Pow10Grows(j: nat, k: nat)
    requires j <= k
    ensures Pow10(j) <= Pow10(k)
    ensures j < k ==> 10 * Pow10(j) <= Pow10(k)
  {
    if j < k { Pow10Grows(j, k - 1); }
  }

  /** The overwritten windows are pairwise disjoint and in increasing order, and n >= 1 offsets
      pin the disk size to 2^30*10^(n-1) < size <= 2^30*10^n. */
  lemma {:induction false} WindowsDisjoint(o: seq<nat>, size: int)
    requires Offsets(o, size)
    ensures forall i, j :: 0 <= i < j < |o| ==> o[i] + 204800 <= o[j]
    ensures |o| >= 1 ==> 1073741824 * Pow10(|o| - 1) < size <= 1073741824 * Pow10(|o|)
    ensures |o| == 0 <==> size <= 1073741824
  {
    forall i, j | 0 <= i < j < |o| ensures o[i] + 204800 <= o[j] { Pow10Grows(i, j); }
    assert Pow10(0) == 1;
    if |o| >= 1 { assert GIB * Pow10(|o| - 1) < size; }
    assert !(GIB * Pow10(|o|) < size);
  }

  datatype Command =
    | QuerySize(device: string)
    | WipeFs(device: string)
    | CheckSgdisk
    | ZapAll(device: string)
    | Overwrite(device: string, seek: nat)

  predicate Destroys(c: Command, device: string) {
    match c
    case WipeFs(d) => d == device
    case ZapAll(d) => d == device
    case Overwrite(d, _) => d == device
    case _ => false
  }

  predicate Destructive(c: Command) { c.WipeFs? || c.ZapAll? || c.Overwrite? }

  function Overwrites(device: string, o: seq<nat>): (cs: seq<Command>)
    ensures |cs| == |o| && forall k :: 0 <= k < |o| ==> cs[k] == Overwrite(device, o[k])
  {
    seq(|o|, k requires 0 <= k < |o| => Overwrite(device, o[k]))
  }

  /** The commands before the overwrites. */
  method WipeTables(device: string, sized: bool, runSgdisk: bool, sgdiskMissing: bool) returns (cmds: seq<Command>)
    ensures cmds != [] && cmds[0] == WipeFs(device)
    ensures forall c :: c in cmds ==> !c.Overwrite? && (Destructive(c) ==> Destroys(c, device))
    ensures ZapAll(device) in cmds <==> runSgdisk && !sgdiskMissing
    ensures QuerySize(device) in cmds <==> !sized
    ensures CheckSgdisk in cmds <==> runSgdisk
  {
    cmds := [WipeFs(device)];
    if runSgdisk {
      cmds := cmds + [CheckSgdisk];
      if !sgdiskMissing { cmds := cmds + [ZapAll(device)]; }
    }
    if !sized { cmds := cmds + [QuerySize(device)]; }
  }

  /** One overwrite per offset below the size. */
  method OverwriteAt(device: string, bytes: int) returns (cmds: seq<Command>, o: seq<nat>)
    ensures Offsets(o, bytes) && cmds == Overwrites(device, o)
  {
    o := SeekOffsets(bytes);
    cmds := [];
    for i := 0 to |o|
      invariant cmds == Overwrites(device, o[..i])
    {
      cmds := cmds + [Overwrite(device, o[i])];
    }
    assert o[..|o|] == o;
  }

  /** `clean_disk`; a size that is absent or zero is queried. The commands end with one overwrite
      per offset below the size, and nothing but the given device is touched. */
  method CleanDisk(device: string, size: Option<int>, queried: int, runSgdisk: bool, sgdiskMissing: bool)
    returns (cmds: seq<Command>, o: seq<nat>)
    ensures Offsets(o, if size.Some? && size.value != 0 then size.value else queried)
    ensures WipedAt(cmds, device, o)
    ensures ZapAll(device) in cmds <==> runSgdisk && !sgdiskMissing
    ensures CheckSgdisk in cmds <==> runSgdisk
  {
    var sized := size.Some? && size.value != 0;
    var tables := WipeTables(device, sized, runSgdisk, sgdiskMissing);
    var rest;
    rest, o := OverwriteAt(device, if sized then size.value else queried);
    cmds := tables + rest;
  }

  /** The device and no other is wiped, and overwritten at exactly the given offsets. */
  ghost predicate WipedAt(cmds: seq<Command>, device: string, o: seq<nat>) {
    && cmds != [] && cmds[0] == WipeFs(device)
    && (forall c :: c in cmds && Destructive(c) ==> Destroys(c, device))
    && (forall s: nat :: Overwrite(device, s) in cmds <==> s in o)
    && |o| <= |cmds| && cmds[|cmds| - |o|..] == Overwrites(device, o)
  }

  /** The device is wiped and overwritten at every offset below its size. */
  ghost predicate FullyWiped(cmds: seq<Command>, device: string, size: int) {
    && WipeFs(device) in cmds
    && forall j: nat :: 1073741824 * Pow10(j) < size ==> Overwrite(device, 1073741824 * Pow10(j)) in cmds
  }

  lemma {:induction false} WipedGrows(cmds: seq<Command>, all: seq<Command>, device: string, size: int)
    requires FullyWiped(cmds, device, size) && forall c :: c in cmds ==> c in all
    ensures FullyWiped(all, device, size)
  {
  }

  lemma {:induction false} WipedFully(cmds: seq<Command>, device: string, o: seq<nat>, size: int)
    requires WipedAt(cmds, device, o) && Offsets(o, size)
    ensures FullyWiped(cmds, device, size)
  {
    forall j: nat | 1073741824 * Pow10(j) < size ensures Overwrite(device, 1073741824 * Pow10(j)) in cmds {
      assert o[j] in o;
    }
  }

  /** Every overwrite is at one of the offsets below the size of its device. */
  ghost predicate AtOffsets(
    cmds: seq<Command>, names: seq<string>, sizes: string -> int, partition: Option<string>, partitionSize: int)
  {
    forall c :: c in cmds && c.Overwrite? ==>
      && (exists j: nat :: c.seek == 1073741824 * Pow10(j))
      && (|| (exists k :: k in names && c.device == "/dev/" + k && c.seek < sizes(k))
          || (partition == Some(c.device) && c.seek < partitionSize))
  }

  lemma {:induction false} OverwriteAtOffset(cmds: seq<Command>, device: string, o: seq<nat>, size: int, c: Command)
    requires WipedAt(cmds, device, o) && Offsets(o, size) && c in cmds && c.Overwrite?
    ensures c.device == device && c.seek < size && exists j: nat :: c.seek == 1073741824 * Pow10(j)
  {
    assert Destructive(c);
    var k :| 0 <= k < |o| && o[k] == c.seek;
  }

  /** What has been done about one candidate. */
  ghost predicate Cleaned(cmds: seq<Command>, device: string, size: int, zap: bool) {
    FullyWiped(cmds, device, size) && (ZapAll(device) in cmds <==> zap)
  }

  /** The first n names were cleaned, and nothing else was touched. */
  ghost predicate CleanedUpTo(cmds: seq<Command>, names: seq<string>, n: nat, sizes: string -> int, zap: bool)
    requires n <= |names|
  {
    && (forall c :: c in cmds && Destructive(c) ==> exists k :: k in names && Destroys(c, "/dev/" + k))
    && (forall j :: 0 <= j < n ==> FullyWiped(cmds, "/dev/" + names[j], sizes(names[j])))
    && (forall j :: 0 <= j < n && zap ==> ZapAll("/dev/" + names[j]) in cmds)
    && (!zap ==> forall c :: c in cmds ==> !c.ZapAll?)
    && AtOffsets(cmds, names, sizes, None, 0)
  }

  /** The commands for the next name, seen through what they do. */
  ghost predicate NextClean(more: seq<Command>, name: string, o: seq<nat>, size: int, zap: bool) {
    WipedAt(more, "/dev/" + name, o) && Offsets(o, size) && (ZapAll("/dev/" + name) in more <==> zap)
  }

  lemma {:induction false} CleanStep(
    cmds: seq<Command>, names: seq<string>, n: nat, sizes: string -> int, zap: bool, more: seq<Command>, o: seq<nat>)
    requires n < |names| && CleanedUpTo(cmds, names, n, sizes, zap)
    requires NextClean(more, names[n], o, sizes(names[n]), zap)
    ensures CleanedUpTo(cmds + [QuerySize("/dev/" + names[n])] + more, names, n + 1, sizes, zap)
  {
    var all := cmds + [QuerySize("/dev/" + names[n])] + more;
    assert forall c :: c in all <==> c in cmds || c == QuerySize("/dev/" + names[n]) || c in more;
    StepSafe(all, cmds, names, n, zap, more, o);
    StepWiped(all, cmds, names, n, sizes, more, o, zap);
    StepOffsets(all, cmds, names, n, sizes, more, o);
  }

  lemma {:induction false} StepSafe(
    all: seq<Command>, cmds: seq<Command>, names: seq<string>, n: nat, zap: bool, more: seq<Command>, o: seq<nat>)
    requires n < |names| && WipedAt(more, "/dev/" + names[n], o) && (ZapAll("/dev/" + names[n]) in more <==> zap)
    requires forall c :: c in all <==> c in cmds || c == QuerySize("/dev/" + names[n]) || c in more
    requires forall c :: c in cmds && Destructive(c) ==> exists k :: k in names && Destroys(c, "/dev/" + k)
    requires !zap ==> forall c :: c in cmds ==> !c.ZapAll?
    ensures forall c :: c in all && Destructive(c) ==> exists k :: k in names && Destroys(c, "/dev/" + k)
    ensures !zap ==> forall c :: c in all ==> !c.ZapAll?
  {
    assert names[n] in names;
    if !zap {
      forall c | c in more ensures !c.ZapAll? { assert Destructive(c) ==> Destroys(c, "/dev/" + names[n]); }
    }
  }

  lemma {:induction false} StepWiped(
    all: seq<Command>, cmds: seq<Command>, names: seq<string>, n: nat, sizes: string -> int, more: seq<Command>,
    o: seq<nat>, zap: bool)
    requires n < |names| && NextClean(more, names[n], o, sizes(names[n]), zap)
    requires forall c :: c in cmds || c in more ==> c in all
    requires forall j :: 0 <= j < n ==> FullyWiped(cmds, "/dev/" + names[j], sizes(names[j]))
    requires forall j :: 0 <= j < n && zap ==> ZapAll("/dev/" + names[j]) in cmds
    ensures forall j :: 0 <= j < n + 1 ==> FullyWiped(all, "/dev/" + names[j], sizes(names[j]))
    ensures forall j :: 0 <= j < n + 1 && zap ==> ZapAll("/dev/" + names[j]) in all
  {
    WipedFully(more, "/dev/" + names[n], o, sizes(names[n]));
    forall j | 0 <= j < n + 1 ensures FullyWiped(all, "/dev/" + names[j], sizes(names[j])) {
      WipedGrows(if j < n then cmds else more, all, "/dev/" + names[j], sizes(names[j]));
    }
  }

  lemma {:induction false} StepOffsets(
    all: seq<Command>, cmds: seq<Command>, names: seq<string>, n: nat, sizes: string -> int, more: seq<Command>,
    o: seq<nat>)
    requires n < |names| && WipedAt(more, "/dev/" + names[n], o) && Offsets(o, sizes(names[n]))
    requires forall c :: c in all <==> c in cmds || c == QuerySize("/dev/" + names[n]) || c in more
    requires AtOffsets(cmds, names, sizes, None, 0)
    ensures AtOffsets(all, names, sizes, None, 0)
  {
    assert names[n] in names;
    forall c | c in more && c.Overwrite?
      ensures c.device == "/dev/" + names[n] && c.seek < sizes(names[n])
      ensures exists j: nat :: c.seek == 1073741824 * Pow10(j)
    {
      OverwriteAtOffset(more, "/dev/" + names[n], o, sizes(names[n]), c);
    }
  }

  /** Every candidate was cleaned, zapped exactly if sgdisk is there, and so was the partition, without
      sgdisk; no overwrite is anywhere else. */
  ghost predicate CleanedAll(
    cmds: seq<Command>, names: seq<string>, sizes: string -> int, partition: Option<string>, partitionSize: int,
    zap: bool)
  {
    && (forall k :: k in names ==> Cleaned(cmds, "/dev/" + k, sizes(k), zap))
    && (partition.Some? ==> FullyWiped(cmds, partition.value, partitionSize))
    && AtOffsets(cmds, names, sizes, partition, partitionSize)
  }

  /** `clean_disks`: every candidate, then the configured root partition without sgdisk. */
  method CleanDisks(
    l: seq<Device>, sizes: string -> int, partition: Option<string>, partitionSize: int, sgdiskMissing: bool)
    returns (cmds: seq<Command>)
    ensures SafeOn(cmds, l, partition)
    ensures CleanedAll(cmds, Candidates(l), sizes, partition, partitionSize, !sgdiskMissing)
  {
    var names := DisksAvailableToCleanup(l);
    cmds := [];
    for i := 0 to |names|
      invariant CleanedUpTo(cmds, names, i, sizes, !sgdiskMissing)
    {
      var device := "/dev/" + names[i];
      var more, o := CleanDisk(device, Some(sizes(names[i])), sizes(names[i]), true, sgdiskMissing);
      CleanStep(cmds, names, i, sizes, !sgdiskMissing, more, o);
      cmds := cmds + [QuerySize(device)] + more;
    }
    ghost var disks, o := cmds, [];
    if partition.Some? {
      var more;
      more, o := CleanDisk(partition.value, None, partitionSize, false, sgdiskMissing);
      cmds := cmds + more;
    }
    PartitionLast(disks, names, sizes, partition, partitionSize, !sgdiskMissing, cmds, o);
    forall b | BootDisk(l, b) && partition != Some("/dev/" + b) ensures Spares(cmds, "/dev/" + b) {
      BootSpared(l, cmds, partition, b);
    }
  }

  lemma {:induction false} PartitionLast(
    disks: seq<Command>, names: seq<string>, sizes: string -> int, partition: Option<string>, partitionSize: int,
    zap: bool, cmds: seq<Command>, o: seq<nat>)
    requires CleanedUpTo(disks, names, |names|, sizes, zap) && disks <= cmds
    requires if partition.None? then cmds == disks else
      var more := cmds[|disks|..];
      WipedAt(more, partition.value, o) && Offsets(o, partitionSize) && ZapAll(partition.value) !in more
    ensures CleanedAll(cmds, names, sizes, partition, partitionSize, zap)
    ensures forall c :: c in cmds && Destructive(c) ==>
      || (exists k :: k in names && Destroys(c, "/dev/" + k))
      || (partition.Some? && Destroys(c, partition.value) && !c.ZapAll?)
  {
    var more := cmds[|disks|..];
    assert cmds == disks + more;
    assert forall c :: c in cmds <==> c in disks || c in more;
    if partition.Some? {
      WipedFully(more, partition.value, o, partitionSize);
      WipedGrows(more, cmds, partition.value, partitionSize);
      forall c | c in more && c.Overwrite?
        ensures c.device == partition.value && c.seek < partitionSize
        ensures exists j: nat :: c.seek == 1073741824 * Pow10(j)
      {
        OverwriteAtOffset(more, partition.value, o, partitionSize, c);
      }
      forall c | c in more && Destructive(c) ensures Destroys(c, partition.value) && !c.ZapAll? { }
    }
    forall k | k in names ensures Cleaned(cmds, "/dev/" + k, sizes(k), zap) {
      var j :| 0 <= j < |names| && names[j] == k;
      WipedGrows(disks, cmds, "/dev/" + k, sizes(k));
    }
  }

  /** Only candidates and the configured partition are destroyed, the latter without sgdisk; in
      particular no boot disk is, unless it is configured as that partition. */
  ghost predicate SafeOn(cmds: seq<Command>, l: seq<Device>, partition: Option<string>) {
    && (forall c :: c in cmds && Destructive(c) ==>
        || (exists k :: k in Candidates(l) && Destroys(c, "/dev/" + k))
        || (partition.Some? && Destroys(c, partition.value) && !c.ZapAll?))
    && forall b :: BootDisk(l, b) && partition != Some("/dev/" + b) ==> Spares(cmds, "/dev/" + b)
  }

  lemma {:induction false} SafePrefix(cmds: seq<Command>, n: nat, l: seq<Device>, partition: Option<string>)
    requires SafeOn(cmds, l, partition) && n <= |cmds|
    ensures SafeOn(cmds[..n], l, partition)
  {
    assert forall c :: c in cmds[..n] ==> c in cmds;
    forall b | BootDisk(l, b) && partition != Some("/dev/" + b) ensures Spares(cmds[..n], "/dev/" + b) {
      assert Spares(cmds, "/dev/" + b);
    }
  }

  /** What one call of `clean_disks` meets: the listing, None when it cannot be had, the sizes, and
      the position of the command that fails. */
  datatype Conditions = Conditions(
    listing: Option<seq<Device>>, sizes: string -> int, partitionSize: int, sgdiskMissing: bool, fails: Option<nat>)

  /** One call: the commands issued, up to and including the failing one. */
  method TryCleanDisks(on: Conditions, partition: Option<string>) returns (ok: bool, cmds: seq<Command>)
    ensures CallSafe(on, cmds, partition)
    ensures CallFailed(on, cmds) <==> !ok
    ensures ok ==> WipesAll(on, cmds, partition)
  {
    if on.listing.None? { return false, []; }
    cmds := CleanDisks(on.listing.value, on.sizes, partition, on.partitionSize, on.sgdiskMissing);
    ok := on.fails.None? || |cmds| <= on.fails.value;
    if !ok {
      SafePrefix(cmds, on.fails.value + 1, on.listing.value, partition);
      cmds := cmds[..on.fails.value + 1];
    }
  }

  /** The call failed: no listing, or the failing command was reached. */
  predicate CallFailed(on: Conditions, cmds: seq<Command>) {
    on.listing.None? || (on.fails.Some? && |cmds| == on.fails.value + 1)
  }

  ghost predicate CallSafe(on: Conditions, cmds: seq<Command>, partition: Option<string>) {
    if on.listing.None? then cmds == [] else SafeOn(cmds, on.listing.value, partition)
  }

  /** Every call is safe on its own listing, all but a successful last one fail, and that one wipes
      every candidate of its own listing and the partition. */
  ghost predicate Repeated(
    conditions: nat -> Conditions, issued: seq<seq<Command>>, ok: bool, partition: Option<string>)
  {
    && (forall a :: 0 <= a < |issued| ==> CallSafe(conditions(a), issued[a], partition))
    && (forall a :: 0 <= a < |issued| ==> (CallFailed(conditions(a), issued[a]) <==> !ok || a < |issued| - 1))
    && (ok ==> issued != [] && WipesAll(conditions(|issued| - 1), issued[|issued| - 1], partition))
  }

  ghost predicate WipesAll(on: Conditions, cmds: seq<Command>, partition: Option<string>) {
    on.listing.Some? &&
    CleanedAll(cmds, Candidates(on.listing.value), on.sizes, partition, on.partitionSize, !on.sgdiskMissing)
  }

  /** The decorated `clean_disks`: up to ten calls, as long as they fail. */
  method CleanDisksRetried(conditions: nat -> Conditions, partition: Option<string>)
    returns (ok: bool, issued: seq<seq<Command>>)
    ensures 1 <= |issued| <= 10 && (!ok ==> |issued| == 10)
    ensures Repeated(conditions, issued, ok, partition)
  {
    ok, issued := false, [];
    while !ok && |issued| < 10
      invariant |issued| <= 10 && Repeated(conditions, issued, ok, partition)
      decreases !ok, 10 - |issued|
    {
      var cmds;
      ok, cmds := TryCleanDisks(conditions(|issued|), partition);
      RepeatStep(conditions, issued, ok, partition, cmds);
      issued := issued + [cmds];
    }
  }

  lemma {:induction false} RepeatStep(
    conditions: nat -> Conditions, issued: seq<seq<Command>>, ok: bool, partition: Option<string>, cmds: seq<Command>)
    requires Repeated(conditions, issued, false, partition)
    requires var on := conditions(|issued|);
      (CallFailed(on, cmds) <==> !ok) && (ok ==> WipesAll(on, cmds, partition)) && CallSafe(on, cmds, partition)
    ensures Repeated(conditions, issued + [cmds], ok, partition)
  {
    var all := issued + [cmds];
    forall a | 0 <= a < |all| ensures CallSafe(conditions(a), all[a], partition) {
      assert all[a] == if a < |issued| then issued[a] else cmds;
    }
  }

  /** No command wipes or overwrites the device. */
  ghost predicate Spares(cmds: seq<Command>, device: string) { forall c :: c in cmds ==> !Destroys(c, device) }

  lemma {:induction false} BootSpared(l: seq<Device>, cmds: seq<Command>, partition: Option<string>, b: string)
    requires forall c :: c in cmds && Destructive(c) ==>
      || (exists k :: k in Candidates(l) && Destroys(c, "/dev/" + k))
      || (partition.Some? && Destroys(c, partition.value))
    requires BootDisk(l, b) && partition != Some("/dev/" + b)
    ensures Spares(cmds, "/dev/" + b)
  {
    forall c | c in cmds ensures !Destroys(c, "/dev/" + b) {
      if Destructive(c) && !(partition.Some? && Destroys(c, partition.value)) {
        var k :| k in Candidates(l) && Destroys(c, "/dev/" + k);
        NeverBootDisk(l, k, b);
      }
    }
  }

  /** NO BOOT DISK: a device path wiped as a candidate is never that of a boot disk. */
  lemma {:induction false} NeverBootDisk(l: seq<Device>, k: string, boot: string)
    requires k in Candidates(l) && BootDisk(l, boot)
    ensures "/dev/" + k != "/dev/" + boot
  {
    CandidatesMeaning(l, k);
    assert ("/dev/" + k)[5..] == k;
    assert ("/dev/" + boot)[5..] == boot;
  }

  predicate Simulatable(k: string) { StartsWith(k, "nvme") || StartsWith(k, "sd") }

  function Simulated(names: seq<string>): seq<string> {
    if names == [] then [] else
    var n := |names| - 1;
    Simulated(names[..n]) + if Simulatable(names[n]) then [names[n]] else []
  }

  /** `detect_simulation_disk_on_node`: the last candidate with an nvme or sd name. */
  method DetectSimulationDisk(l: seq<Device>) returns (path: Option<string>)
    ensures path.None? <==> forall k :: k in Candidates(l) ==> !("nvme" <= k || "sd" <= k)
    ensures path.Some? ==> exists i :: LastSimulatable(Candidates(l), i) && path.value == "/dev/" + Candidates(l)[i]
    ensures forall b :: BootDisk(l, b) ==> path != Some("/dev/" + b)
  {
    var names := DisksAvailableToCleanup(l);
    var disks: seq<string> := [];
    for i := 0 to |names|
      invariant disks == Simulated(names[..i])
    {
      assert names[..i + 1][..i] == names[..i];
      if Simulatable(names[i]) { disks := disks + [names[i]]; }
    }
    assert names[..|names|] == names;
    SimulatedMeaning(names);
    if disks == [] { return None; }
    path := Some("/dev/" + disks[|disks| - 1]);
    ghost var i := SimulatedLast(names);
    forall b | BootDisk(l, b) ensures path != Some("/dev/" + b) { NeverBootDisk(l, names[i], b); }
  }

  /** The i-th name is the last one with an nvme or sd name. */
  ghost predicate LastSimulatable(names: seq<string>, i: int) {
    && 0 <= i < |names| && ("nvme" <= names[i] || "sd" <= names[i])
    && forall j :: i < j < |names| ==> !("nvme" <= names[j] || "sd" <= names[j])
  }

  lemma {:induction false} SimulatedLast(names: seq<string>) returns (i: nat)
    requires Simulated(names) != []
    ensures LastSimulatable(names, i) && Simulated(names)[|Simulated(names)| - 1] == names[i]
  {
    var n := |names| - 1;
    if Simulatable(names[n]) {
      i := n;
    } else {
      i := SimulatedLast(names[..n]);
      assert forall j :: 0 <= j < n ==> names[..n][j] == names[j];
    }
  }

  lemma {:induction false} SimulatedMeaning(names: seq<string>)
    ensures forall k :: k in Simulated(names) <==> k in names && Simulatable(k)
    ensures (forall k :: k in names ==> !Simulatable(k)) <==> Simulated(names) == []
  {
    if names != [] {
      var n := |names| - 1;
      SimulatedMeaning(names[..n]);
      assert forall k :: k in names <==> k in names[..n] || k == names[n];
    }
  }
}
