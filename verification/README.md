# Decision procedures of the ocs-ci deployment code, modelled and proved in Dafny

ocs-ci deploys OpenShift Data Foundation clusters. Most of `ocs_ci/deployment` is plumbing around
`oc`, `ibmcloud`, `lsblk` and REST calls; between those calls it takes decisions whose correctness
does not depend on the plumbing. This project models those decisions and proves what they promise
for every input, every command outcome and every run.

External calls are inputs: a listing is a value, a command answers from an arbitrary stream
(`Ok`, `Failed` for `CommandFailed`, `Crashed` for any other exception, such as the
`subprocess.TimeoutExpired` that `exec_cmd` lets through), a clock is a non-decreasing stream of
readings. Loops of the source are loops here, objects whose fields are updated are classes, and each
method is proved against a specification about which the properties are then proved as lemmas.

| file | what it models |
|---|---|
| `Py.dfy` | Python values: optional values, insertion-ordered dictionaries, slices, string tests |
| `Deal.dfy` | dealing groups in rounds: closed form, order, fairness and coverage of every prefix |
| `Allocator.dfy`, `AllocatorLaws.dfy`, `Labelling.dfy` | `label_and_taint_nodes` |
| `Cloud.dfy`, `Teardown.dfy`, `TeardownLaws.dfy`, `Destroy.dfy` | the existing-VPC teardown on IBM Cloud, and the two deletion waits |
| `VpcDelete.dfy` | `_delete_vpc` |
| `Recovery.dfy` | the rate-limited host recovery and the installation poll that triggers it |
| `HostRoles.dfy`, `RoleAssignment.dfy` | host selection, MAC pairs, host updates, and their composition |
| `Disks.dfy` | which disks are wiped and at which offsets |
| `Semver.dfy`, `Versions.dfy` | version strings and the OCP/HyperConverged translation |
| `Reconcile.dfy` | the customizedVariables reconcile |
| `MirrorUrl.dfy` | the FDF catalog mirror location |
| `Submariner.dfy` | Submariner detection |
| `DrPair.dfy` | the cluster pairs of MirrorPeer and DRPolicy |

Main results, by component:

- **Allocator.** The round-robin loop over a dictionary that it pops from and deletes from terminates
  (measure: remaining nodes plus remaining keys). The worker of rank r in the j-th zone lands at index
  `sum over zones of min(size, r) + number of earlier zones larger than r`; the result is a permutation
  of the workers; every prefix covers `min(k, zones)` zones, which no choice of k workers exceeds, and
  no zone is more than one ahead of another that still has workers. In the explicit-zone arbiter mode
  success is characterised exactly (`ArbiterFits`), and so is it in the autodetecting one (`AutodetectFits`).
- **Teardown.** Whatever the listings and failures, every delete targets a listed resource that matches
  the prefix, and kinds are torn down in order. A rejected delete stops nothing, and a crash stops its own
  kind only: every kind is listed once, and every match of a kind that did not crash is settled, that is,
  accepted or rejected. `LeftoversExistError` is raised exactly when a listing failed, something crashed
  or some delete was rejected, and it carries the number of such faults, which can be read off the trace
  and the listings, also when identifiers repeat. A normal return means every match of all six kinds is gone.
- **`_delete_vpc`.** Every trace is its plan, cut where the stream of answers holds the first failure, and
  over all such traces the VPC is deleted last and each subnet after its own load balancers.
- **Recovery.** n recoveries of a machine span at least (n-1) periods, and the recoveries of a machine
  are the same with and without the calls for other machines.
- **Role assignment.** From inventory to told hosts: each discovered host gets the name and role of its
  own machine, and the role counts are the replica counts.

Three properties fail on part of their inputs, and each has an exact condition and an example:
the OCP/HyperConverged round trips (`OcpRoundTrip` with `FourTwentyThree`, `HyperConvergedRoundTrip`
with `TwoZero`); re-deriving the mirror target (`Rederived` with `TrailingSlash`); and
MirrorPeer/DRPolicy agreement without relations, where a recovery cluster listed before the secondary is chosen by one and skipped by the other
(`ListAgree`, `RecoveryListedFirst`). The two deletion waits differ on exactly one kind of answer
stream (`WaitsCompared`).

Where the code and its comments disagree the code is modelled: the group and ACL passes of
`_delete_vpc` test the cluster name against the resource type
(`ocs_ci/deployment/ibmcloud.py:620`, `:629`), and the inline load-balancer wait reports a timeout
when the balancer disappears on the last attempt (`ocs_ci/deployment/ibmcloud.py:443`).

## Model

| member | source | states |
|---|---|---|
| Allocator.WorkersMeaning | ocs_ci/deployment/deployment.py:1291-1295 | the workers are exactly the nodes with the label node-role.kubernetes.io/worker, in listing order |
| Allocator.ZoneMembers | ocs_ci/deployment/deployment.py:1300-1304 | the names of a zone are those of the nodes whose topology.kubernetes.io/zone label says so, in listing order; nodes without the label form a group of their own |
| Allocator.GroupByZone | ocs_ci/deployment/deployment.py:1300-1304 | the dictionary lists the zones in order of first appearance, each with its workers in listing order |
| Allocator.ZoneOrderFacts | ocs_ci/deployment/deployment.py:1300-1304 | the zone order has no duplicates, contains every worker's zone, and no zone in it is empty |
| Allocator.Pass | ocs_ci/deployment/deployment.py:1334-1340 | one pass over the key snapshot emits the next rank of every zone that has one and deletes exactly the zones that ran out |
| Allocator.RoundRobin | ocs_ci/deployment/deployment.py:1333-1340 | the loop terminates and yields the round-by-round deal of the groups |
| Deal.ClosedForm | ocs_ci/deployment/deployment.py:1333-1340 | rank r of group j is dealt at index sum of min(size, r) plus number of earlier groups larger than r |
| Deal.ClosedFormOnto | ocs_ci/deployment/deployment.py:1333-1340 | every index of the deal is the closed-form position of the slot found there |
| Deal.PositionOrder | ocs_ci/deployment/deployment.py:1333-1340 | positions increase strictly in (rank, group order) |
| Deal.Fair | ocs_ci/deployment/deployment.py:1333-1340 | in every prefix no group is more than one ahead of another unless that one is exhausted |
| Deal.Covers | ocs_ci/deployment/deployment.py:1333-1340 | a prefix of length p touches exactly min(p, number of groups) groups |
| AllocatorLaws.Permutation | ocs_ci/deployment/deployment.py:1298-1340 | the distributed list is a permutation of the worker names |
| AllocatorLaws.WorkerPosition | ocs_ci/deployment/deployment.py:1298-1340 | where the r-th worker of the j-th zone is in the distributed list |
| AllocatorLaws.FairSelection | ocs_ci/deployment/deployment.py:1354-1355 | among the first p workers no zone is more than one ahead of a zone that still has workers |
| AllocatorLaws.ZoneCoverage | ocs_ci/deployment/deployment.py:1354-1355 | the first p workers cover min(p, number of zones) zones |
| AllocatorLaws.BestCoverage | ocs_ci/deployment/deployment.py:1298-1304 | no selection of workers covers more zones than its size or the number of zones |
| Labelling.AutodetectPairs | ocs_ci/deployment/deployment.py:1312-1317 | the autodetection loop yields the pairs whose blocks and length AutodetectBlocks and AutodetectFits describe |
| Labelling.AutodetectFits | ocs_ci/deployment/deployment.py:1312-1352 | the autodetecting mode succeeds exactly when both counts are at most twice the number of zones with at least two workers |
| Labelling.AutodetectBlocks | ocs_ci/deployment/deployment.py:1312-1317 | the list has one block per zone with at least two workers, in zone order, holding the first two of that zone, and nothing else |
| Labelling.PairedAreRich | ocs_ci/deployment/deployment.py:1312-1317 | the zones that contribute are exactly those with at least two workers, each once |
| Labelling.ExplicitZones | ocs_ci/deployment/deployment.py:1318-1331 | the explicit mode takes the per-zone share of each configured zone, or fails at the first zone with fewer than two workers |
| Labelling.FirstSmallAt | ocs_ci/deployment/deployment.py:1322-1331 | the zone named in the exception is the first configured one with fewer than two workers |
| Labelling.ArbiterShares | ocs_ci/deployment/deployment.py:1319-1326 | the shares reach the wanted count exactly when the number of zones divides it and every zone has its share, and never exceed it |
| Py.TruncDivMeaning | ocs_ci/deployment/deployment.py:1319-1321 | the per-zone share is the quotient truncated toward zero |
| Labelling.Distribute | ocs_ci/deployment/deployment.py:1300-1340 | each of the three modes yields its specified list or its exception |
| Labelling.LabelAndTaint | ocs_ci/deployment/deployment.py:1278-1391 | NoWorkerFound exactly when no node carries the worker label; success exactly when both counts fit; then only nodes with the worker label are labelled or tainted, as prefixes of the distributed list, and the commands are the label, the infra label if wanted and the taint, in that order, each for a non-empty selection |
| Labelling.SpreadFromWorkers | ocs_ci/deployment/deployment.py:1311-1340 | in every mode only nodes with the worker label are distributed |
| Py.JoinSplit | ocs_ci/deployment/deployment.py:1355-1382 | the text given to a command names exactly the selected nodes, if no name has a blank |
| Labelling.RoundRobinFits | ocs_ci/deployment/deployment.py:1345-1352 | the round-robin mode succeeds exactly when both counts are at most the number of workers |
| Labelling.SelectionSpansZones | ocs_ci/deployment/deployment.py:1355-1382 | labelled and tainted workers cover as many zones as any selection of that size could |
| Labelling.ArbiterFits | ocs_ci/deployment/deployment.py:1318-1352 | the explicit arbiter mode succeeds exactly when zones divide the count, every zone has max(2, share) workers and the taint count is at most the label count |
| Labelling.ArbiterExact | ocs_ci/deployment/deployment.py:1318-1382 | on success the labelled list is the whole distributed list and contains the tainted one |
| Labelling.ArbiterLabels | ocs_ci/deployment/deployment.py:1322-1326 | on success block i of the list is the first share of zone i |
| Cloud.Cli.ExecRetry | ocs_ci/utility/retry.py:69-116 | up to `tries` attempts, stopping at the first that is not CommandFailed, whose answer is the result |
| Cloud.Cli.WaitForDeletion | ocs_ci/deployment/ibmcloud.py:1031-1071 | gone exactly when the first probe that is not answered Ok, within the bound, is a CommandFailed; only that resource is probed, and no further |
| Cloud.Cli.InlineLoadBalancerWait | ocs_ci/deployment/ibmcloud.py:431-446 | as above, with the same probes, but a failing probe on the last attempt is reported as a timeout |
| Cloud.WaitsCompared | ocs_ci/deployment/ibmcloud.py:431-446 | the inline wait accepts only what the other accepts; they differ exactly when the first failing probe is the last permitted attempt |
| Teardown.ReleaseFloatingIp | ocs_ci/deployment/ibmcloud.py:1178-1196 | rejected exactly after eight failed releases, each followed by a probe that finds the address; otherwise this pattern is cut at the first event that settles the matter or crashes |
| Teardown.DropReferringRules | ocs_ci/deployment/ibmcloud.py:1318-1334 | the planned removals are all issued in order, whether accepted or rejected, unless a crash cuts them short |
| Teardown.DropsMeaning | ocs_ci/deployment/ibmcloud.py:1319-1330 | a removal is planned exactly for the listed rules that refer to the group and have an identifier |
| Teardown.DeleteOne | ocs_ci/deployment/ibmcloud.py:1312-1344 | one resource: referring rules first, then attempts that end in acceptance, in rejection after the kind's number of attempts, or in a crash |
| Teardown.DeleteLoop | ocs_ci/deployment/ibmcloud.py:1104-1117 | the matches are handled in order, a rejected delete stops nothing, a crash stops the rest; the errors are the rejected deletes, and the accepted identifiers are collected in order |
| Teardown.WaitLoop | ocs_ci/deployment/ibmcloud.py:1119-1123 | every accepted resource is probed until gone or as often as permitted |
| Teardown.DeleteMatching | ocs_ci/deployment/ibmcloud.py:1073-1453 | for each kind: one listing, the matches handled in order, then the wait; errors are the rejected deletes plus one for a failed listing or a crash, and count is the number of matches |
| Teardown.FilterMeaning | ocs_ci/deployment/ibmcloud.py:1091-1094 | the matches are kept in listing order, each as often as listed |
| TeardownLaws.RecordRejections | ocs_ci/deployment/ibmcloud.py:1073-1453 | scanning the trace of a method finds exactly its rejected deletes, whatever follows |
| TeardownLaws.RecordAllowed | ocs_ci/deployment/ibmcloud.py:1073-1453 | every command of a method targets a listed match, or a rule that refers to one |
| TeardownLaws.ListsOnce | ocs_ci/deployment/ibmcloud.py:1087-1089 | the first command of a method is its only listing |
| TeardownLaws.RecordCrash | ocs_ci/deployment/ibmcloud.py:1130-1133 | a crash is the last event of a method; a method is interrupted exactly by a crash or a missing listing |
| TeardownLaws.RecordSettled | ocs_ci/deployment/ibmcloud.py:1104-1133 | unless interrupted, every match is accepted, and waited for where the kind is, or rejected, and all rules that refer to a group got a removal command |
| Destroy.WholeSafe | ocs_ci/deployment/ibmcloud.py:1455-1514 | every command of the whole run is one its kind may issue |
| Destroy.WholeInOrder | ocs_ci/deployment/ibmcloud.py:1475-1504 | no command of a kind follows a command of a later kind |
| Destroy.WholeCrash | ocs_ci/deployment/ibmcloud.py:1475-1504 | a crash ends the work on its own kind and on no other |
| Destroy.WholeThorough | ocs_ci/deployment/ibmcloud.py:1475-1504 | every kind is listed once, first, and all its matches are settled unless it is broken, whatever happened to the other kinds |
| Destroy.ErrorsAreFaults | ocs_ci/deployment/ibmcloud.py:1506-1514 | the errors of the six methods sum to the faults the trace shows: rejected deletes plus broken kinds |
| Destroy.FaultsAreTrouble | ocs_ci/deployment/ibmcloud.py:1513-1514 | there is a fault exactly when a listing failed, something crashed or some delete was rejected |
| Destroy.NoFaultAllGone | ocs_ci/deployment/ibmcloud.py:1513-1516 | without a fault every listed match of the six kinds is gone |
| Destroy.MatchMeaning | ocs_ci/deployment/ibmcloud.py:1230-1235 | a resource matches if its name starts with the prefix, a load balancer also with "kube-" and the prefix, an image only if private; it is addressed by id, object storage by guid |
| Destroy.SafeMeansOurs | ocs_ci/deployment/ibmcloud.py:1073-1453 | every delete or probe names a listed resource with such a name, and every rule removed refers to a listed security group with such a name |
| Destroy.GoneMeansNothingLeft | ocs_ci/deployment/ibmcloud.py:1073-1516 | on a normal return every such resource of the six kinds has an accepted delete, or is a floating IP that a probe no longer found |
| Destroy.ThoroughRules | ocs_ci/deployment/ibmcloud.py:1318-1334 | every listed rule that refers to such a security group got a removal command |
| Destroy.AllWaitedFor | ocs_ci/deployment/ibmcloud.py:1119-1123 | every deleted instance was probed until gone or 40 times, every load balancer until gone or 60 times |
| Destroy.DestroyFromExistingVpc | ocs_ci/deployment/ibmcloud.py:1455-1516 | an empty prefix issues nothing; otherwise all of the above holds of the trace, which holds the answers of the stream, LeftoversExistError is raised exactly on trouble, with the number of faults, and on a normal return nothing of the cluster is left |
| VpcDelete.Shell.SubnetPass | ocs_ci/deployment/ibmcloud.py:583-600 | the subnet pass carries out its plan or stops at the first failing answer of the stream |
| VpcDelete.Shell.TypePass | ocs_ci/deployment/ibmcloud.py:602-640 | the same for the five single-type passes, with the guard as written |
| VpcDelete.Shell.DeleteVpcResources | ocs_ci/deployment/ibmcloud.py:572-642 | the trace is the whole plan, or its beginning up to the first command that the stream answers with a failure; each command is for a resource of its type, and without a failure every resource of these types is deleted |
| VpcDelete.RunTyped | ocs_ci/deployment/ibmcloud.py:582-642 | in every trace a vpc-delete is for an "is.vpc" only, and likewise for subnets, gateways, floating IPs and attached balancers; groups and ACLs are deleted only if the cluster name is inside the type name |
| VpcDelete.RunDeletes | ocs_ci/deployment/ibmcloud.py:582-642 | without a failure every resource of these types has an accepted delete, groups and ACLs under the same guard |
| VpcDelete.VpcLast | ocs_ci/deployment/ibmcloud.py:582-642 | in every such trace a vpc-delete follows accepted deletes of every subnet, its balancers, every gateway and every floating IP |
| VpcDelete.BalancersFirst | ocs_ci/deployment/ibmcloud.py:584-600 | in every such trace a subnet-delete follows accepted deletes of its own load balancers |
| Recovery.RateLimit | ocs_ci/deployment/baremetal.py:1410-1475 | n completed recoveries of a machine span at least (n-1)*1200 seconds, and the record holds the last completion |
| Recovery.RecoveriesApart | ocs_ci/deployment/baremetal.py:1410-1421 | any two completed recoveries of a machine are 1200 seconds apart |
| Recovery.NonInterference | ocs_ci/deployment/baremetal.py:1410-1475 | a machine's record and recoveries do not depend on the calls for other machines |
| Recovery.Installer.Decide | ocs_ci/deployment/baremetal.py:1413-1475 | a call is skipped exactly when the machine is not yet eligible, gives up exactly on a VPC machine with a missing or empty server id, and otherwise ends as the lookup and the power commands do |
| Recovery.Installer.DecideMeaning | ocs_ci/deployment/baremetal.py:1413-1475 | skipped exactly when fewer than 1200 seconds have passed since the recorded completion, or since 0; from then on the effect is the prescribed one, a recovery in particular for a known machine with a usable server id and working power commands |
| Recovery.Installer.HandleMachine | ocs_ci/deployment/baremetal.py:1401-1475 | only a completed recovery changes the record, and it records the completion time |
| Recovery.Installer.NextState | ocs_ci/deployment/baremetal.py:1413-1475 | record and clock readings stay those that the history of calls leaves behind |
| Recovery.Installer.Handle | ocs_ci/deployment/baremetal.py:1409-1475 | the above for every host with a name, in terms of clock and record; a recovery records its completion time; other calls, and other machines' entries, leave the record unchanged |
| Recovery.Installer.Dispatch | ocs_ci/deployment/assisted_installer.py:487-498 | the handler is called for exactly the pending hosts, in order, up to and including the first call that raises, and it is reported to raise only then |
| Recovery.Installer.Poll | ocs_ci/deployment/assisted_installer.py:464-504 | a sample without hosts ends the run before any call; a pending one is dispatched; an installed one ends the run |
| Recovery.Installer.InstallCluster | ocs_ci/deployment/assisted_installer.py:461-504 | the run ends at the first sample that ends it, and over all samples used the handler is called for exactly the pending hosts of pending samples, up to the first call that raises |
| Recovery.Installer.RunIsRateLimited | ocs_ci/deployment/assisted_installer.py:461-498 | with a clock that never goes back, after any run of the installer the rate limit holds for every machine |
| HostRoles.SelectHosts | ocs_ci/deployment/baremetal.py:1044-1089 | succeeds exactly when the picks have MACs and the counts match; the lists and both MAC dictionaries are those of the picks |
| HostRoles.PicksAreFirst | ocs_ci/deployment/baremetal.py:1055-1079 | per role the picks are the first so many machines of the inventory |
| HostRoles.EnoughMachines | ocs_ci/deployment/baremetal.py:1082-1089 | the replica assertions pass exactly when the inventory has enough machines of the role |
| HostRoles.OfRoleMeaning | ocs_ci/deployment/baremetal.py:1055-1079 | the machines of a role are those whose entry has that role, in inventory order |
| HostRoles.HostMacPairs | ocs_ci/deployment/assisted_installer.py:388-402 | the pairs of all hosts and interfaces with an IPv4 address, in order |
| HostRoles.PairsMeaning | ocs_ci/deployment/assisted_installer.py:396-402 | a pair is listed exactly when the host shows that MAC on an interface with an IPv4 address |
| HostRoles.AppliedAt | ocs_ci/deployment/assisted_installer.py:436-448 | a host is updated exactly if one of its MACs is known, with that MAC's name and role when it is the only one |
| HostRoles.InfraEnv.UpdateHostsConfig | ocs_ci/deployment/assisted_installer.py:427-448 | one update per pair with a known MAC, the last one per host wins |
| RoleAssignment.HostGetsItsMachine | ocs_ci/deployment/assisted_installer.py:436-448 | each discovered host is told the name and role of its own machine |
| RoleAssignment.RolesCounted | ocs_ci/deployment/assisted_installer.py:436-448 | as many hosts are told a role as machines were selected for it |
| RoleAssignment.NamesOnto | ocs_ci/deployment/assisted_installer.py:436-448 | the names told are exactly the selected machines |
| RoleAssignment.NamesInjective | ocs_ci/deployment/assisted_installer.py:436-448 | different hosts are told different names |
| RoleAssignment.AssignRoles | ocs_ci/deployment/baremetal.py:1055-1372 | selection succeeds exactly when the inventory suffices and the picks have MACs; then for a one-to-one setup hosts and machine names are in bijection and the role counts are the replica counts |
| Disks.DisksAvailableToCleanup | ocs_ci/deployment/baremetal.py:1797-1821 | the two passes yield the candidates in listing order |
| Disks.CandidatesMeaning | ocs_ci/deployment/baremetal.py:1797-1821 | a name is a candidate exactly if it is that of a listed disk, does not contain "nbd", and is not the parent of a partition at /boot whose name does not contain "nbd" |
| Disks.CandidatesReordered | ocs_ci/deployment/baremetal.py:1797-1821 | reordering the listing only reorders the candidates |
| Disks.SeekOffsets | ocs_ci/deployment/baremetal.py:1928-1935 | terminates with exactly the values 2^30*10^k below the size |
| Disks.WindowsDisjoint | ocs_ci/deployment/baremetal.py:1928-1940 | the offsets pin the size between two powers and the 204800-byte windows are disjoint and increasing |
| Disks.CleanDisk | ocs_ci/deployment/baremetal.py:1862-1945 | only the given device is touched; it is wiped, zapped only if sgdisk is wanted and present, and overwritten at exactly the offsets |
| Disks.CleanDisks | ocs_ci/deployment/baremetal.py:1824-1859 | every destructive command is on a candidate or, without sgdisk, on the configured partition, so none is on a boot disk unless configured as that partition; every candidate and the partition are fully wiped, candidates are zapped exactly if sgdisk is there, and every overwrite is at an offset below the size |
| Disks.TryCleanDisks | ocs_ci/deployment/baremetal.py:1824-1859 | a call cut at a failing command is as safe as a whole one |
| Disks.CleanDisksRetried | ocs_ci/deployment/baremetal.py:1824-1859 | up to ten calls as long as they fail, each safe on its own listing; the one that succeeds wipes every candidate of its listing and the partition |
| Disks.NeverBootDisk | ocs_ci/deployment/baremetal.py:1831-1854 | the device path of a candidate is never that of a boot disk |
| Disks.DetectSimulationDisk | ocs_ci/deployment/baremetal.py:1974-1989 | the detected disk is the last candidate with an nvme or sd name and never a boot disk; none is detected exactly when there is none |
| Semver.PrintRead | ocs_ci/deployment/hyperconverged.py:214 | decimal printing yields a numeric identifier that reads back to the number |
| Semver.ParseThree | ocs_ci/deployment/hyperconverged.py:214 | a printed "a.b.c" parses to (a, b, c) |
| Semver.TextParses | ocs_ci/deployment/hyperconverged.py:207-209 | the text of a version, with any valid pre-release and build, parses to that version |
| Semver.ParseIsText | ocs_ci/deployment/hyperconverged.py:207-209 | whatever parses is the text of the version it parses to |
| Semver.IdentifierCodes | ocs_ci/deployment/hyperconverged.py:207-209 | identifiers consist of ASCII digits, letters and hyphens |
| Versions.DottedReads | ocs_ci/deployment/hyperconverged.py:205-207 | a printed "a.b" is read back after patch completion if both are natural, and rejected otherwise |
| Versions.ForwardText | ocs_ci/deployment/hyperconverged.py:194-232 | the text the first translation returns for every valid version string |
| Versions.FullVersions | ocs_ci/deployment/hyperconverged.py:194-262 | full version strings are translated by major and minor, whatever their patch, pre-release and build |
| Versions.Nightly | ocs_ci/deployment/hyperconverged.py:201-209 | this includes nightly builds M.m.p-0.name |
| Versions.OcpRoundTrip | ocs_ci/deployment/hyperconverged.py:217-262 | OCP to HyperConverged and back gives "M.m" exactly when m < 23 and M >= 5, or M is 3 or 4 and m >= 4 |
| Versions.HyperConvergedRoundTrip | ocs_ci/deployment/hyperconverged.py:217-262 | HyperConverged to OCP and back gives "j.k" exactly when j is 1, or j is 0 and k < 19 |
| Versions.OrderPreserved | ocs_ci/deployment/hyperconverged.py:217-232 | on supported versions the result is "1.k", and k orders as the OCP versions do |
| Versions.FourTwentyThree | ocs_ci/deployment/hyperconverged.py:258-260 | OCP 4.23 comes back as 5.0 |
| Versions.TwoZero | ocs_ci/deployment/hyperconverged.py:217-262 | HyperConverged 2.0 becomes OCP 5.4 and comes back as 1.23 |
| Reconcile.RemoveDuplicates | ocs_ci/deployment/deployment.py:3119-3131 | keeps the first occurrence of every name; the flag says whether there was a duplicate |
| Reconcile.EnableImport | ocs_ci/deployment/deployment.py:3133-3151 | enables or appends configureMceImport; the flag says whether the list changed |
| Reconcile.Reconcile | ocs_ci/deployment/deployment.py:3110-3169 | the reconciled list, patched exactly when it differs from the entry value |
| Reconcile.FirstOccurrences | ocs_ci/deployment/deployment.py:3120-3131 | the kept entries are the first of their names, in increasing input order, and no name is lost |
| Reconcile.ReconciledMeaning | ocs_ci/deployment/deployment.py:3119-3151 | unique names, configureMceImport "true", all other entries in place and unchanged, at most that one appended |
| Reconcile.SecondRun | ocs_ci/deployment/deployment.py:3110-3169 | reconciling the result changes nothing, so a second run does not patch |
| Reconcile.SameLengthStillPatches | ocs_ci/deployment/deployment.py:3122-3151 | one duplicate removed and one entry appended has the old length and still differs |
| MirrorUrl.TagMeaning | ocs_ci/deployment/disconnected.py:109-116 | the tag is what follows the last colon, or else the configured image tag, or else the configured version |
| MirrorUrl.SubpathMeaning | ocs_ci/deployment/disconnected.py:125 | the subpath is the tag without its leading letters v, with each dot replaced by a dash |
| MirrorUrl.RepositoryText | ocs_ci/deployment/disconnected.py:126-133 | the repository is the registry without trailing slashes, the subpath unless the registry ends with it, and the path of the catalog |
| MirrorUrl.RepositoriesAgree | ocs_ci/deployment/disconnected.py:108-133 | the tagging step and the published mirror name the same repository exactly when registry and tag are non-empty |
| MirrorUrl.Rederived | ocs_ci/deployment/disconnected.py:124-131 | deriving the target from a derived one changes nothing exactly when the subpath does not end in "/" or is only slashes |
| MirrorUrl.TrailingSlash | ocs_ci/deployment/disconnected.py:124-131 | registry "r" with tag "4/" derives "r/4/", which re-derives to "r/4/4/" |
| MirrorUrl.RederivedPlainTag | ocs_ci/deployment/disconnected.py:465-481 | a tag that does not end in "/" always re-derives to the same target |
| MirrorUrl.OwnComponent | ocs_ci/deployment/disconnected.py:127-131 | the subpath is a path component of its own unless the registry merely ends in the same characters |
| Submariner.Scan | ocs_ci/deployment/acm.py:128-183 | the two lists hold, in order, the clusters on which Submariner is and is not installed, and the map their cluster sets, unless a ManagedCluster is missing |
| Submariner.NamesWhereMeaning | ocs_ci/deployment/acm.py:171-188 | each list is empty exactly when no cluster is, or every cluster is, installed, and together they have one entry per cluster |
| Submariner.AllLookups | ocs_ci/deployment/acm.py:132-183 | hosted clusters are looked up as "dr-" and their name; a cluster counts as installed by the feature label "available" or an Available condition with status True |
| Submariner.IsInstalled | ocs_ci/deployment/acm.py:110-217 | True, False and each exception occur exactly under their condition, for any number of clusters |
| DrPair.ConfigureMirrorPeer | ocs_ci/deployment/deployment.py:4038-4090 | the entries are filled with the first and the second cluster of the list, or the exception is raised |
| DrPair.DeployDrPolicy | ocs_ci/deployment/deployment.py:4352-4403 | for a template of any length: entry 0 is the primary, entry 1 the last eligible cluster or still the placeholder, all others are kept; IndexError if an entry to fill is missing |
| DrPair.OthersInOrder | ocs_ci/deployment/deployment.py:4056-4058 | the clusters besides the primary are the non-ACM ones, in configuration order |
| DrPair.PolicyClustersInOrder | ocs_ci/deployment/deployment.py:4376-4391 | the DRPolicy loop goes over the clusters of the first relation, or the non-ACM ones, in configuration order |
| DrPair.SecondaryAt | ocs_ci/deployment/deployment.py:4392-4403 | entry 1 is the last cluster that is neither the primary nor a recovery cluster, with "dr-" before its name if hosted and related |
| DrPair.NoSecondary | ocs_ci/deployment/deployment.py:4392-4403 | without such a cluster the placeholder stays |
| DrPair.PrefixedItem | ocs_ci/deployment/deployment.py:4041-4052 | a relation that names a cluster with its prefix finds that cluster |
| DrPair.RelationsAgree | ocs_ci/deployment/deployment.py:4352-4403 | with relations both name the same pair exactly when the primary is in it and its partner is not a recovery cluster |
| DrPair.ListAgree | ocs_ci/deployment/deployment.py:4056-4066 | without relations they agree exactly when the first other cluster is not a recovery cluster and all later ones are |
| DrPair.RecoveryListedFirst | ocs_ci/deployment/deployment.py:4056-4066 | an example in which one non-recovery partner exists and the two still differ |

## Left out

- Labelling.LabelAndTaint: `int(to_label / zones)` is truncated integer division; the rounding of Python floats above 2^53 is not modelled.
- Recovery.Installer.Handle: the power commands of all providers are one outcome: done, a KeyError, or another exception.
- Recovery.Installer.Poll: exceptions in the progress log lines, such as a current stage missing from the listed stages, are not modelled, except for the division by the number of hosts.
- DrPair.DeployDrPolicy: `multicluster_index` is taken to be the position of a cluster in the configuration.
- Teardown.DeleteMatching: the six delete methods are one method over the kind of resource; a null name or an unexpected shape in a listing counts as an unreadable listing.
- Disks.CleanDisksRetried: the `retry` decorator of the listing itself is one outcome, a listing or none; exceptions other than CommandFailed end the run and are not modelled.
- Semver.Parse: the `semantic_version` library is not part of the repository; the grammar of items 2, 9 and 10 of Semantic Versioning 2.0.0 stands for it.
- `oc`, `ibmcloud`, `skopeo`, ssh and REST calls, templates, logging and sleeps: only their outcomes appear.
- The adjacent-tag computation of `tag_fdf_catalog_adjacent_versions`: three tags around a parsed minor version.
- The rest of `force_cleanup_leftovers` and of `delete_leftover_resources`: linear sequences of delete commands.
- Object identity in the reconcile: the source edits dictionaries in place; the model edits values, and nothing reads the entry list afterwards.
- Operator installers, `DeploymentFactory`, DNS records, catalog mapping files and the UI paths: linear sequences or finite tables.
- Storage-cluster references and names in the MirrorPeer template: plain assignments that do not affect the pair.
