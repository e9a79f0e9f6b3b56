# Verification of kt-connect

A Dafny project about the parts of kt-connect that decide where traffic goes and that change what other people share:
the planner that turns cluster addresses into routes, the protocols by which several users take over one Kubernetes
service, the block in the hosts file, and the small texts in which state is written down and read back.

`dafny verify dfyconfig.toml` checks all of it.

## What is modelled

**Routes** (`Ranges`, `RangeText`, `CidrNumbers`, `IpGroups`, `GroupLaws`, `Exclusion`, `CidrPlan`, `ExcludeLoop`,
`ClusterCidr`, `PlannerLaws`). A range is a bit prefix and means the set of 32-bit addresses that begin with it (prefix
notation is section 3.1 of RFC 4632). The loops over 32 cells with their `-1` marker are kept as loops; each is tied to
a function on prefixes, and the functions are tied to equations between address sets, and these, in `CidrNumbers` and
`PlannerLaws`, to the texts themselves and to blocks of 32-bit numbers. What the planner prints, it reads back. Inputs
on which the Go code would panic, such as an address of five octets or an octet of 256 and more, are the third outcome
`Crash` beside a value and an error.

**Service takeover** (`Calls`, `Takeover`, `TakeoverPrograms`). The shared service, with its resource version, is a state
that any number of processes and watchers change in interleaved steps of one API call each; an update from an old copy is
refused, and any update may be refused, or take effect and still report an error. The laws about selector and lock are
proved over every run. The procedures themselves are methods that make these calls one by one while the others interfere,
and are proved to do nothing but such runs.

**Mesh** (`RouterPod`, `Mesh`, `MeshTraffic`, `MeshLeaks`, `MeshWatch`, `MeshPrograms`). Joins and leaves follow each
other, because the teardown does not take the lock; within them every call is a step with the same three outcomes.
`MeshPrograms` has the procedures, `Mesh` the machine and its reference count, `MeshTraffic` the results about traffic for
runs in which the calls succeed, `MeshLeaks` where a reference too many comes from and that it always ends in an outage,
and `MeshWatch` the watchers that point the service back at the router, among others who put it back.

**Hosts file** (`HostsFile`, `HostsLaws`, `HostsRuns`, `HostsNames`, `HostsRefinement`). The file is a sequence of lines
in an object with the process-wide flag. The order in which a Go loop meets the entries of a map is left open.

**Texts and caches** (`Text`, `Baggage`, `BaggageLaws`, `BaggageLua`, `ResolvConf`, `ResolvConfLaws`, `DnsOrder`,
`DnsCache`, `DnsWildcard`, `DnsCacheLaws`, `ExchangeScale`, `ExchangeScaleLaws`, `OptionName`). The Baggage header is
that of section 3 of the W3C Baggage recommendation.

## What the proofs found

Where a property does not hold of the code, there is a lemma that shows it and one that says exactly when it holds.

- `excludeIpFromRange` returns nothing for a range with mask 0, and for an address in the other half of the parent range
  it returns pieces of that half, because the last bit of the range is never compared (`Exclusion.ExcludedIsRightIff`).
  Its one caller passes neither. It never takes out a range (`Exclusion.RangeIsNotExcluded`).
- The exclude loop stops at a range that equals the exclude, so a later range around it keeps the excluded addresses
  routed (`ExcludeLoop.OverlapIsMissed`); an exclude without a mask is ignored (`ExcludeLoop.PlainExcludeIsIgnored`).
- The API server, which is taken out of the ranges of services and pods, stays routed if it lies in an extra range of the
  user's, unless the user also excludes something (`PlannerLaws.PlannerOnNumbers`).
- A held lock can be taken after 180 seconds (`Takeover.OvertakenIffLate`), and `recover` and `clean` delete a lock without
  asking whose it is (`Takeover.RecoverBreaksExclusion`, `Takeover.CleanBreaksExclusion`). They break the exclusion exactly
  if the lock is held when the server takes their update (`Takeover.RemovalKeepsIff`,
  `Takeover.RemovalBreaksExclusionIff`); a look at the copy before the update would tell (`Takeover.JudgedLockIsFree`).
- A `recover` that says there is nothing to do speaks of the service as it read it: a takeover after its read goes
  unnoticed (`Takeover.RecoverMissesTakeover`). What it says still holds if the version is the one it read
  (`TakeoverPrograms.Cluster.Recover`).
- If the reply to the update that writes a lock is lost, everybody waits for the timeout, its writer too
  (`Takeover.LostLockBlocksIff`).
- A join that the router program refuses keeps the reference it took, and an update that fails in `DecreasePodRef` is
  not reported (`MeshLeaks.OtherHeaderLeaksOne`, `MeshLeaks.RefusedCountLeaksOne`). No later call makes up for such a
  reference too many, whoever joins and leaves: the last real leaver removes the last version instead of giving the
  service back, which then selects a router without routes (`MeshLeaks.LeakAlwaysLosesService`). The last leave serves
  exactly if the count was one (`MeshLeaks.LastLeaverIff`).
- The watcher of the last session to leave can point the service back at the router after the selector was restored
  (`MeshWatch.WatcherOfLastLeaver`). A watcher's write is harmless exactly before that (`MeshWatch.WriteIsHarmlessIff`),
  and a service that is lost in this way stays lost until somebody puts it back (`MeshWatch.TrafficWithWatchersIff`).
- An end marker on the very first line of the hosts file, without a begin marker, is taken for a line of the user's
  (`HostsRuns.BrokenIff`).
- A namespace that is called like the last name of the cluster domain, such as `local`, drops the full names of all
  namespaces from the hosts file (`HostsRefinement.DumpRefinesIff`).
- Two overlapping exchanges by scale of one deployment can leave it without replicas
  (`ExchangeScaleLaws.OverlapRestoresIff`).
- After setups of two name servers one restore of resolv.conf brings the first server back
  (`ResolvConfLaws.OneRestoreIsNotEnough`); one is enough exactly if no line was added by kt and later commented out
  (`ResolvConfLaws.OneRestoreIff`).
- An entry of the DNS order that is a number behind a protocol is read as a machine with a port
  (`DnsOrder.EntryMeansIff`).

## Model

| member | source | states |
|---|---|---|
| RangeText.OctetRoundTrip | pkg/kt/service/cluster/cidr.go:363-374 | an octet 0..255 and its eight bits determine each other |
| RangeText.DecToBin | pkg/kt/service/cluster/cidr.go:363-374 | the in-place loop leaves the eight bits of the number, most significant first; a negative number leaves zeros |
| RangeText.ParseIp | pkg/kt/service/cluster/cidr.go:353-361 | segment by segment, an unreadable segment is an error, a fifth one crashes |
| RangeText.QuadIsRead | pkg/kt/service/cluster/cidr.go:334-361 | the text of four octets is read as their bits in order |
| RangeText.AddressIsRead | pkg/kt/service/cluster/cidr.go:334-361 | any text without a slash is an error, a crash or the bits of its parts, by what its parts are |
| RangeText.IpToBin | pkg/kt/service/cluster/cidr.go:334-351 | the cells, the error or the crash of every text; which they are is in AddressIsRead, TextsAreRead and TextRoundTrip |
| RangeText.IpRangeToBin | pkg/kt/service/cluster/cidr.go:315-332 | the cells of a range: its bits and the end marker at the mask |
| RangeText.SumOctet | pkg/kt/service/cluster/cidr.go:286-313 | one octet of the printing loop is the weighted value of the bits before the end marker |
| RangeText.BinToIpRange | pkg/kt/service/cluster/cidr.go:286-313 | every cell array is printed as its prefix, or as the octet-aligned range around it |
| RangeText.TextRoundTrip | pkg/kt/service/cluster/cidr.go:286-332 | every printed range is read back as itself |
| Ranges.InclusionIsPrefix | pkg/kt/service/cluster/cidr.go:145-163 | address sets are included exactly if the prefixes are |
| Ranges.NestedOrDisjoint | pkg/kt/service/cluster/cidr.go:145-163 | two ranges share an address exactly if one prefix begins with the other |
| CidrNumbers.QuadsAreBlocks | pkg/kt/service/cluster/cidr.go:334-361 | two addresses have the same first bits exactly if their numbers are in the same block of that size |
| CidrNumbers.TextsAreRead | pkg/kt/service/cluster/cidr.go:315-361 | the texts of four octets, without a mask or with one, are read as those bits or as so many of them |
| IpGroups.KeysAreDistinct | pkg/kt/service/cluster/cidr.go:233-284 | there is one entry per distinct 16-bit group |
| IpGroups.MeetIsGreatest | pkg/kt/service/cluster/cidr.go:233-284 | an entry is the greatest common prefix of its group |
| IpGroups.FirstDifference | pkg/kt/service/cluster/cidr.go:257-269 | the first cell at which an input differs from an entry |
| IpGroups.Absorb | pkg/kt/service/cluster/cidr.go:241-278 | one input is merged into the entry that shares its first 16 cells, or appended; the entries then stand for all inputs so far |
| IpGroups.CalculateMinimalIpRange | pkg/kt/service/cluster/cidr.go:233-284 | the loops with their end markers compute the ranges of MinimalRanges on all inputs that do not crash; which texts those are is in CidrNumbers.RangesOfAddresses |
| CidrNumbers.RangesOfAddresses | pkg/kt/service/cluster/cidr.go:233-313 | from texts to texts, on any list of addresses: the result is one text for each pair of first two octets that occurs, with mask 32, 24 or 16 by what the addresses of the pair share, each holding its addresses, and no other text |
| GroupLaws.ShapeOnPlainAddresses | pkg/kt/service/cluster/cidr.go:233-313 | a group's range is its /32, else its /24, else its /16, by what its addresses share, and holds them all |
| GroupLaws.RangesAreDisjoint | pkg/kt/service/cluster/cidr.go:233-284 | the ranges are pairwise disjoint |
| GroupLaws.InputsAreCovered | pkg/kt/service/cluster/cidr.go:233-284 | every address of every input is in a range |
| GroupLaws.OrderIsIrrelevant | pkg/kt/service/cluster/cidr.go:233-284 | the order and the number of occurrences of the inputs do not change the set of ranges |
| GroupLaws.ReadBack | pkg/kt/service/cluster/cidr.go:233-351 | printed ranges are read back one by one |
| GroupLaws.ResultIsStable | pkg/kt/service/cluster/cidr.go:233-332 | fed back into the calculation, the ranges come out unchanged and in order |
| Exclusion.IsPartOfRange | pkg/kt/service/cluster/cidr.go:145-163 | the cell loop decides whether the prefix is extended; unreadable texts are no part |
| Exclusion.IncludesIsInclusion | pkg/kt/service/cluster/cidr.go:145-163 | isPartOfRange holds exactly if the address set is included |
| Exclusion.SiblingsPartition | pkg/kt/service/cluster/cidr.go:107-143 | the siblings of an address from a bit on partition what shares the bits before it, less the address |
| Exclusion.PrintSibling | pkg/kt/service/cluster/cidr.go:124-134 | one turn of the loop flips one cell of the shared buffer, ends it there and prints it |
| Exclusion.ExcludeIpFromRange | pkg/kt/service/cluster/cidr.go:107-143 | the loop over the shared buffer, for every text as second argument: the turned buffers in order, or nothing where it finds a difference |
| Exclusion.ExcludedCellsOfAddress | pkg/kt/service/cluster/cidr.go:107-143 | for an address the turned buffers are its siblings |
| Exclusion.RangeIsNotExcluded | pkg/kt/service/cluster/cidr.go:107-143 | a range with a mask below 32 is not taken out of a range around it: some of it comes back |
| Exclusion.ExcludedIsPartition | pkg/kt/service/cluster/cidr.go:107-143 | 32 - L ranges with masks L+1 to 32 in order, pairwise disjoint, that together are the range less the address |
| Exclusion.ExcludedIsRightIff | pkg/kt/service/cluster/cidr.go:107-143 | the result is the range less the address exactly if the mask is at least 1 and the address is in the range |
| CidrPlan.Punch | pkg/kt/service/cluster/cidr.go:97-103 | one merged range becomes itself, or what excludeIpFromRange leaves of it |
| CidrPlan.MergeIpRange | pkg/kt/service/cluster/cidr.go:94-105 | the merged ranges of services and pods, with the server punched out of each that holds it |
| CidrPlan.UnreadableServerChangesNothing | pkg/kt/service/cluster/cidr.go:94-105 | an unreadable server address changes nothing |
| CidrPlan.WithoutServerCovers | pkg/kt/service/cluster/cidr.go:94-105 | the addresses are those of the merged ranges less exactly the server |
| CidrPlan.WithoutServerIsDisjoint | pkg/kt/service/cluster/cidr.go:94-105 | punching keeps disjoint ranges disjoint |
| ExcludeLoop.ScanRanges | pkg/kt/service/cluster/cidr.go:60-74 | the inner loop with its two breaks gives the ranges to remove and whether to bypass |
| ExcludeLoop.ArrayDelete | pkg/kt/util/collection.go:83-102 | all occurrences of the element go, the others keep their order |
| ExcludeLoop.ApplyExcludes | pkg/kt/service/cluster/cidr.go:58-80 | the nested loops that shrink the list of ranges and grow the bypass list |
| ExcludeLoop.ScanStops | pkg/kt/service/cluster/cidr.go:60-74 | the scan of an exclude stops at the exclude itself or at a range strictly around it, whichever is first |
| ExcludeLoop.ExcludesExactlyIff | pkg/kt/service/cluster/cidr.go:58-80 | routes less bypasses are the ranges less the exclude exactly if no overlapping range follows the exclude itself |
| ExcludeLoop.OverlapIsMissed | pkg/kt/service/cluster/cidr.go:65-68 | a range listed before a range around it: excluding the smaller one leaves its addresses routed |
| ExcludeLoop.PlainExcludeIsIgnored | pkg/kt/service/cluster/cidr.go:58-80 | an exclude without a mask that is no range of the list has no effect |
| ExcludeLoop.ExcludesAreHonoured | pkg/kt/service/cluster/cidr.go:58-80 | for disjoint ranges and any excludes, routes less bypasses are the ranges less the excludes, and which ranges stay and which excludes are bypassed is exact |
| ExcludeLoop.UnmissedExcludesAreHonoured | pkg/kt/service/cluster/cidr.go:58-80 | for any ranges the set equation holds if at no exclude an overlapping range follows the exclude itself |
| ExcludeLoop.InOrderNoneMissed | pkg/kt/service/cluster/cidr.go:58-80 | that is so whenever no exclude that is a range of the list is followed there by another range that overlaps it, which a caller can see from the two lists |
| ClusterCidr.TwoStagesAreOne | pkg/kt/service/cluster/cidr.go:94-96 | merging services and pods first apart and then together is merging all addresses at once |
| ClusterCidr.AddIncludes | pkg/kt/service/cluster/cidr.go:49-57 | the extra ranges are appended in order, single addresses left out in tun mode |
| ClusterCidr.ClusterCidr | pkg/kt/service/cluster/cidr.go:16-92 | the whole planner with its loops: group, merge, punch, include, exclude; what the plan means is in PlannerLaws |
| ClusterCidr.PlanIsRight | pkg/kt/service/cluster/cidr.go:16-41 | the plan is disjoint, is the merge of all inputs less exactly the API server, and covers every other input address |
| ClusterCidr.RoutesAreRight | pkg/kt/service/cluster/cidr.go:16-92 | end to end on any readable inputs, as an equation of address sets |
| PlannerLaws.PlannerIsRight | pkg/kt/service/cluster/cidr.go:16-92 | from the texts, for every address: it is routed and not bypassed exactly if it is in the group of a service or a pod and not the API server, or in an extra range that is taken, and in no exclude; nothing is bypassed without excludes; unless an exclude among the ranges is followed by an overlapping range |
| PlannerLaws.PlannerOnNumbers | pkg/kt/service/cluster/cidr.go:16-92 | the same with nothing but texts and numbers of 32 bits |
| PlannerLaws.PlannerWithoutExtras | pkg/kt/service/cluster/cidr.go:16-92 | without extra ranges it holds for all excludes |
| ClusterCidr.PlanMissesNothing | pkg/kt/service/cluster/cidr.go:16-92 | without extra ranges that never happens |
| Takeover.SelectorIsConserved | pkg/kt/command/general/resource.go:110-172 | over every interleaving of any number of processes and watchers, with updates that are refused, conflict, or take effect and still report an error: the annotation is absent and the selector is the original, or the annotation holds the original; so do all copies in flight |
| Takeover.TeardownRestores | pkg/kt/command/general/teardown.go:168-193 | after any run, an undisturbed teardown leaves the original selector and no annotation, even if its reply is lost |
| Takeover.RecoverRestores | pkg/kt/command/recover.go:74-93 | after any run, an undisturbed recover that comes to its update leaves the original selector, no annotation and no lock, even if its reply is lost |
| Takeover.CopiesArePast | pkg/kt/service/cluster/service.go:23-66 | over every run, a copy that has the current version is the current object |
| Takeover.WatcherRestores | pkg/kt/command/general/resource.go:143-170 | a watcher's update points the service back at its target, over whatever it finds |
| Takeover.RecoverMissesTakeover | pkg/kt/command/recover.go:44-107 | a takeover between the read of a recover and its return leaves that recover with a copy in which there is nothing to recover |
| Takeover.LockIsExclusive | pkg/kt/command/general/lock.go:12-58 | if holders start to unlock within 180 seconds and no recover or clean removes a lock that is held, no reachable state has two holders, lost replies included |
| Takeover.RemovalKeepsIff | pkg/kt/command/clean/common.go:114-125 | the update of a recover or a clean keeps the lock sound exactly if nobody holds it or the server refuses |
| Takeover.JudgedLockIsFree | pkg/kt/command/general/lock.go:27-33 | a current copy without a lock, or with an expired one, means that nobody holds it: what LockService looks at before its update, and what a recover or a clean could look at |
| Takeover.OvertakenIffLate | pkg/kt/command/general/lock.go:27-37 | a second process can take a held lock exactly if its stamp is 180 seconds old |
| Takeover.WaitingHelpsIff | pkg/kt/command/general/lock.go:27-37 | whoever waits until the stamp is 180 seconds old gets in, and nobody earlier |
| Takeover.LostLockBlocksIff | pkg/kt/command/general/lock.go:27-36 | if the reply to the update that writes the lock is lost, nobody holds it, and nobody gets it, its writer on its next try included, exactly until its stamp is 180 seconds old |
| Takeover.RemovalBreaksExclusionIff | pkg/kt/command/recover.go:130-137 | while one process holds the lock, the update of a recover or a clean lets a third one in exactly if the server takes it, or the holder is late anyway |
| Takeover.RecoverBreaksExclusion | pkg/kt/command/recover.go:130-137 | a recover under a held lock lets a third process in at once |
| Takeover.CleanBreaksExclusion | pkg/kt/command/clean/common.go:114-125 | so does a clean that judged an expired lock and reads a fresh one |
| Takeover.CleanIsOvertaken | pkg/kt/command/clean/common.go:255-262 | such a moment comes about whenever a process locks between the judgement of a clean and its read |
| Takeover.AttemptsAreBounded | pkg/kt/command/general/lock.go:15-36 | one LockService reads the service at most 11 times, over every run |
| TakeoverPrograms.Cluster.LockService | pkg/kt/command/general/lock.go:15-40 | the recursive procedure, with other processes interfering before every call: it returns the object with its own stamp and is a run of the machine, or gives up; undisturbed, served and with no live lock, it gets the lock |
| TakeoverPrograms.Cluster.Lock | pkg/kt/command/general/lock.go:15-40 | on success nobody else holds the lock, on timely runs; at most 11 attempts |
| TakeoverPrograms.Cluster.UnlockService | pkg/kt/command/general/lock.go:42-58 | the procedure is a run of the machine; if its read and its update are served the lock is gone and the rest is what was read, whoever interferes; undisturbed and served, the service is as before but unlocked |
| TakeoverPrograms.NextGetsIn | pkg/kt/command/general/lock.go:15-58 | and then the next process gets the lock at its first attempt |
| TakeoverPrograms.Cluster.UpdateServiceSelector | pkg/kt/command/general/resource.go:110-172 | refusal, saving of the original selector, update and start of the watcher, as a run of the machine; undisturbed and served, the service has the new selector and the original one saved |
| TakeoverPrograms.Cluster.BySelector | pkg/kt/command/exchange/selector.go:22-62 | lock, guard, takeover, unlock: whatever fails and whoever interferes, the original selector is conserved; undisturbed and served, a free service is taken over and unlocked |
| TakeoverPrograms.Cluster.ByMesh | pkg/kt/command/mesh/auto.go:18-92 | the same for a mesh, with its own guard |
| TakeoverPrograms.FetchTargetRole | pkg/kt/command/recover.go:109-128 | the first deployment with a role, else, only if there are no deployments, the first such pod that is not going away |
| TakeoverPrograms.Cluster.Recover | pkg/kt/command/recover.go:44-107 | every way through recover, with others interfering before each of its calls, the two listings included: an update that it reports leaves the original selector, no annotation and no lock; if it says that there is nothing to do, the service was so when it was read; a service that could not be read is never updated |
| TakeoverPrograms.Cluster.RecoverOriginalService | pkg/kt/command/general/teardown.go:168-193 | if the update takes effect, reported or not, the service has exactly its original selector again; undisturbed and served, it does take effect |
| RouterPod.RemoveFirstIsRemoval | cmd/router/main.go:113-142 | removing from a list without duplicates takes out exactly the version and keeps it without duplicates |
| RouterPod.MarkIs | cmd/router/main.go:100-103 | a version mark is the header, with underscores for dashes, and the version behind the first colon |
| RouterPod.KtConf.UpdateRoute | cmd/router/main.go:113-142 | another header is refused and changes nothing; otherwise the list becomes the one with the version added or removed |
| RouterPod.Pod.UpdatePod | pkg/kt/service/cluster/pod.go:57-60 | an update is taken exactly if the server is reached and nobody has written since the copy was read; otherwise nothing changes |
| RouterPod.Pod.IncreasePodRef | pkg/kt/service/cluster/pod.go:143-159 | the printed count is read, raised by one and stored, or another writer comes between and keeps its write, and an error is returned |
| RouterPod.Pod.DecreasePodRef | pkg/kt/service/cluster/pod.go:162-181 | the last reference is found by its text, which a printed count has exactly if it is one, and left alone; otherwise the count goes down by one, unless another writer comes between or the call fails, which is not reported |
| Mesh.CountCoversSessions | pkg/kt/command/mesh/auto.go:160-211 | over all serialised runs, with calls refused or lost anywhere: a live router counts at least the sessions that recorded it |
| Mesh.StepCounts | pkg/kt/command/general/teardown.go:125-155 | every call keeps that, and the router only goes when no session claims it any more |
| Mesh.OutcomeDecides | pkg/kt/command/mesh/auto.go:18-106 | a refused call of a join or a leave changes nothing in the cluster, one whose reply is lost the same as one that is reported |
| Mesh.TakenNameFails | pkg/kt/command/mesh/auto.go:139-158 | a join whose shadow service or pod exists already fails and records nothing of it as its own service |
| Mesh.RouterGone | pkg/kt/command/general/teardown.go:125-135 | without the router pod, a session that had switched the service gives it back, and any other leaves it alone |
| MeshTraffic.TrafficIsServed | pkg/kt/command/mesh/auto.go:57-100 | between any two calls of any serialised run whose calls succeed and whose joins have the header of the router that is there, an unmarked request reaches the original pods, directly or through router and stuntman |
| MeshTraffic.ConfigurationIsExact | pkg/kt/command/general/teardown.go:30-45 | the router's versions have no duplicates, each has its shadow service, and while nobody is joining or leaving they are exactly those of the joined sessions |
| MeshTraffic.EverythingIsAccounted | pkg/kt/command/general/teardown.go:125-166 | without failures the count equals the number of sessions, and the last one to leave leaves the cluster as the first one found it |
| MeshTraffic.StepIsSmooth | pkg/kt/command/mesh/auto.go:57-100 | every successful call of a join or leave keeps the invariant behind these three results |
| MeshLeaks.OtherHeaderLeaksOne | pkg/kt/command/mesh/auto.go:187-207 | a session with another header, refused by the router program and cleaned up, leaves the cluster exactly as it was but for one reference |
| MeshLeaks.RefusedCountLeaksOne | pkg/kt/service/cluster/pod.go:178-179 | a leave whose update of the count is refused ends like one that was counted, but for one reference |
| MeshLeaks.LastLeaverIff | pkg/kt/command/general/teardown.go:136-153 | after the last session has left, unmarked requests are served exactly if the count was one |
| MeshLeaks.LeakLosesService | pkg/kt/command/general/teardown.go:136-153 | so in a cluster that is sound but for one reference too many, the last session leaves an outage behind, and without it none |
| MeshLeaks.LeakStays | pkg/kt/command/general/teardown.go:125-153 | every successful call but that of the last leaver does the same with one reference more |
| MeshLeaks.LeakAlwaysLosesService | pkg/kt/command/general/teardown.go:125-153 | with one reference too many, whoever joins and leaves with success in whatever order, the last session to leave takes the service with it, which without the leak it would have given back |
| MeshLeaks.OtherHeaderLosesService | pkg/kt/command/mesh/auto.go:187-207 | so one session with another header ends in an outage, over any further joins and leaves |
| MeshLeaks.RefusedCountLosesService | pkg/kt/command/general/teardown.go:136-153 | and so does one leave whose count is not written |
| MeshWatch.WriteIsHarmlessIff | pkg/kt/command/general/resource.go:143-170 | after a watcher's write and the remaining calls of the leaving session, requests are served exactly if that session had not yet given the service back |
| MeshWatch.TakenUnlessGivenBack | pkg/kt/command/general/resource.go:143-170 | while a process has a watcher, the service is with the router it switched to, unless the last session has restored the selector: so on a service nobody else touched a write changes something only then |
| MeshWatch.WatcherOfLastLeaver | pkg/kt/command/general/resource.go:143-170 | the last leaver's own watcher, between the restored selector and the removed router, takes the service away for good |
| MeshWatch.EditCommutes | pkg/kt/command/general/resource.go:110-141 | a service that somebody put back to its original selector, with or without the annotation, goes through every call of joins and leaves like the unedited one; the switch and the restore undo the edit |
| MeshWatch.TrafficWithWatchersIff | pkg/kt/command/general/resource.go:143-170 | over all runs of successful joins and leaves with watchers at work and edits by others at any moment: requests are served between any two steps unless a watcher wrote after a last session gave the service back and nobody put it back since; and once nobody joins or leaves, exactly then they are not |
| MeshPrograms.Process.IsNameUsable | pkg/kt/command/mesh/auto.go:108-126 | the name check with up to ten repetitions while an earlier pod terminates, as one step of the machine |
| MeshPrograms.Process.CreateStuntmanService | pkg/kt/command/mesh/auto.go:213-246 | the stuntman exists, or is made with the selector of an untouched service, or the command fails, as it does if the service of that name is not kt's |
| MeshPrograms.Process.CreateShadowService | pkg/kt/command/mesh/auto.go:139-158 | the shadow service, recorded in the store only if the call reported success |
| MeshPrograms.Process.CreateRouter | pkg/kt/command/mesh/auto.go:160-211 | a new router with one reference and its setup, or one more reference and an added version; recorded only at the end |
| MeshPrograms.Process.UpdateServiceSelector | pkg/kt/command/mesh/auto.go:87-92 | the switch of the selector to the router, with the original saved once |
| MeshPrograms.Process.CreateShadow | pkg/kt/command/mesh/auto.go:94-101 | the shadow pod, whose name is stored before the call |
| MeshPrograms.Process.AutoMesh | pkg/kt/command/mesh/auto.go:18-106 | the procedure with its early returns is a run of the machine; a failure leaves the store that the cleanup will use; the count covers the sessions; and if all calls succeed and all joins fit, requests were served between any two calls, and count and cluster are exact |
| MeshPrograms.Process.RecoverService | pkg/kt/command/general/teardown.go:157-166 | selector first, stuntman second |
| MeshPrograms.Process.DecreasePodRef | pkg/kt/command/general/teardown.go:136-138 | three ways on: unreadable count, last reference, one reference less |
| MeshPrograms.Process.RecoverAutoMeshRoute | pkg/kt/command/general/teardown.go:125-155 | router gone, last leaver, or one of several leavers, as a run of the machine |
| MeshPrograms.Process.CleanupWorkspace | pkg/kt/command/general/teardown.go:30-45 | the cleanup after a mesh that succeeded or failed half-way is a run of the machine that takes exactly this session out; with the same results about traffic and count |
| HostsFile.MergeLines | pkg/kt/service/dns/hosts.go:128-138 | the copies into one buffer give both lists with one blank line between and one behind them |
| HostsFile.DumpLines | pkg/kt/service/dns/hosts.go:113-126 | the block: every host with an address once, in some order, then the kept records |
| HostsFile.ScanLines | pkg/kt/service/dns/hosts.go:71-92 | the last markers, and the records to keep, by the regular expression and the two suffixes |
| HostsFile.CutOut | pkg/kt/service/dns/hosts.go:97-105 | the copies into one buffer give the lines before and after the block |
| HostsFile.DropLines | pkg/kt/service/dns/hosts.go:71-111 | the same with the three error cases |
| HostsFile.HostsFile.UpdateHostsFile | pkg/kt/service/dns/hosts.go:158-195 | the written file is the lines without repeated blank ones, or without the lock unchanged |
| HostsFile.HostsFile.DumpHosts | pkg/kt/service/dns/hosts.go:48-69 | the new file for some order of the map; nothing once the cleanup has begun or on an error |
| HostsFile.HostsFile.DropHosts | pkg/kt/service/dns/hosts.go:25-45 | the flag is set, and the file loses its block if it has one |
| HostsLaws.DroppingBlock | pkg/kt/service/dns/hosts.go:71-111 | a file with one block is taken apart into what is around it and the records that stay |
| HostsLaws.CollapseTwice | pkg/kt/service/dns/hosts.go:180-188 | collapsing blank lines of a part first makes no difference |
| HostsLaws.DumpedBlock | pkg/kt/service/dns/hosts.go:48-69 | a dump turns every well-formed file into one with one block, behind the other lines |
| HostsRuns.Step | pkg/kt/service/dns/hosts.go:48-69 | a dump of names without spaces is a step of the runs below |
| HostsRuns.UserLinesStay | pkg/kt/service/dns/hosts.go:25-138 | after any dumps and drops there is at most one block, and the other lines are the user's in order, up to repeated and trailing blank ones |
| HostsRuns.CleanupRestores | pkg/kt/service/dns/hosts.go:25-45 | a cleanup after any run gives the user's file back, up to repeated and trailing blank lines |
| HostsRuns.BrokenFileIsLeftAlone | pkg/kt/service/dns/hosts.go:93-110 | a file with a begin marker without an end marker behind it, or without a begin marker and with an end marker behind its first line, never changes |
| HostsRuns.BrokenIff | pkg/kt/service/dns/hosts.go:71-111 | exactly these files are refused |
| HostsRuns.NothingToDrop | pkg/kt/service/dns/hosts.go:25-45 | a cleanup leaves a file without markers exactly as it is |
| HostsRuns.SecondDump | pkg/kt/service/dns/hosts.go:48-69 | exactly what a second dump for the same namespace makes of the file that the first one wrote |
| HostsRuns.GrowthIff | pkg/kt/service/dns/hosts.go:48-69 | a repeated dump keeps the length exactly if none of its records is kept |
| HostsNames.PodIp | pkg/kt/command/connect/common.go:167-177 | a headless service has the first address among its pods, and that pod is watched |
| HostsNames.GetServiceHosts | pkg/kt/command/connect/common.go:159-194 | the loop over a namespace's services gives the map of hosts and the watched pods; which they are is in HostsAre and WatchedPodsAre |
| HostsNames.HostsAre | pkg/kt/command/connect/common.go:159-194 | a host has an address exactly if it is one of the three names of a service with that address, the short one in the own namespace only, or the short one alone if only those are wanted; a headless service has the address of its first pod with one |
| HostsNames.WatchedPodsAre | pkg/kt/command/connect/common.go:167-177 | exactly the pods are watched that are the first with an address behind a headless service |
| HostsNames.HostsAreOwn | pkg/kt/command/connect/common.go:182-190 | every name of a namespace has the short, the middle or the full form |
| HostsNames.KeepsIff | pkg/kt/service/dns/hosts.go:83-91 | dropping a namespace drops exactly its own records, and if it is called like the end of the cluster domain, everybody's full names |
| HostsRefinement.DumpRefinesIff | pkg/kt/service/dns/hosts.go:48-126 | a block that pictures a map from namespaces to hosts pictures the map updated at the namespace, exactly if there is no such clash of names |
| HostsRefinement.ClashLosesRecord | pkg/kt/service/dns/hosts.go:88-90 | with a clash, the record of another namespace that is lost |
| HostsRefinement.FileRefines | pkg/kt/service/dns/hosts.go:48-138 | the same from file to file |
| HostsRefinement.FirstDumpPictures | pkg/kt/command/connect/common.go:139-157 | the first dump pictures all the namespaces it was made from |
| HostsRefinement.HostsOfServicesFit | pkg/kt/command/connect/common.go:159-194 | what is made of a namespace's services, labels as names and addresses without spaces, meets the conditions of these laws |
| HostsRefinement.LatestIsPictured | pkg/kt/command/connect/common.go:115-137 | over any number of changes in any namespaces, the block pictures what the services of every namespace were when they were last listed |
| HostsRefinement.OwnDumpsDoNotGrow | pkg/kt/service/dns/hosts.go:48-126 | repeating a namespace's dump, in whatever order of the map, keeps the length |
| Baggage.IsLaneBaggageMember | pkg/shadow/proxy/proxy.go:38-44 | the key in front of the first equals sign, trimmed and in any case, is lane |
| BaggageLaws.LaneMemberIs | pkg/shadow/proxy/proxy.go:38-44 | a member is the lane exactly if it is that word in any case, with any spaces around it, an equals sign and a value |
| Baggage.MergeBaggage | pkg/shadow/proxy/proxy.go:23-36 | the loops give the trimmed, non-empty, non-lane members of all values and then the lane |
| BaggageLaws.KeptAreFrom | pkg/shadow/proxy/proxy.go:25-33 | the members that stay are the trimmed texts of the pieces that are neither empty nor a lane, each once and in order |
| BaggageLaws.NormalForm | pkg/shadow/proxy/proxy.go:23-36 | the result splits into clean members in input order and one lane |
| BaggageLaws.LastMergeDecidesIff | pkg/shadow/proxy/proxy.go:23-36 | a merge over a merge is the second merge alone exactly if nothing but lane members or blanks follows a comma in the first lane |
| BaggageLaws.LastMergeDecides | pkg/shadow/proxy/proxy.go:23-36 | for lane names without commas: a second merge changes nothing, or replaces the lane |
| BaggageLaws.LinesAreOneLine | pkg/shadow/proxy/proxy.go:25-33 | several header lines keep the same members as one joined line |
| BaggageLua.LuaTrimIsTrimSpace | pkg/kt/service/cluster/lane.go:128-131 | the Lua pattern trims what TrimSpace trims |
| BaggageLua.SamePieces | pkg/kt/service/cluster/lane.go:127-136 | the pieces of gmatch keep the same members as those of Split |
| BaggageLua.LaneIsRead | pkg/kt/service/cluster/lane.go:118-119 | the lane literal that Go writes into the program is read by Lua as the lane |
| BaggageLua.LuaFilter | pkg/kt/service/cluster/lane.go:117-141 | on a header value, or none, the Lua program gives the string that the Go proxy gives |
| ResolvConf.ResolvConfFile.SetupResolvConf | pkg/kt/service/dns/dns_linux.go:61-94 | the early return, the lines commented out and the line added |
| ResolvConfLaws.SetupNamesServer | pkg/kt/service/dns/dns_linux.go:61-94 | line by line, what a setup leaves, comments out and adds; the added line names the address without the port |
| ResolvConfLaws.OnlyServer | pkg/kt/service/dns/dns_linux.go:61-94 | after a setup the added line is the only one that begins like a name server |
| ResolvConf.ResolvConfFile.RestoreResolvConf | pkg/kt/service/dns/dns_linux.go:120-150 | commented lines come back, added ones go, others stay |
| ResolvConfLaws.RestoreUndoesSetupIff | pkg/kt/service/dns/dns_linux.go:61-150 | for every file, a restore after one setup gives the lines back exactly if no line that setup left alone ends with a kt comment |
| ResolvConfLaws.RepeatedSetup | pkg/kt/service/dns/dns_linux.go:74-76 | a repeated setup of one server changes nothing |
| ResolvConfLaws.TwoRestoresRestore | pkg/kt/service/dns/dns_linux.go:61-150 | after any mix of setups of any servers and restores, two restores give the original lines back |
| ResolvConfLaws.OneRestoreIff | pkg/kt/service/dns/dns_linux.go:61-150 | after any mix of setups and restores, one restore gives the original lines back exactly if no line of the file was added by kt and commented out later |
| ResolvConfLaws.OneRestoreIsNotEnough | pkg/kt/service/dns/dns_linux.go:61-150 | after setups of two servers one restore leaves the first server behind |
| DnsOrder.GetDnsAddresses | pkg/kt/service/dns/dnsserver.go:65-107 | the address of every form of entry, and the entries skipped |
| DnsOrder.AddressesHaveThreeParts | pkg/kt/service/dns/dnsserver.go:65-139 | whatever the order, each address has the three parts that a query takes by index |
| DnsOrder.EntryMeansIff | pkg/kt/service/dns/dnsserver.go:65-139 | every entry cluster or [protocol:]host[:port], with upstream as a host, is asked as it says, UDP and port 53 by default, exactly if it is not a number behind a protocol |
| DnsOrder.OrderIsKept | pkg/kt/service/dns/dnsserver.go:65-107 | one address for each entry that has a server, in the order of the option, asked as its entry says |
| DnsOrder.UpstreamIs | pkg/kt/service/dns/dnsserver.go:66-71 | which entries stand for the machine's own name server, character by character |
| DnsOrder.UnknownUpstreamIsSkipped | pkg/kt/service/dns/dnsserver.go:71-88 | without a known name server of the machine, its entries give no address |
| DnsWildcard.GlobIsSpread | pkg/kt/service/dns/dnsserver.go:160-170 | a pattern matches exactly the texts that begin with its first piece, end with its last, and hold the others in between, in order and without overlap |
| DnsWildcard.WildcardIs | pkg/kt/service/dns/dnsserver.go:160-170 | the same for a host, with a final dot added if it has none, with stars or without |
| DnsWildcard.PlainHost | pkg/kt/service/dns/dnsserver.go:160-170 | a host without a star stands for itself with a final dot alone |
| DnsWildcard.StarHost | pkg/kt/service/dns/dnsserver.go:160-170 | a star and a rest without stars stand for the domains that end like the rest |
| DnsCache.DnsServer.Resolve | pkg/kt/service/dns/dnsserver.go:119-158 | the loops compute the answer and the new cache; what the answer is, is in DnsCacheLaws |
| DnsCacheLaws.KeyIsInjective | pkg/common/dns_util.go:68-70 | two questions never share a cache key |
| DnsCacheLaws.ResolverIs | pkg/kt/service/dns/dnsserver.go:135-143 | an address is asked exactly if it has a protocol tcp or udp, an address and a port that is a number, and then at these |
| DnsCacheLaws.EntriesAreAnswers | pkg/kt/service/dns/dnsserver.go:119-158 | over every run, each cache entry was written by a query of its key, for no ingress domain |
| DnsCacheLaws.AnswersAreFresh | pkg/kt/service/dns/dnsserver.go:119-158 | over every run: a domain that an ingress host stands for, character by character, gets the ingress address; any other answer is what the first resolver in order with an answer gives, or gave to the same question, less than the time to live ago with records and half of that without |
| DnsCacheLaws.IngressIsNeverCached | pkg/kt/service/dns/dnsserver.go:123-133 | reading the cache first never hides an ingress domain |
| DnsCacheLaws.PlainHostIsAnswered | pkg/kt/service/dns/dnsserver.go:129-133 | after any run, a question for a host without a star gets the ingress address, whether or not the host is written with its final dot |
| DnsCacheLaws.AnswerIsRemembered | pkg/kt/service/dns/dnsserver.go:123-158 | over any other questions, the same question gets the same answer exactly as long as that is young, and then the resolvers are asked again |
| ExchangeScale.String2Map | pkg/kt/util/strings.go:42-52 | the items with a key in front of an equals sign, later ones winning |
| ExchangeScaleLaws.LastItemWins | pkg/kt/util/strings.go:42-52 | a key has the value of the last item that gives it one, and no value without such an item |
| ExchangeScale.Process.ScaleTo | pkg/kt/service/cluster/deployment.go:105-126 | an existing deployment gets the count, without a call if it already has it |
| ExchangeScale.Process.ByScale | pkg/kt/command/exchange/scale.go:14-45 | name and count recorded, shadow pod annotated, deployment scaled down, with an early return after each failure, and success exactly if none fails |
| ExchangeScale.Process.RecoverFromAnnotation | pkg/kt/command/recover/common.go:21-43 | the pod's annotation, or the deployment's if there is none: a positive count and a name scale that deployment back, if the call is served |
| ExchangeScaleLaws.ConfigIs | pkg/kt/command/recover/common.go:21-43 | name and count are those that the last items of the pod's annotation give, or of the deployment's if the pod's has no item, and empty or zero without one |
| ExchangeScaleLaws.EndTouchesOne | pkg/kt/command/general/teardown.go:99-112 | however an exchange ends, only its own deployment can change |
| ExchangeScaleLaws.ReplicasRoundTrip | pkg/kt/command/exchange/scale.go:40-45 | every count is read back from the annotation, whatever the name |
| ExchangeScaleLaws.AppRoundTripIff | pkg/kt/command/exchange/scale.go:40-45 | the name is read back exactly if it has no comma |
| ExchangeScaleLaws.AnnotationRestoresIff | pkg/kt/command/clean/common.go:279-288 | recover and clean restore the count exactly if it was zero, was not scaled down, or their call is served and the name has no comma |
| ExchangeScaleLaws.SerialRunsConserve | pkg/kt/command/exchange/scale.go:14-38 | exchanges one after the other conserve every count, wherever they fail and however they end, if the calls that scale back are served |
| ExchangeScaleLaws.OverlapRestoresIff | pkg/kt/command/exchange/scale.go:20-22 | of two overlapping exchanges the count survives exactly if the second ends first, or ends by its annotation, or there were no replicas |
| OptionName.Capitalize | pkg/kt/util/strings.go:79-92 | the character loop with its previous character, then the dashes removed |
| OptionName.TwoPasses | pkg/kt/util/strings.go:95-100 | two leftmost non-overlapping passes put a dash before every capital that follows something else than a dash, in every text |
| OptionName.PassOfDashed | pkg/kt/util/strings.go:95-100 | a third pass changes nothing |
| OptionName.RoundTripIff | pkg/kt/util/strings.go:78-100 | Capitalize undoes DashSeparated exactly for names without dashes that do not begin with a small letter |
| OptionName.WordsAreDashed | pkg/kt/util/strings.go:78-100 | a name made of capitalised words is printed as the words with dashes in between, and read back from them |
| OptionName.PrintedIsLower | pkg/kt/util/strings.go:95-100 | what is printed has no capital letter, whatever the name |
| OptionName.ParsesIff | pkg/kt/command/config/common.go:57-71 | a key parses exactly if it is a group and an item of it with one dot between |
| OptionName.ListedKeysResolve | pkg/kt/command/config/common.go:57-83 | every listed key parses, and its parts lead back to its own group and field |

## Left out

- `Takeover.LockIsExclusive`: holders are assumed to start their unlock within 180 seconds by one shared clock, and a
  `recover` or `clean` not to remove a held lock; `OvertakenIffLate` and `RemovalKeepsIff` say exactly what each is for.
- `Takeover.RecoverRestores`: the ways on which a recover returns before its update are in
  `TakeoverPrograms.Cluster.Recover`.
- `TakeoverPrograms.Cluster.Recover`: without a readable service the code works on an empty object, whose update the
  Kubernetes client refuses for want of a name.
- `MeshTraffic.TrafficIsServed`: assumes that calls succeed and that joins and leaves do not overlap; watchers are in
  `MeshWatch`.
- `Mesh.CountCoversSessions`: joins and leaves do not overlap, because the teardown takes no lock.
- `MeshPrograms.Process.AutoMesh`: lock, exchange guard and port mapping are one condition here; the first two are
  procedures of `TakeoverPrograms`, the ports themselves are not modelled.
- `IpGroups.CalculateMinimalIpRange`: an input that crashes the Go code is excluded, since there is no result to speak of.
- `GroupLaws.ResultIsStable`: for inputs with at least 16 fixed bits, which addresses have.
- `ClusterCidr.RoutesAreRight`: an extra range without a mask stands for no address, and for one exclude the condition on
  the order of the ranges is exact (`ExcludeLoop.ExcludesExactlyIff`), for several it is sufficient.
- `PlannerLaws.PlannerIsRight`: service and pod addresses are four octets in dotted notation; several excludes as in
  `RoutesAreRight`.
- `HostsNames.HostsAre`: service names are distinct and without dots, as Kubernetes demands.
- `HostsRefinement.DumpRefinesIff`: service and namespace names are without dots and spaces, as Kubernetes demands.
- `HostsRuns.UserLinesStay`: for files without markers or with one block; lines are without line ends, and reading and
  writing the file is one step.
- `BaggageLua.LuaFilter`: ASCII only, and one header value.
- `OptionName.RoundTripIff`: ASCII only.
- `DnsCache.DnsServer.Resolve`: ingress hosts hold no regular-expression characters but dots and stars; what each
  resolver would answer and the times of reading and writing are inputs.
- The encoding of a selector as JSON is represented by the selector, so undecodable annotations do not occur.
- The steps of lock, takeover and mesh are values of a state machine, since their laws are about interleavings; the
  procedures on objects in `TakeoverPrograms` and `MeshPrograms` are tied to it.
- Of `recover` and `clean` only what they do to the service and to a scaled deployment; the order in which they delete
  pods, and the outage that `HandleMeshedByAutoService` accepts, are not modelled.
- A router that is still terminating: the waiting loop is taken as the state in which it ends.
- IPv6 ranges, host lookup of the API server, and how addresses are listed from the cluster.
- Kubernetes client, SSH, port forwarding, tun device, iptables, file locks, logging, command-line wiring, heartbeats,
  random names and ports: no behaviour worth proving, or no source of their own here.
- Mesh and exchange ports, pod specifications, templates of the router's proxy beyond whether it has a route.
- Bubble sort in birdseye, flag tables, profile files: easy members.
