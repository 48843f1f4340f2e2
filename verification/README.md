# FedState: placement, membership and restart

FedState runs one MongoDB replica set across several Kubernetes clusters. A control-plane operator turns a scheduler
result (how many members each cluster gets) into numbered NodePort services and the propagation policies that place
them, and prints the resulting hosts into a ConfigMap as text. In every member cluster a second operator reads that
text, runs StatefulSets, and edits the one replica-set configuration all clusters share. This project models the
algorithms of both operators and proves what they keep, over every input, every failure and every interleaving.

`dafny verify dfyconfig.toml` checks the whole project.

## How the model is built

- The control plane (`Federation.dfy`), the shared configuration (`SharedConfig.dfy`), a member cluster
  (`MemberCluster.dfy`), the restarting instance (`Restart.dfy`) and the condition list (`Conditions.dfy`) are classes
  whose methods follow the Go code. What they do is tied to functions and relations on values, and the properties are
  proved about those.
- Every call to the API server or to MongoDB may fail, and a failed write may still have taken effect. The methods
  choose this with `if *`; the contracts therefore hold at every exit, and say more when the outcome is `Done`. The
  control plane counts its failing calls, so that its contracts also say how a pass ends in which no call fails.
  A Go run-time panic is the outcome `Panicked`.
- A Go map is visited in an unspecified order, a sort is unstable, and the API server lists in any order: the methods
  pick with `:|`, and results are stated as sets, permutations or lists that enumerate a set.
- Strings are sequences of characters, and `strings.Split`, `strings.Join`, `strconv.Atoi`, `strconv.ParseInt` and the
  narrowing to `int32` are written out in `Text.dfy`.
- One read-edit-write of the replica-set configuration is one atomic step. A run is any sequence of such steps by any
  number of clusters. In `MemberCluster.dfy` the steps of the other clusters happen between any two steps of this one;
  they touch only hosts at other virtual IPs. The configuration keeps a history of all steps with the cluster that took
  each, so that a contract can say what the steps of one cluster touch. Which pods report that they are the master is an
  input.
- In the member cluster each StatefulSet belongs to the service of the same name, a pod's own view of its host (`me`)
  is the host of that service, and the selector of `SyncMember` lists only pods of role `replset`, so the exemption in
  `IsNotNeedReConfig` never applies. Node ports are distinct.
- A member of the listed pods is the same pod by name, StatefulSet and host; its revision changes when it is recreated.
- The inputs of a pass (scheduler result, reported status, listed pods, readiness, the primary) are parameters.

## What the proofs found

Each point names the lemma with the exact condition and, where the code fails, one with a concrete input.

- When only some clusters grow, the policies that are rewritten lose the clusters that do not: the list planned for a
  service is exact if and only if every cluster that needs it grows (`Placement.PlacementExactIff`). After the write loop
  the stored policy is exact if and only if all of them grow, or none does and it was exact before
  (`Convergence.StoredExactIff`, for the whole placement `Convergence.WrittenExactIff`,
  `Convergence.GrowthDropsOthers`). On creation it always is.
- A printed ConfigMap makes the next pass panic if and only if the policies place nothing
  (`Convergence.PrintedPanicsIff`, `Convergence.EmptyPrintPanics`).
- In a scale-down, a policy that keeps no cluster is deleted and then written again, while its service is gone. An API
  server may refuse that write, as the object still carries a resource version; then the call fails and the policy is
  gone. If it is accepted, the policy has an empty list, and printing succeeds if and only if no policy lost all of its
  clusters (`ScaleDown.PrintableIffNoneLost`, `ScaleDown.ThreeToOne`). Either way the scale-down recovers: after a second
  complete cleaning every policy can be printed (`ShrinkRuns.CleaningTrims`, `ShrinkRuns.TrimmedPrintableIff`). A run has
  settled once a pass has succeeded, and some pass succeeds as soon as there are more passes than failing calls and
  policies that lost all of their clusters (`ShrinkRuns.ShrinkRun`, with a start in `ShrinkStart.TwoToOne` and
  `ShrinkStart.OneLost`).
- The status handler attributes an address to a cluster when the text contains the cluster's virtual IP, so
  `10.0.0.1` also collects the addresses at `10.0.0.11` (`Aggregation.OwnAddressesIff`,
  `Aggregation.PrefixIsAttributed`). It panics exactly when a cluster with addresses follows one that has not reported
  (`Aggregation.Aggregate`, `Aggregation.SilentClusterPanics`).
- While a cluster has no status yet, the status handler writes a placeholder without addresses. A scale-down of some
  cluster to nothing takes it for finished, and the cleaning then deletes every service of every cluster
  (`StatusPass.PlaceholderReadyIff`, `StatusPass.PlaceholderCleansAll`, `StatusPass.PlaceholderDeletesLive`).
- The comment on the first configuration promises at most seven voting members. The code lets seven data members and
  up to seven arbiters vote (`ReplSetLimits.VotersExact`, `FirstConfig.PrintedLimitsIff`, `FirstConfig.EightVoters`).
- Member ids are unique in each configuration. Over a run no id is given out twice if and only if no addition finds a
  former id next in line, and every new id is above all former ones if and only if at every addition the highest id ever
  in use still is (`SharedIds.NeverReusedIff`, `SharedRuns.IdsAreReused`). Ids of a first configuration collide exactly
  when a blank line puts a data host on a line number that an arbiter gets (`ReplSetLimits.UniqueIdsIff`,
  `ReplSetLimits.GapDoublesId`).
- StatefulSets are counted without regard to a deletion in progress. A complete scale-down leaves the wanted number
  alive if and only if none of the listed ones was terminating (`StatefulSets.ExactlyRemainIff`,
  `StatefulSets.TerminatingIsCounted`).
- When new resources become current, a pod has been restarted with them by the two complete phases of the cycle if and
  only if the first phase saw them and the pod was not the primary then, or the second saw them and it was
  (`RestartCoverage.AdoptionRestartsIff`). So a primary that changes between the phases, or resources set back in
  mid-cycle, can leave a pod out (`RestartCoverage.PrimaryMoved`, `RestartCoverage.RevertedMidCycle`). Over all passes, the
  incomplete ones included, a pod has been restarted with given resources if and only if some pass saw them and got as far
  as that pod in the phase that deletes it (`RestartCoverage.RunRestartsIff`, `RestartCoverage.MovedYetRestarted`).
- A running pod that is neither ready nor terminating is in none of the buckets of `PodClassify`, nor is one whose slot
  a pod of the same number took (`PodBuckets.BucketsPartition`, `PodBuckets.UnlistedIff`,
  `PodBuckets.StartingIsUnlisted`). `PodClassify` panics exactly when the expected count is negative or a pod has no ordinal
  (`PodBuckets.PodClassify`).

## Model

| member | source | states |
|---|---|---|
| Text.JoinSplit | pkg/driver/k8s/obj.go:128-129 | splitting a text at a separator and joining the pieces gives the text back, for every text |
| Text.SplitJoin | pkg/controller/mongodb/core/configmap.go:19 | joining parts that are free of the separator and splitting gives the parts back |
| Text.PiecesClean | pkg/controller/mongodb/core/configmap.go:19 | no piece of a split contains the separator |
| Text.ItoaInjective | pkg/controller/multicloudmongodb/core.go:640 | different numbers print differently |
| Text.AtoiItoa | pkg/driver/k8s/client.go:399 | a printed number parses back exactly as far as it fits 64 bits |
| Text.AtoiSigned | pkg/driver/k8s/client.go:399 | with a sign in front a number parses within the signed 64-bit range |
| Text.DecimalDigits | pkg/controller/multicloudmongodb/core.go:640 | the digits are decimal, the most significant one first |
| Text.Int32 | pkg/driver/k8s/client.go:404 | the narrowing to 32 bits stays in range, is congruent to the number modulo 2^32, and changes nothing within the range |
| HostConf.ConfigMapToAddress | pkg/controller/mongodb/core/configmap.go:16-31 | returns the hosts of all non-blank lines in order, and panics exactly when one of them lacks the mark |
| HostConf.HostOfNoneIff | pkg/controller/mongodb/core/configmap.go:22-26 | a line has no host exactly when the mark does not occur in it |
| HostConf.PrintedLines | pkg/driver/k8s/obj.go:119-134 | for virtual IPs free of quote, colon, percent sign and newline the printed text splits into exactly the printed lines |
| HostConf.PrintedText | pkg/driver/k8s/obj.go:119-134 | the literal text of the ConfigMap: a line for each host, and a line break between two |
| HostConf.PrintedHostsReadBack | pkg/controller/mongodb/core/configmap.go:16-31 | round trip: parsing the printed text of any list of endpoints gives the same addresses in the same order |
| HostConf.AddressInjective | pkg/controller/multicloudmongodb/core.go:638-641 | an address determines virtual IP and port |
| HostConf.VipOfLine | pkg/controller/multicloudmongodb/core.go:360-361 | the planner extracts from a printed line the virtual IP it was printed from |
| HostConf.LineVipsOfPrinted | pkg/controller/multicloudmongodb/core.go:359-361 | the virtual IPs read from printed lines are those of the endpoints, in order |
| HostConf.CountHosts | pkg/controller/multicloudmongodb/core.go:355-369 | counts, for every cluster, the lines with its virtual IP; panics exactly when a line cannot be read |
| Placement.SortQuotas | pkg/controller/multicloudmongodb/core.go:333-335 | the sorted scheduler result is descending and a permutation |
| Placement.PermutedDistinct | pkg/controller/multicloudmongodb/core.go:333-335 | sorting keeps clusters distinct |
| Placement.AppendActive | pkg/controller/multicloudmongodb/core.go:337-342 | the active clusters are those with a non-zero count, in order |
| Placement.Diff | pkg/controller/multicloudmongodb/core.go:370-389 | computes the growing and the shrinking clusters with their targets |
| Placement.UpTargetsExact | pkg/controller/multicloudmongodb/core.go:371-387 | with distinct clusters exactly the entries that ask for more than is shown grow, each to its own count |
| Placement.DownTargetsExact | pkg/controller/multicloudmongodb/core.go:381-383 | with distinct clusters exactly the entries that ask for less than is shown shrink |
| Placement.NoDifference | pkg/controller/multicloudmongodb/core.go:370-389 | nothing grows or shrinks if and only if the ConfigMap shows for every entry its count |
| Placement.ServiceNameInjective | pkg/controller/multicloudmongodb/core.go:467 | different service numbers have different names |
| Placement.ServiceNames | pkg/controller/multicloudmongodb/core.go:467 | the literal names of services |
| Placement.FirstFree | pkg/controller/multicloudmongodb/core.go:468-472 | the first free number from i on lies within as many steps as there are names |
| Placement.ReachInRange | pkg/controller/multicloudmongodb/core.go:455-476 | every number used lies below the target; without existing services exactly the numbers below it are used |
| Placement.ReachNewNames | pkg/controller/multicloudmongodb/core.go:461-474 | at most target minus existing new names are chosen, exactly that many when none existed; the last is new, all skipped ones exist, and nothing is chosen exactly when enough exist |
| Placement.AllocateCluster | pkg/controller/multicloudmongodb/core.go:460-475 | the loop with its inner skip ends and appends the cluster once to every number it reaches and to no other |
| Placement.Allocate | pkg/controller/multicloudmongodb/core.go:454-476 | whatever the visiting order, every number's list enumerates without duplicates the clusters that reach it |
| Placement.PlannedAreGrowing | pkg/controller/multicloudmongodb/core.go:454-476 | with no service names known, number j is planned for exactly the growing clusters with target above j |
| Placement.PlacementExactIff | pkg/driver/k8s/client.go:263-281 | the list planned for service j is exact if and only if every cluster that needs it grows |
| Convergence.GrowthDropsOthers | pkg/driver/k8s/client.go:263-281 | a concrete growth after which a policy no longer lists a cluster that did not grow |
| Placement.CreationPlacement | pkg/controller/multicloudmongodb/core.go:384-389 | on creation service j goes to exactly the clusters with target above j, and the lists are nested |
| Placement.NothingPlannedBeyondFirst | pkg/controller/multicloudmongodb/core.go:479 | nothing is planned at or above the first sorted count, so the write loop drops nothing |
| Placement.PlannedTotalIsClamped | pkg/controller/multicloudmongodb/core.go:454-476 | counting placements by number and by cluster agrees, as for a partition and its conjugate |
| Placement.PlanConserves | pkg/controller/multicloudmongodb/core.go:454-499 | on creation the placements written sum to the scheduler's total |
| Placement.StaticWeights | pkg/driver/karmada/obj.go:110-122 | the loop with its break gives the weights of the entries before the first zero count |
| Placement.BreakLosesNothing | pkg/driver/karmada/obj.go:112-114 | stopping at an index loses a weight if and only if a non-zero count comes later |
| Placement.SortedWeights | pkg/driver/karmada/obj.go:110-122 | after the sort there is one weight for each active cluster, in order, each the cluster's own count, and they sum to the scheduler's total |
| Placement.WeightIsCount | pkg/driver/karmada/obj.go:110-122 | in any order each weight is the count of its cluster |
| Cleaner.GetServiceByNodePort | pkg/driver/k8s/client.go:354-364 | finds the first listed service with the port |
| Cleaner.ServiceAtFirst | pkg/driver/k8s/client.go:354-364 | it is the first one if several have the port, and none only if none has |
| Cleaner.CollectEntry | pkg/driver/k8s/client.go:394-411 | succeeds exactly when every data address refers to a listed service, and then gives those services; arbiters are skipped |
| Cleaner.CollectLive | pkg/driver/k8s/client.go:390-413 | succeeds exactly when all entries resolve, and gives the live services overall and per cluster |
| Cleaner.LiveAnywhereExact | pkg/driver/k8s/client.go:387-411 | a service is live if and only if some data address refers to it |
| Cleaner.LiveByClusterExact | pkg/driver/k8s/client.go:388-413 | with one entry per cluster the table holds for each reported cluster the services of its own addresses |
| Cleaner.UnionIffTable | pkg/driver/k8s/client.go:409-412 | the set of live services and the table per cluster agree |
| Cleaner.ServiceAtExact | pkg/driver/k8s/client.go:354-364 | with distinct ports the look-up finds the service with the port |
| Cleaner.ResolveAddress | pkg/driver/k8s/client.go:398-404 | the printed address of a service resolves to that service |
| Cleaner.PortWraps | pkg/driver/k8s/client.go:404 | only the low 32 bits of a port count |
| Cleaner.UnknownPort | pkg/driver/k8s/client.go:405-408 | an address whose port no service has refers to none |
| Cleaner.RemoveDuplicates | pkg/controller/multicloudmongodb/core.go:508-519 | keeps the first occurrences in order |
| Cleaner.KeptClusters | pkg/driver/k8s/client.go:427-454 | the collected and deduplicated clusters of a policy, whatever order the live services are visited in |
| Cleaner.KeptExact | pkg/driver/k8s/client.go:427-454 | a policy keeps exactly its clusters where a selected service is live, each once |
| Cleaner.KeptInOrder | pkg/driver/k8s/client.go:443-454 | kept clusters stay in the order of their first occurrence |
| Convergence.PolicyNamesAre | pkg/controller/multicloudmongodb/core.go:493 | the first n policy names are n different names |
| Convergence.PolicyNameOf | pkg/controller/multicloudmongodb/core.go:493 | the literal name of a policy |
| Convergence.EndpointVips | pkg/controller/multicloudmongodb/core.go:622-645 | the printed endpoints carry the virtual IPs of the policies' clusters in list order |
| Convergence.VipCount | pkg/controller/multicloudmongodb/core.go:363-368 | with distinct virtual IPs counting lines by virtual IP is counting by cluster |
| Convergence.PlacedCount | pkg/controller/multicloudmongodb/core.go:622-645 | a cluster is printed as often as policies name it |
| Convergence.ReadBack | pkg/controller/multicloudmongodb/core.go:355-369 | reading the printed ConfigMap back gives each cluster the number of its (service, cluster) placements |
| Convergence.PrintedPanicsIff | pkg/controller/multicloudmongodb/core.go:355-361 | the printed ConfigMap makes the next pass panic if and only if the policies place nothing |
| Convergence.NothingPlacedPanics | pkg/controller/multicloudmongodb/core.go:355-361 | a ConfigMap printed from policies that place nothing makes the next pass panic |
| Convergence.EmptyPrintPanics | pkg/controller/multicloudmongodb/core.go:355-361 | concrete prints, without policies and with an empty one, on which the next pass panics |
| Convergence.QuietIff | pkg/controller/multicloudmongodb/core.go:355-389 | the next pass has nothing to do if and only if every cluster is named by as many policies as its count |
| Convergence.ExactCounts | pkg/controller/multicloudmongodb/core.go:479-499 | in an exact placement every cluster is named by as many policies as its count |
| Convergence.ExactIsQuiet | pkg/controller/multicloudmongodb/core.go:331-389 | fixpoint: whatever order an exact placement was printed in, the next pass computes empty scale sets |
| Convergence.PlanOfGrowth | pkg/controller/multicloudmongodb/core.go:454-476 | when every needed cluster grows, the plan of number j is exact and not empty below the largest count |
| Convergence.WritingKeepsExact | pkg/controller/multicloudmongodb/core.go:479-499 | an interrupted write loop leaves only exact policies |
| Convergence.WrittenAt | pkg/controller/multicloudmongodb/core.go:493-498 | the policy of a planned number is the last one written for it |
| Convergence.WrittenElsewhere | pkg/controller/multicloudmongodb/core.go:479-482 | every other policy is left alone |
| Convergence.WrittenIsExact | pkg/controller/multicloudmongodb/core.go:479-499 | a completed write loop places every service exactly, whatever the replaced policies said |
| Convergence.StoredExactIff | pkg/controller/multicloudmongodb/core.go:479-499 | after the write loop the stored policy of a number is exact if and only if all clusters that need it grow, or none does and it was exact before |
| Convergence.WrittenExactIff | pkg/controller/multicloudmongodb/core.go:479-499 | a completed write loop places everything exactly if and only if this holds below the largest count and no policy has a higher number |
| ScaleDown.KeptIffLive | pkg/driver/k8s/client.go:427-454 | a policy keeps a cluster if and only if it places a service that is live there |
| ScaleDown.CleanedCounts | pkg/driver/k8s/client.go:456-475 | after cleaning a cluster is named by as many policies as it has live services |
| ScaleDown.CleanedIsQuietIff | pkg/controller/multicloudmongodb/core.go:394-442 | after cleaning and printing the next pass is idle if and only if every cluster has exactly its target of live services |
| ScaleDown.PrintableIffNoneLost | pkg/driver/k8s/client.go:456-475 | after a complete cleaning the ConfigMap can be printed if and only if no policy lost all of its clusters |
| ScaleDown.ThreeToOne | pkg/driver/k8s/client.go:456-475 | a concrete cleaning that leaves two policies empty and unprintable |
| ScaleDown.EndpointMembers | pkg/controller/multicloudmongodb/core.go:625-645 | the printed endpoints are those of the listed policies |
| ScaleDown.PrintedAreLive | pkg/controller/multicloudmongodb/core.go:622-645 | what is printed after cleaning is exactly the live services, each where it is live |
| Federation.ControlPlane.EnsureService | pkg/driver/k8s/client.go:230-241 | creates the service unless it exists, on a node port that no service and no arbiter has, and changes nothing else; fails only with a failing call |
| Federation.ControlPlane.UpsertPolicy | pkg/driver/k8s/client.go:263-281 | replaces the whole policy, and writes nothing when it is equal already |
| Federation.ControlPlane.DeleteDeadServices | pkg/driver/k8s/client.go:417-425 | on success exactly the live services are left; no live service is deleted at any exit |
| Federation.ControlPlane.CleanPolicy | pkg/driver/k8s/client.go:457-475 | one policy ends with its kept clusters; one that keeps none is deleted and, unless its list was empty, written again; without a failing call it fails only if that write is refused, and then the policy is gone |
| Federation.ControlPlane.WriteKept | pkg/driver/k8s/client.go:456-476 | on success every policy lists what it keeps; at any exit a policy is as it was or lists what it keeps |
| Federation.ControlPlane.ScaleDownCleaner | pkg/driver/k8s/client.go:381-477 | exact on success; a bad address stops it before anything is deleted; no exit deletes a live service or a policy that keeps a cluster; without a failing call only a bad address or a refused policy stops it |
| ReportedServices.ReportedStays | pkg/driver/k8s/client.go:390-476 | at every exit a stored service with a reported address of any role but "ARBITER" is still stored with its port, and every policy that placed it on the reporting cluster still does |
| ReportedServices.RoleDecides | pkg/driver/k8s/client.go:394-425 | on success a service stays if and only if some address that refers to it has another role than "ARBITER" |
| ReportedServices.BadAddressStops | pkg/driver/k8s/client.go:394-411 | such an address that refers to no service stops the cleaning before anything is deleted |
| ReportedServices.LiveRoles | pkg/driver/k8s/client.go:394-411 | concrete: the services of a primary and a secondary are live, that of an arbiter is not |
| Federation.ControlPlane.WriteService | pkg/controller/multicloudmongodb/core.go:480-498 | one service number: the service first, then its policy |
| Federation.ControlPlane.WritePlan | pkg/controller/multicloudmongodb/core.go:479-499 | the policies are those of a prefix of the plan, of all of it on success; services only grow, each on a free port; an empty plan writes nothing |
| Federation.ControlPlane.ReadHostConf | pkg/controller/multicloudmongodb/core.go:347-369 | reads the sizes from the ConfigMap; panics exactly on text that cannot be read |
| Federation.ControlPlane.ClusterScale | pkg/controller/multicloudmongodb/core.go:331-506 | sorts the scheduler result in place and takes exactly one of the branches wait, shrink and grow, each with its exact effect. When no call fails: it grows if no cluster shrinks, waits without a write while a shrinking cluster reports another number than its count, and cleans otherwise |
| Federation.BranchFollows | pkg/controller/multicloudmongodb/core.go:394-442 | which branch is taken, from the counts, the sizes read and the reports alone |
| Federation.ControlPlane.PrintPolicies | pkg/controller/multicloudmongodb/core.go:613-645 | the lines are those of all policies in list order; without a failing call it succeeds if and only if every policy has a selector and its service exists, and it panics only on a policy without selectors |
| Federation.ControlPlane.HostConfigMap | pkg/controller/multicloudmongodb/core.go:613-683 | the ConfigMap changes only to the print of the current policies and arbiter, and not at all while a policy cannot be printed; on success, which only a failing call prevents otherwise, it is propagated to the active clusters |
| Federation.ControlPlane.EnsureArbiter | pkg/controller/multicloudmongodb/core.go:539-569 | marks the first entry, keeps an existing arbiter service, and on success its policy names the marked cluster; panics on an empty scheduler result |
| Federation.ControlPlane.DropArbiter | pkg/controller/multicloudmongodb/core.go:570-595 | removes service, policy and line of the arbiter and leaves the data hosts alone |
| Federation.ControlPlane.UpsertArbiter | pkg/controller/multicloudmongodb/core.go:530-601 | one of the two, by the spec |
| Federation.FindArbiter | pkg/controller/multicloudmongodb/core.go:656-661 | finds the cluster of the last marked entry |
| Federation.ArbiterClusterExact | pkg/controller/multicloudmongodb/core.go:656-661 | it is the last marked entry, and the empty name without a mark |
| Federation.MarkedWins | pkg/controller/multicloudmongodb/core.go:540-563 | a mark on a later entry wins over the one on the first |
| Federation.ArbiterIsFirst | pkg/controller/multicloudmongodb/core.go:540-563 | when the scheduler marks no entry the arbiter goes to the first entry after the sort |
| Federation.CleanedIsPartly | pkg/driver/k8s/client.go:456-475 | at every point of the write loop a policy is as it was or lists what it keeps |
| Passes.Pass | pkg/controller/multicloudmongodb/core.go:928-944 | one pass: planner, arbiter's handler and printer, each only after the one before succeeded; on success the arbiter's service, policy and line agree; services and arbiter keep different ports; how it ends when no call fails |
| Passes.QuietStep | pkg/controller/multicloudmongodb/core.go:331-506 | with nothing to grow and nothing to shrink the planner changes nothing |
| Passes.CreatingStep | pkg/controller/multicloudmongodb/core.go:384-499 | without a ConfigMap the planner adds exact policies, and all of them when it succeeds |
| Passes.CreatingKept | pkg/controller/multicloudmongodb/core.go:331-683 | the creation invariant survives a pass whatever fails in it, and once the ConfigMap exists the pass changes nothing |
| Passes.CreatingSucceeds | pkg/controller/multicloudmongodb/core.go:331-645 | a pass of a creation in which no call fails places everything and can print it |
| Passes.CreationPass | pkg/controller/multicloudmongodb/core.go:331-683 | one pass of a creation: keeps the invariant, writes no service and no policy once the ConfigMap exists, and succeeds when no call fails |
| Passes.CreationRun | controllers/multicloudmongodb_controller.go:105-122 | any number of passes from nothing, with any failures: never a wrong placement, exact once some pass has succeeded, and one succeeds as soon as there are more passes than failing calls |
| ShrinkRuns.TableIsLive | pkg/driver/k8s/client.go:387-413 | whatever order services are listed in, the cleaner finds the same live services |
| ShrinkRuns.ShrinkableStays | pkg/driver/k8s/client.go:381-477 | every exit of a cleaning leaves distinct ports, one policy per service, and every reported service placed where it is reported |
| ShrinkRuns.TableStays | pkg/driver/k8s/client.go:417-425 | no exit of a cleaning changes the live services |
| ShrinkRuns.KeptTwice | pkg/driver/k8s/client.go:427-454 | keeping the kept clusters keeps them all |
| ShrinkRuns.CleaningTrims | pkg/driver/k8s/client.go:456-475 | a complete cleaning trims every policy, every later exit leaves them trimmed, and a second complete one leaves no empty policy |
| ShrinkRuns.TrimmedPrintableIff | pkg/controller/multicloudmongodb/core.go:625-631 | once trimmed, all policies can be printed if and only if none is empty |
| ShrinkRuns.DueIsCleaned | pkg/controller/multicloudmongodb/core.go:394-442 | while a scale-down is due a pass cleans or does nothing |
| ShrinkRuns.CleanedMeets | pkg/driver/k8s/client.go:381-477 | what a complete cleaning leaves names every cluster as often as its target says |
| ShrinkRuns.SettledIsQuiet | pkg/controller/multicloudmongodb/core.go:355-442 | once settled the planner changes nothing |
| ShrinkRuns.LostShrinks | pkg/driver/k8s/client.go:456-475 | no exit of a cleaning adds a policy that loses all of its clusters, and a refused write removes one for good |
| ShrinkRuns.DueGoesThrough | pkg/controller/multicloudmongodb/core.go:394-442 | while a scale-down is due and no call fails, a pass cleans completely or a policy is refused |
| ShrinkRuns.DueSpends | pkg/controller/multicloudmongodb/core.go:394-442 | then what is left can be printed, or one of the passes that may end without success is used up |
| ShrinkRuns.SettledSucceeds | pkg/controller/multicloudmongodb/core.go:355-645 | in a settled state a pass in which no call fails succeeds |
| ShrinkRuns.ShrinkPass | pkg/controller/multicloudmongodb/core.go:331-683 | one pass with any failures: keeps all of this, settles when it succeeds, writes no service and no policy once settled, and without success lost a call or used up one of the passes left |
| ShrinkRuns.ShrinkRun | controllers/multicloudmongodb_controller.go:105-122 | any number of passes with any failures: no live service is lost, after two complete cleanings every policy can be printed, once some pass has succeeded the run has settled, and one succeeds as soon as there are more passes than failing calls and policies that lose all of their clusters |
| ShrinkStart.TwoToOne | pkg/controller/multicloudmongodb/core.go:394-442 | a concrete state in which a scale-down is due, may start and meets its targets |
| ShrinkStart.OneLost | pkg/driver/k8s/client.go:427-475 | in it one policy loses all of its clusters |
| Settling.LiveOfReported | pkg/driver/k8s/client.go:390-413 | the live services of a reporting cluster are those whose address it reports, one for each address |
| Settling.ReportedIsPlaced | pkg/driver/k8s/client.go:387-413 | reported services are stored and placed where they are reported |
| Settling.ShrinkSettlesIff | pkg/controller/multicloudmongodb/core.go:394-442 | a scale-down that cleaned and printed settles if and only if every cluster reports exactly its target of data addresses |
| Settling.PrintedAreReported | pkg/controller/multicloudmongodb/core.go:622-645 | the addresses printed after a scale-down are exactly the reported data addresses |
| Aggregation.Attribute | pkg/controller/multicloudmongodb/core.go:889-903 | fills entry i with the attributed addresses; beyond the end it panics exactly when there is one |
| Aggregation.Aggregate | pkg/controller/multicloudmongodb/core.go:856-921 | one entry per reporting cluster, the joined external address, and healthy exactly when every cluster reports that it runs; fails at the first report that does not decode, keeping the entries before it; panics exactly when before that a cluster with addresses follows one without a report |
| Aggregation.HealthyIff | pkg/controller/multicloudmongodb/core.go:906-912 | the count equals the number of clusters if and only if every cluster reports that it runs |
| Aggregation.SilentClusterPanics | pkg/controller/multicloudmongodb/core.go:858-898 | a concrete list of reports on which the handler panics |
| Aggregation.AttributedExact | pkg/controller/multicloudmongodb/core.go:889-903 | exactly the reported hosts that contain the virtual IP, and the arbiter's entry, are attributed |
| Aggregation.AttributedRole | pkg/controller/multicloudmongodb/core.go:895-904 | the role stored with an address is the state of the last reported member there |
| Aggregation.ArbiterRole | pkg/controller/multicloudmongodb/core.go:891-893 | the arbiter's own address has the role "ARBITER" unless a member is reported there |
| Aggregation.ArbiterAddress | pkg/controller/multicloudmongodb/core.go:891-893 | the literal address of the arbiter, in brackets for version 6 |
| Aggregation.ExternalExact | pkg/controller/multicloudmongodb/core.go:895-904 | which hosts make up the external address, in order, for one cluster |
| Aggregation.HostsInOrder | pkg/controller/multicloudmongodb/core.go:858-909 | the same over all clusters |
| Aggregation.EntriesExact | pkg/controller/multicloudmongodb/core.go:858-888 | each cluster that has reported adds one entry with the number of members it reports |
| Aggregation.OnlyReportsDecode | pkg/controller/multicloudmongodb/core.go:859-871 | a cluster without a report never fails to decode |
| Aggregation.OwnAddressesIff | pkg/controller/multicloudmongodb/core.go:895-898 | a cluster gets exactly the addresses at its virtual IP if and only if that IP occurs in no other address |
| Aggregation.PrefixIsAttributed | pkg/controller/multicloudmongodb/core.go:897-898 | a virtual IP that begins like another collects the other cluster's address |
| StatusPass.CloudStatus.Handle | pkg/controller/multicloudmongodb/core.go:806-926 | the handler writes the placeholder exactly when fewer statuses than active clusters are listed; Health exactly when there are enough, all decode and every cluster reports that it runs |
| StatusPass.PlaceholderReadyIff | pkg/controller/multicloudmongodb/core.go:404-411 | on a placeholder a scale-down counts as finished if and only if every shrinking cluster in it shrinks to nothing |
| StatusPass.PlaceholderDeletesLive | pkg/driver/k8s/client.go:417-425 | a concrete cleaning from a placeholder that deletes a live service of a cluster that was not to shrink |
| StatusPass.PlaceholderCleansAll | pkg/driver/k8s/client.go:381-477 | a cleaning that starts from a placeholder and succeeds deletes every service and empties every policy |
| Aggregation.WrittenIsJoin | pkg/controller/multicloudmongodb/core.go:900-901 | trimming the last comma of the buffer gives the hosts joined by commas |
| Membership.ListTable | pkg/driver/mgo/member.go:38-42 | lists each member of the map once, in any order |
| Membership.ByHostExact | pkg/driver/mgo/member.go:17-24 | the map holds one member per host, and lists the members when hosts are unique |
| Membership.ByHostLast | pkg/driver/mgo/member.go:19-24 | of several members with one host the last one counts |
| Membership.MaxId | pkg/driver/mgo/member.go:18-24 | it is zero or the id of a present member, and no id exceeds it |
| Membership.FreshHosts | pkg/driver/mgo/member.go:26-36 | the fresh members have exactly the new hosts |
| Membership.FreshIds | pkg/driver/mgo/member.go:30-34 | fresh members get the ids after the largest one, in order |
| Membership.FreshUnique | pkg/driver/mgo/member.go:28-35 | duplicates in the list to add are added once |
| Membership.AddNew | pkg/driver/mgo/member.go:25-36 | the second loop extends the map by exactly the fresh members |
| Membership.AddMembers | pkg/driver/mgo/member.go:16-45 | reports a change exactly when a host is new. With unique hosts the old members stay unchanged, one member comes for each different new host, and the ids given out are exactly the numbers that follow the largest present one |
| Membership.AddedGivesNext | pkg/driver/mgo/member.go:26-42 | the same of any listing of the extended map |
| Membership.MemberExist | pkg/driver/mgo/member.go:48-78 | returns the members whose host is missing, and true exactly when none is |
| Membership.MissingHosts | pkg/driver/mgo/member.go:60-69 | the reported members have exactly the hosts that are missing |
| Membership.MissingIds | pkg/driver/mgo/member.go:60-69 | reported members are numbered from the largest id on |
| Membership.MissingRecords | pkg/driver/mgo/member.go:60-69 | what is reported as missing is what was listed, up to the id |
| Membership.FreshRecords | pkg/driver/mgo/member.go:26-36 | what is added is what was to be added, up to the id |
| Membership.CheckThenAddIff | pkg/controller/mongodb/core/mongo_config.go:270-283 | adding what the check reported equals adding the original list, duplicates included, if and only if no listed host was present when checked and gone when added |
| Membership.RemoveMembers | pkg/driver/mgo/member.go:81-102 | reports a change exactly when a listed host is present; with unique hosts exactly the members whose host is not listed are left |
| SharedConfig.AddedIsSound | pkg/driver/mgo/member.go:16-45 | adding keeps hosts and ids unique and ids non-negative |
| SharedConfig.SomeStay | pkg/driver/mgo/member.go:81-102 | removing keeps every other member's record |
| SharedConfig.StepKeeps | pkg/driver/mgo/mongo.go:306-341 | a step keeps the configuration sound and every surviving record, changes the hosts as asked, and raises the version exactly when the hosts change |
| SharedConfig.StepTouches | pkg/driver/mgo/mongo.go:306-341 | a removal takes out, and an addition puts in, only records of the listed hosts |
| SharedConfig.StillThere | pkg/driver/mgo/mongo.go:306-341 | over any steps of any clusters none but the records a cluster's own steps may touch is lost or new among its own |
| SharedRuns.RunIsSound | pkg/driver/mgo/mongo.go:306-341 | any interleaving of steps by any number of clusters keeps hosts and ids unique in every configuration |
| SharedRuns.SurvivorUnchanged | pkg/driver/mgo/mongo.go:306-341 | a member that is never removed keeps its whole record, id included, through any run |
| SharedRuns.RunAddsUp | pkg/driver/mgo/mongo.go:306-341 | no step is lost: hosts and version after a run are those the steps add up to |
| SharedRuns.HistoryIsRun | pkg/driver/mgo/mongo.go:306-341 | the history that the shared document keeps is a run |
| SharedConfig.JoinedAs | pkg/driver/mgo/mongo.go:306-325 | a member that was not there before carries a record that was to be added, up to its id |
| SharedIds.AdditionGives | pkg/driver/mgo/member.go:16-45 | an addition gives out exactly the next ids after the largest present, one for each different host it asks for that is not present |
| SharedIds.GivesUnusedIff | pkg/driver/mgo/member.go:17-34 | an addition gives out only ids never used before if and only if none of the ids next in line was ever used |
| SharedIds.GivesHigherIff | pkg/driver/mgo/member.go:17-34 | it gives out only ids above all former ones if and only if it adds nothing or the highest id ever used is still present |
| SharedIds.NeverReusedIff | pkg/driver/mgo/mongo.go:306-341 | both conditions for whole runs |
| SharedIds.UnusedMeansUnique | pkg/driver/mgo/mongo.go:306-341 | in a run without reuse an id belongs to one host throughout |
| SharedRuns.IdsAreReused | pkg/driver/mgo/member.go:31-32 | a concrete run in which a new member gets the id of one that left |
| SharedConfig.ReplicaSet.AddMembers | pkg/driver/mgo/mongo.go:306-325 | one adding step, entered in the history with the cluster that took it, or a failure without effect; an error may hide a step |
| SharedConfig.ReplicaSet.RemoveMembers | pkg/driver/mgo/mongo.go:327-341 | one removing step, entered in the history with the cluster that took it, or a failure without effect; an error may hide a step |
| ReplSetRecords.RestIsDropped | pkg/controller/mongodb/core/replset_member.go:39-41 | no line past the fiftieth contributes a member |
| ReplSetRecords.AppendRecords | pkg/controller/mongodb/core/replset_member.go:34-55 | one of the two loops: the records of the kept lines in order; panics exactly when a kept line cannot be read |
| ReplSetRecords.ConfigMapToMembers | pkg/controller/mongodb/core/replset_member.go:29-88 | data hosts, then arbiters; panics exactly when a kept line of either list cannot be read |
| ReplSetLimits.DataIds | pkg/controller/mongodb/core/replset_member.go:43-47 | data ids are the numbers of the kept lines, all different |
| ReplSetLimits.SettingsOfLine | pkg/controller/mongodb/core/replset_member.go:34-76 | every setting of every member: priority and vote 1 on the first seven lines and 0 after, arbiters marked, indexes built, not hidden, no delay |
| ReplSetLimits.ArbiterIds | pkg/controller/mongodb/core/replset_member.go:70-75 | arbiter ids continue the count of members |
| ReplSetLimits.ContiguousIff | pkg/controller/mongodb/core/replset_member.go:29-88 | the ids are 0, 1, 2, ... over data and arbiters if and only if no blank line interrupts the data hosts |
| ReplSetLimits.UniqueIdsIff | pkg/controller/mongodb/core/replset_member.go:29-88 | the ids are unique if and only if no data host stands on a line number that an arbiter gets |
| ReplSetLimits.GapDoublesId | pkg/controller/mongodb/core/replset_member.go:34-84 | a concrete text with a blank line whose second data host and arbiter get the same id |
| ReplSetLimits.VotersExact | pkg/controller/mongodb/core/replset_member.go:23-84 | the voters are the hosts on the first seven lines of each list, so the lists do not share the seven votes |
| ReplSetJoin.FindRecord | pkg/controller/mongodb/core/replset_member.go:96-124 | one of the two search loops: the first line with the host, unless an unreadable line comes first |
| ReplSetJoin.ConfigMapToMembersByNodePort | pkg/controller/mongodb/core/replset_member.go:91-161 | the records found for the cluster's address at the node port, arbiters only when the spec asks for one |
| ReplSetJoin.RecordsHost | pkg/controller/mongodb/core/replset_member.go:105-157 | whatever the text, only the host asked for is returned |
| ReplSetJoin.ScanAgrees | pkg/controller/mongodb/core/replset_member.go:91-161 | for distinct hosts the search finds exactly the first configuration's record of the host, up to its id |
| ReplSetJoin.IncrementalAgrees | pkg/controller/mongodb/core/replset_member.go:91-161 | initial and incremental records agree up to the id for every host among the first fifty lines, arbiters only when the cluster runs one |
| FirstConfig.RecordsOfText | pkg/controller/mongodb/core/replset_member.go:34-55 | the records of a printed list are the first fifty endpoints in order |
| FirstConfig.PrintedRecords | pkg/controller/mongodb/core/replset_member.go:29-88 | what the control plane prints becomes a sound first configuration with contiguous ids |
| FirstConfig.PrintedLimitsIff | pkg/controller/mongodb/core/replset_member.go:23-84 | exactly when a printed configuration has at most seven voters and at most fifty members |
| FirstConfig.PrintedSizes | pkg/controller/mongodb/core/replset_member.go:29-84 | how many members and voters a printed configuration has |
| FirstConfig.EightVoters | pkg/controller/mongodb/core/replset_member.go:23-84 | seven printed data hosts and one arbiter give eight voters |
| FirstConfig.FiftyMembers | pkg/controller/mongodb/core/replset_member.go:23-84 | of fifty-one printed data hosts fifty become members, seven with a vote |
| CreatedConfig.PlacementsBelow | pkg/controller/multicloudmongodb/core.go:613-645 | in whatever order the policies are listed, those below n place each count up to n |
| CreatedConfig.PrintedTotal | pkg/controller/multicloudmongodb/core.go:613-645 | conservation: an exact placement prints as many endpoints as the scheduler wants members |
| CreatedConfig.PrintedNoRepeat | pkg/controller/multicloudmongodb/core.go:622-645 | no endpoint is printed twice, over all policies |
| CreatedConfig.CreatedEndpoints | pkg/controller/multicloudmongodb/core.go:613-666 | the ConfigMap of a creation holds as many data hosts as scheduled, and no address twice, the arbiter's included |
| CreatedConfig.CreatedConfigIsSound | pkg/controller/mongodb/core/replset_member.go:29-88 | end to end: a member cluster that reads the ConfigMap of a successful creation gets a sound configuration with ids 0, 1, 2, ..., one member for each that was scheduled, up to fifty, and the arbiter |
| StatefulSets.Remaining | pkg/controller/mongodb/core/sync.go:184-225 | what stays alive is exactly what was alive and not deleted |
| StatefulSets.EnoughRemain | pkg/controller/mongodb/core/sync.go:220-223 | fewer than the wanted number stay alive by no more than were terminating when listed |
| StatefulSets.ExactlyRemainIff | pkg/controller/mongodb/core/sync.go:66-70 | a complete scale-down leaves exactly the wanted number alive if and only if no listed StatefulSet was terminating |
| StatefulSets.TerminatingIsCounted | pkg/controller/mongodb/core/sync.go:66-70 | two complete passes in a row that remove one member too many |
| StatefulSets.ArbiterNames | pkg/controller/mongodb/core/sync.go:98 | the names that count as the arbiter's, literally |
| StatefulSets.FilterPodsIsDeleted | pkg/controller/mongodb/core/pod.go:53-66 | the in-place loop keeps, in order, exactly the pods whose StatefulSet is listed and not terminating |
| StatefulSets.SurvivingComplete | pkg/controller/mongodb/core/pod.go:53-66 | no pod of a living StatefulSet is dropped |
| MemberCluster.Cluster.DeleteSts | pkg/driver/k8s/client.go:207-218 | begins the deletion of at most the named StatefulSet, surely so on success |
| MemberCluster.Cluster.MongoRemoveMember | pkg/controller/mongodb/core/mongo_config.go:313-342 | on success the host is not configured; its own step takes out no record but that of the host, of whatever cluster, and every other record of this cluster is as it was |
| MemberCluster.Cluster.MongoRemoveMemberAndDeleteSts | pkg/controller/mongodb/core/mongo_config.go:289-310 | at every exit a StatefulSet whose deletion began has no configured member, and the own steps take out no record but that of its host |
| MemberCluster.Cluster.AskAndRemove | pkg/controller/mongodb/core/sync.go:193-218 | a pod that says it is the master is told to step down, nobody else is, and it is left alone unless it was told |
| MemberCluster.Cluster.ScaleDownOne | pkg/controller/mongodb/core/sync.go:193-223 | one turn of the loop removes at most one StatefulSet, exactly that of the pod on success, and takes out no record but that of its host; a master that was not told to step down is left alone |
| MemberCluster.Cluster.ScaleDownDataNode | pkg/controller/mongodb/core/sync.go:184-225 | prefix safety at every exit: some first pods, no more than the surplus, have been reached; only of these a StatefulSet or a record may be gone, exactly the masters among them were told to step down, and no configured member belongs to a deleted StatefulSet; exactly the surplus goes on success with enough pods of distinct living StatefulSets |
| MemberCluster.Cluster.CheckThenAdd | pkg/controller/mongodb/core/mongo_config.go:270-283 | whatever other clusters do between check and addition, at most the given host is added, and on success it is configured |
| MemberCluster.Cluster.MongoEnsureMemberConfig | pkg/controller/mongodb/core/mongo_config.go:230-286 | adds at most the host of the pod's own service, with the record the ConfigMap gives it up to the id, and on success it is configured if the ConfigMap knows it |
| MemberCluster.Cluster.EnsureMembers | pkg/controller/mongodb/core/sync.go:163-182 | adds at most the hosts of the given pods, and all of them on success |
| MemberCluster.Cluster.EnsureSts | pkg/controller/mongodb/core/ensure.go:24-43 | creates the StatefulSet unless one of that name exists, terminating or not |
| MemberCluster.Cluster.ScaleUp | pkg/controller/mongodb/core/sync.go:80-105 | adds data StatefulSets for services only, and on success every service but the arbiter's has one |
| MemberCluster.Cluster.AdjustData | pkg/controller/mongodb/core/sync.go:63-113 | scales down or up by comparing the spec with the listed StatefulSets, each with its exact effect |
| MemberCluster.Cluster.ScaleDownArbiterNode | pkg/controller/mongodb/core/sync.go:227-278 | removes the arbiter's member before its StatefulSet, no data StatefulSet and no other record; on success no arbiter's StatefulSet is listed or the one of the listed pod is going |
| MemberCluster.Cluster.AdjustArbiter | pkg/controller/mongodb/core/sync.go:114-131 | with an arbiter nothing is removed and on success its StatefulSet exists, created as an arbiter's; without one it goes |
| MemberCluster.Cluster.Confirm | pkg/controller/mongodb/core/sync.go:133-155 | adds at most the hosts of the pods whose StatefulSet is listed and not terminating |
| MemberCluster.Cluster.ConfirmedAreNotGone | pkg/controller/mongodb/core/sync.go:145-152 | a StatefulSet whose deletion began shares its host with no pod that is confirmed |
| MemberCluster.Cluster.SyncMember | pkg/controller/mongodb/core/sync.go:63-160 | at every exit of a pass, whatever failed and whatever other clusters did: no member of a StatefulSet the pass began to delete is configured; its own steps touch no record of another cluster; of its own records only those of the first surplus data pods, and of the arbiter's pod when none should run, may be lost, and only those of surviving pods are new. On success all surviving pods are confirmed and the arbiter's StatefulSet is there or going as the spec says |
| Restart.Instance.DeletePodInRestart | pkg/controller/mongodb/core/restart.go:11-22 | deletes the pod unless it carries the new revision |
| Restart.Instance.UpdateTemplates | pkg/controller/mongodb/mode/replica/replica.go:179-200 | updates the templates of all listed pods in order before any pod is touched |
| Restart.Instance.HandlePods | pkg/controller/mongodb/mode/replica/replica.go:205-237 | does what the phase does to each pod, in order, and all of it on success |
| Restart.Instance.Restart | pkg/controller/mongodb/mode/replica/replica.go:158-244 | does a part of the script of the phase; the phase moves only after the whole script and surely on success; over exactly after the last phase |
| Restart.Instance.CheckRestart | controllers/mongodb_controller.go:239-287 | one pass as a transition of phase and current resources; they become current only when a restart is over, or when none were recorded |
| RestartRuns.ScriptRestartsIff | pkg/controller/mongodb/mode/replica/replica.go:179-237 | which pods a complete phase deletes after updating their template: the secondaries, or the primary, never one with the new revision |
| RestartRuns.EveryDeletion | pkg/controller/mongodb/mode/replica/replica.go:179-237 | at every moment of every pass, failed or not: a deleted pod's template was updated before, and the primary is deleted only in the second phase right after it stepped down |
| RestartRuns.EveryStepDown | pkg/controller/mongodb/mode/replica/replica.go:220-232 | in every pass, failed or not: only the primary is told to step down, and only in the second phase |
| RestartRuns.UpdatesFirst | pkg/controller/mongodb/mode/replica/replica.go:179-205 | templates are only updated to the spec, and all of them before any pod is touched |
| RestartRuns.NothingTwice | pkg/controller/mongodb/mode/replica/replica.go:205-237 | no pod is deleted or told to step down twice in one pass |
| RestartRuns.CompletePass | pkg/controller/mongodb/mode/replica/replica.go:205-243 | what a pass that moves the phase has done to every pod |
| RestartRuns.QuietPass | controllers/mongodb_controller.go:239-287 | nothing happens unless recorded resources differ and enough pods are ready; resources never recorded are recorded without a restart |
| RestartRuns.StepDownAfterSecondaries | pkg/controller/mongodb/mode/replica/replica.go:203-237 | in every run a step-down comes after a complete first phase of the same cycle |
| RestartRuns.Entered | pkg/controller/mongodb/mode/replica/replica.go:203-243 | a phase is entered only by a complete pass of the one before, begun with enough ready pods |
| RestartRuns.RestartHasBothPhases | controllers/mongodb_controller.go:239-287 | whenever new resources become current by a restart, a complete first phase and later a complete second phase came before |
| RestartRuns.ThreePassesSuffice | controllers/mongodb_controller.go:239-287 | three passes without errors complete the cycle |
| RestartCoverage.ScriptRestartsWithIff | pkg/controller/mongodb/mode/replica/replica.go:179-237 | a complete phase restarts a pod with given resources if and only if it saw these and the pod is one it deletes |
| RestartCoverage.CycleRestartsIff | pkg/controller/mongodb/mode/replica/replica.go:203-238 | the two complete phases restart a pod with given resources if and only if the first saw them and the pod was not the primary, or the second saw them and it was; its revision may change in between |
| RestartCoverage.AdoptionRestartsIff | controllers/mongodb_controller.go:239-287 | the same for the two phases behind every adoption of new resources in every run |
| RestartCoverage.PassRestartsIff | pkg/controller/mongodb/mode/replica/replica.go:158-244 | a pass, complete or not, restarts a pod with given resources if and only if it saw them, its phase is to delete the pod, and it got as far as that pod |
| RestartCoverage.RunRestartsIff | controllers/mongodb_controller.go:239-287 | the same for the passes of any run between two moments |
| RestartCoverage.RestartCoversEveryPod | pkg/controller/mongodb/mode/replica/replica.go:158-244 | with spec, pods and primary unchanged (readiness, order and revisions may change), every pod was deleted after its template update, the primary in a later pass than the secondaries, begun with as many pods ready as the spec wants |
| RestartCoverage.CompleteCycle | controllers/mongodb_controller.go:239-287 | three complete passes are a run that adopts the resources, so the theorem has instances |
| RestartCoverage.SteadyCycle | pkg/controller/mongodb/core/resource_builder.go:65-66 | a cycle whose deleted pods come back with another revision and in another order is steady |
| RestartCoverage.PrimaryMoved | pkg/controller/mongodb/mode/replica/replica.go:220-237 | a concrete run in which a pod is not restarted because the primary moved |
| RestartCoverage.MovedYetRestarted | pkg/controller/mongodb/mode/replica/replica.go:204-218 | a concrete run in which such a pod was restarted after all, by a pass whose phase write failed |
| RestartCoverage.RevertedMidCycle | controllers/mongodb_controller.go:245-253 | a concrete run in which reverting the resources in mid-cycle makes the next change skip the secondaries |
| Ordinals.LeftmostMatch | pkg/controller/mongodb/core/pod_util.go:201-215 | the parse is the leftmost match of the regular expression and no other dash is possible |
| Ordinals.NoMatch | pkg/controller/mongodb/core/pod_util.go:206-209 | without a dash before its final digits a name does not match |
| Ordinals.OrdinalRoundTrip | pkg/util/str.go:14-16 | a newline-free name with an index is parsed back to both below 2^31, and to -1 from there on |
| PodBuckets.PodFilter | pkg/controller/mongodb/core/pod_util.go:136-152 | keeps the pods that pass every filter, in order |
| PodBuckets.PodRest | pkg/controller/mongodb/core/pod_util.go:178-192 | keeps the pods whose name the other list lacks, in order |
| PodBuckets.FilterInOrder | pkg/controller/mongodb/core/pod_util.go:136-152 | a filter keeps the order |
| PodBuckets.NamesExact | pkg/controller/mongodb/core/pod_util.go:178-184 | the names are those of the listed pods |
| PodBuckets.SlotExact | pkg/controller/mongodb/core/pod_util.go:41-50 | a slot holds a pod with its number, and is empty only when there is none |
| PodBuckets.SlotLast | pkg/controller/mongodb/core/pod_util.go:41-50 | of several pods with one number the last one takes the slot |
| PodBuckets.MissingExact | pkg/controller/mongodb/core/pod_util.go:52-59 | Miss is exactly the unused numbers below the expected count, ascending |
| PodBuckets.ExistingExact | pkg/controller/mongodb/core/pod_util.go:52-59 | existing pods are listed pods with numbers below the expected count |
| PodBuckets.RestChangesNothing | pkg/controller/mongodb/core/pod_util.go:61-62 | taking the redundant pods out of the healthy ones by name never removes any |
| PodBuckets.BucketsAddUp | pkg/controller/mongodb/core/pod_util.go:34-72 | for distinct non-negative ordinals the pod count is the redundant ones plus the expected count minus the missing ones |
| PodBuckets.BucketsPartition | pkg/controller/mongodb/core/pod_util.go:61-64 | which pod states each of Ok, Pending, Failed and Redundant holds; every pod is in at most one, and in none exactly when its number is expected and a later pod took its slot or it is running, neither ready nor terminating |
| PodBuckets.UnlistedIff | pkg/controller/mongodb/core/pod_util.go:61-64 | with distinct non-negative ordinals exactly the expected pods that are running, neither ready nor terminating, are in no bucket |
| PodBuckets.StartingIsUnlisted | pkg/controller/mongodb/core/pod_util.go:52-64 | one expected pod that is starting makes all buckets empty, Miss included |
| PodBuckets.SortById | pkg/controller/mongodb/core/pod_util.go:195-199 | sorts in place: ascending ordinals, a permutation |
| PodBuckets.FillSlots | pkg/controller/mongodb/core/pod_util.go:41-50 | fills the slots and the redundant list; panics exactly when a pod has no ordinal |
| PodBuckets.PodClassify | pkg/controller/mongodb/core/pod_util.go:34-72 | the buckets of the sorted pods; panics exactly when the expected count is negative or a pod has no ordinal |
| Conditions.ListIsMap | api/v1alpha1/condition.go:36-60 | after any sequence of updates: one entry per key, in the order of first insertion, as the updates with that key alone determine |
| Conditions.KeysDistinct | pkg/controller/mongodb/core/status.go:168-179 | no key occurs twice, and the keys are those ever updated |
| Conditions.TwoConditions | pkg/controller/mongodb/core/status.go:168-179 | two messages of one type share an entry in the control plane and have two in the data plane |
| Conditions.LatestIsVisible | pkg/controller/mongodb/core/status.go:168-179 | the latest update of a key is visible with its status, reason and message; the data plane stores the time of the update, the control plane keeps the time while the status stays and otherwise stores the time the condition brings or, if it brings none, that of the update |
| Conditions.TimeOfTransition | api/v1alpha1/condition.go:49-56 | the transition time is that of the update that began the present run of equal statuses |
| Conditions.ConditionList.FindCondition | api/v1alpha1/condition.go:63-71 | finds the first entry with the key |
| Conditions.ConditionList.SetStatusCondition | api/v1alpha1/condition.go:36-60 | inserts or merges one entry, the time only when the status changes |
| Conditions.ConditionList.UpdateCondition | pkg/controller/mongodb/core/status.go:168-179 | inserts or overwrites one entry by type and message |

## Left out

- Kubernetes, Karmada and MongoDB clients, pod exec, polling, sleeps, logging, metrics, events and webhooks: their results are inputs or calls that may fail.
- Federation.ControlPlane.HostConfigMap: does not model the filling of the service names after printing (nothing reads them again in the pass), labels and namespaces.
- Federation.ControlPlane.CleanPolicy: leaves open whether the API server accepts a deleted policy that is written again with its old resource version; it may refuse any of them, and ShrinkRuns.ShrinkRun holds either way.
- Federation.ControlPlane.ScaleDownCleaner: a service has one node port.
- HostConf.PrintedHostsReadBack: needs virtual IPs that the format string carries unchanged; the verbs of `fmt.Sprintf` beyond the missing-operand rule (flags, widths) are not expanded, and no Kubernetes label value contains a percent sign.
- Passes.CreationRun: convergence is proved for creation; when only some clusters grow the code does not guarantee it, and Convergence.WrittenExactIff says when a placement is exact.
- Settling.ShrinkSettlesIff: assumes that clusters report only addresses of stored services placed there; ScaleDown.PrintableIffNoneLost says when the printing it needs can succeed.
- Aggregation.Aggregate: the revision, state and replica fields that are copied through.
- MongoHandler and the generators of objects, labels and overrides: they fill in literals; of GenerateMongoPP the weight list is modelled.
- UpsertOpEnsure: its edits go to copies. The commented-out UpsertSvcHandler and updateCluster, which no production code calls.
- SharedRuns.RunIsSound: one read-edit-write is one step; a race inside it, elections and forced reconfiguration belong to MongoDB.
- RestoreReplSet, RemoveNodeToMember and AddNodeToMember: they compare hosts with pod names and depend on live connections.
- ConfigMapToArbiterMember: its result is only used in a log decision.
- MemberCluster.Cluster.SyncMember: ListPod results are parameters, so their sorting is not repeated here, and a Go index panic while reading an arbiter's host counts as a failed call.
- Restart.Instance.CheckRestart: the state field and its events, a spec that changes within one pass, and containers other than the one named for MongoDB.
- Secrets, users, storage and the exporter beyond the point where its service call may fail.
