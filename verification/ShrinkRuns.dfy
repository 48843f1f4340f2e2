/** Any number of passes of a scale-down, each of whose calls may fail: what they keep, and what they settle at. */
module ShrinkRuns {
  import opened Outcomes
  import opened Text
  import opened HostConf
  import opened Placement
  import opened Cleaner
  import opened Convergence
  import opened ScaleDown
  import opened Federation
  import opened Passes
  import opened Settling
  import opened FiniteSets

  // ---------------------------------------------------------------- the live services, independent of the listing

  ghost predicate LiveAt(result: seq<Topology>, services: map<string, nat>, vips: map<string, string>, c: string, s: string) {
    exists t, addr :: t in result && t.cluster == c && addr in DataAddresses(t) && IsServiceAddress(addr, services, vips, c, s)
  }

  ghost function ReportedClusters(result: seq<Topology>): set<string> {
    set t | t in result :: t.cluster
  }

  /** The services live in each reported cluster. */
  ghost function LiveTable(result: seq<Topology>, services: map<string, nat>, vips: map<string, string>): map<string, set<string>> {
    map c | c in ReportedClusters(result) :: set s | s in services && LiveAt(result, services, vips, c, s)
  }

  lemma {:induction false} LiveOfIsTable(t: Topology, result: seq<Topology>, list: seq<Service>, services: map<string, nat>,
                                         policies: map<string, Policy>, vips: map<string, string>)
    requires ListsServices(list, services) && GoodPorts(services) && GoodVips(vips)
    requires Reports(result, services, policies, vips) && t in result
    ensures t.cluster in LiveTable(result, services, vips)
    ensures LiveOf(t, list) == LiveTable(result, services, vips)[t.cluster]
  {
    LiveOfReported(t, result, list, services, policies, vips);
    forall s
      ensures s in LiveOf(t, list) <==> s in services && LiveAt(result, services, vips, t.cluster, s)
    {
      if LiveAt(result, services, vips, t.cluster, s) {
        var u, addr :| u in result && u.cluster == t.cluster && addr in DataAddresses(u) && IsServiceAddress(addr, services, vips, t.cluster, s);
      }
    }
  }

  /** Whatever order the services are listed in, the cleaner finds the same live services. */
  lemma {:induction false} TableIsLive(result: seq<Topology>, list: seq<Service>, services: map<string, nat>,
                                       policies: map<string, Policy>, vips: map<string, string>)
    requires ListsServices(list, services) && GoodPorts(services) && GoodVips(vips)
    requires Reports(result, services, policies, vips)
    ensures LiveByCluster(result, list) == LiveTable(result, services, vips)
  {
    LiveByClusterExact(result, list);
    var found, table := LiveByCluster(result, list), LiveTable(result, services, vips);
    forall c | c in found
      ensures c in table && found[c] == table[c]
    {
      var t :| t in result && t.cluster == c;
      LiveOfIsTable(t, result, list, services, policies, vips);
    }
    forall c | c in table
      ensures c in found
    {
      var t :| t in result && t.cluster == c;
    }
  }

  // ---------------------------------------------------------------- what every exit keeps

  /** A state that a scale-down may start from: distinct ports, one policy per service, known clusters, and every
      reported service stored and placed where it is reported. */
  ghost predicate Shrinkable(result: seq<Topology>, vips: map<string, string>, services: map<string, nat>, policies: map<string, Policy>) {
    && GoodPorts(services) && OneServiceEach(policies)
    && (forall name, c :: name in policies && c in policies[name].clusters ==> c in vips)
    && Reports(result, services, policies, vips)
  }

  /** A cleaning, interrupted or not, in terms of the live services. */
  ghost predicate TableStep(services: map<string, nat>, policies: map<string, Policy>, services': map<string, nat>, policies': map<string, Policy>,
                            table: map<string, set<string>>, outcome: Outcome) {
    && (forall s :: s in services' ==> s in services && services'[s] == services[s])
    && (forall s :: s in services && LiveSomewhere(table, s) ==> s in services')
    && PartlyCleaned(policies, policies', table)
    && (outcome.Done? ==> policies' == CleanedAll(policies, table))
  }

  lemma {:induction false} CleaningIsTableStep(result: seq<Topology>, list: seq<Service>, vips: map<string, string>,
                                               services: map<string, nat>, policies: map<string, Policy>,
                                               services': map<string, nat>, policies': map<string, Policy>, outcome: Outcome)
    requires GoodVips(vips) && Shrinkable(result, vips, services, policies) && ListsServices(list, services)
    requires CleaningStep(services, policies, services', policies', result, list, outcome)
    ensures TableStep(services, policies, services', policies', LiveTable(result, services, vips), outcome)
  {
    ReportedIsPlaced(result, list, services, policies, vips);
    TableIsLive(result, list, services, policies, vips);
  }

  /** A placement that reports a live service survives any exit of the cleaning. */
  lemma {:induction false} PlacementStays(services: map<string, nat>, policies: map<string, Policy>, services': map<string, nat>,
                                          policies': map<string, Policy>, table: map<string, set<string>>, outcome: Outcome,
                                          name: string, s: string, c: string)
    requires TableStep(services, policies, services', policies', table, outcome) && OneServiceEach(policies)
    requires name in policies && Places(policies[name], s, c) && c in table && s in table[c] && s in services
    ensures s in services' && services'[s] == services[s]
    ensures name in policies' && Places(policies'[name], s, c)
  {
    KeptIffLive(policies, table, name, c);
    assert LiveSomewhere(table, s);
  }

  /** A reported address stays that of a stored service placed where it is reported. */
  lemma {:induction false} ReportStays(result: seq<Topology>, vips: map<string, string>, services: map<string, nat>, policies: map<string, Policy>,
                                       services': map<string, nat>, policies': map<string, Policy>, outcome: Outcome, t: Topology, addr: string)
    requires Shrinkable(result, vips, services, policies) && t in result && addr in DataAddresses(t)
    requires TableStep(services, policies, services', policies', LiveTable(result, services, vips), outcome)
    ensures exists s, name :: IsServiceAddress(addr, services', vips, t.cluster, s) && name in policies' && Places(policies'[name], s, t.cluster)
  {
    var s, name :| IsServiceAddress(addr, services, vips, t.cluster, s) && name in policies && Places(policies[name], s, t.cluster);
    assert LiveAt(result, services, vips, t.cluster, s);
    PlacementStays(services, policies, services', policies', LiveTable(result, services, vips), outcome, name, s, t.cluster);
    assert IsServiceAddress(addr, services', vips, t.cluster, s);
  }

  lemma {:induction false} PoliciesStay(policies: map<string, Policy>, policies': map<string, Policy>, table: map<string, set<string>>, vips: map<string, string>)
    requires PartlyCleaned(policies, policies', table) && OneServiceEach(policies)
    requires forall name, c :: name in policies && c in policies[name].clusters ==> c in vips
    ensures OneServiceEach(policies')
    ensures forall name, c :: name in policies' && c in policies'[name].clusters ==> c in vips
  {
    forall name | name in policies'
      ensures policies'[name].selectors == policies[name].selectors
      ensures forall c :: c in policies'[name].clusters ==> c in policies[name].clusters
    {
      KeptExact(policies[name], table);
    }
  }

  /** Every exit of a cleaning leaves a state that a scale-down may start from. */
  lemma {:induction false} ShrinkableStays(result: seq<Topology>, vips: map<string, string>, services: map<string, nat>, policies: map<string, Policy>,
                                           services': map<string, nat>, policies': map<string, Policy>, outcome: Outcome)
    requires Shrinkable(result, vips, services, policies)
    requires TableStep(services, policies, services', policies', LiveTable(result, services, vips), outcome)
    ensures Shrinkable(result, vips, services', policies')
  {
    PoliciesStay(policies, policies', LiveTable(result, services, vips), vips);
    forall t, addr | t in result && addr in DataAddresses(t)
      ensures exists s, name :: IsServiceAddress(addr, services', vips, t.cluster, s) && name in policies' && Places(policies'[name], s, t.cluster)
    {
      ReportStays(result, vips, services, policies, services', policies', outcome, t, addr);
    }
  }

  /** The live services stay the same. */
  lemma {:induction false} TableStays(result: seq<Topology>, vips: map<string, string>, services: map<string, nat>, policies: map<string, Policy>,
                                      services': map<string, nat>, policies': map<string, Policy>, outcome: Outcome)
    requires TableStep(services, policies, services', policies', LiveTable(result, services, vips), outcome)
    ensures LiveTable(result, services', vips) == LiveTable(result, services, vips)
  {
    var table, table' := LiveTable(result, services, vips), LiveTable(result, services', vips);
    forall c, s | c in table
      ensures c in table' && (s in table[c] <==> s in table'[c])
    {
      if s in table[c] {
        assert LiveSomewhere(table, s);
        var t, addr :| t in result && t.cluster == c && addr in DataAddresses(t) && IsServiceAddress(addr, services, vips, c, s);
        assert IsServiceAddress(addr, services', vips, c, s);
      }
      if s in table'[c] {
        var t, addr :| t in result && t.cluster == c && addr in DataAddresses(t) && IsServiceAddress(addr, services', vips, c, s);
        assert IsServiceAddress(addr, services, vips, c, s);
      }
    }
    assert forall c :: c in table ==> table[c] == table'[c];
  }

  // ---------------------------------------------------------------- one cleaning, and the next

  /** Every policy lists exactly the clusters it keeps: so after one complete cleaning. */
  ghost predicate Trimmed(policies: map<string, Policy>, table: map<string, set<string>>) {
    forall name :: name in policies ==> policies[name].clusters == Kept(policies[name], table)
  }

  /** No policy has an empty list: so after a second one. */
  ghost predicate NoneEmpty(policies: map<string, Policy>) {
    forall name :: name in policies ==> policies[name].clusters != []
  }

  lemma {:induction false} AllKept(policy: Policy, table: map<string, set<string>>)
    requires NoDuplicates(policy.clusters) && forall c :: c in policy.clusters ==> KeepsCluster(policy, table, c)
    ensures Kept(policy, table) == policy.clusters
    decreases |policy.clusters|
  {
    if policy.clusters == [] {
    } else {
      var n := |policy.clusters| - 1;
      var before := policy.(clusters := policy.clusters[..n]);
      assert forall c :: KeepsCluster(before, table, c) == KeepsCluster(policy, table, c);
      assert forall c :: c in before.clusters ==> c in policy.clusters;
      AllKept(before, table);
      assert policy.clusters[n] !in before.clusters;
      assert policy.clusters == before.clusters + [policy.clusters[n]];
    }
  }

  /** Keeping twice keeps the same. */
  lemma {:induction false} KeptTwice(policy: Policy, table: map<string, set<string>>)
    ensures var trimmed := policy.(clusters := Kept(policy, table)); Kept(trimmed, table) == trimmed.clusters
  {
    var trimmed := policy.(clusters := Kept(policy, table));
    KeptExact(policy, table);
    forall c | c in trimmed.clusters
      ensures KeepsCluster(trimmed, table, c)
    {
      assert KeepsCluster(policy, table, c);
    }
    AllKept(trimmed, table);
  }

  /** A complete cleaning trims, a trimmed state stays so through any exit, and cleaning it completely once more
      removes the empty policies for good. */
  lemma {:induction false} CleaningTrims(services: map<string, nat>, policies: map<string, Policy>, services': map<string, nat>,
                                         policies': map<string, Policy>, table: map<string, set<string>>, outcome: Outcome)
    requires TableStep(services, policies, services', policies', table, outcome)
    ensures outcome.Done? || Trimmed(policies, table) ==> Trimmed(policies', table)
    ensures Trimmed(policies, table) && (outcome.Done? || NoneEmpty(policies)) ==> NoneEmpty(policies')
  {
    forall name | name in policies'
      ensures outcome.Done? || Trimmed(policies, table) ==> policies'[name].clusters == Kept(policies'[name], table)
      ensures Trimmed(policies, table) && (outcome.Done? || NoneEmpty(policies)) ==> policies'[name].clusters != []
    {
      KeptTwice(policies[name], table);
    }
  }

  lemma {:induction false} TrimmedPrintable(policies: map<string, Policy>, table: map<string, set<string>>, services: map<string, nat>, name: string)
    requires OneServiceEach(policies) && Trimmed(policies, table) && LiveIsPlaced(policies, table) && name in policies
    requires forall s :: s in services <==> LiveSomewhere(table, s)
    ensures Printable(policies[name], services) <==> policies[name].clusters != []
  {
    var s := policies[name].selectors[0];
    assert policies[name].selectors == [s];
    if policies[name].clusters != [] {
      KeptIffLive(policies, table, name, policies[name].clusters[0]);
    }
    if s in services {
      var c :| c in table && s in table[c];
      assert PlacedOn(policies, s, c);
      var m :| m in policies && Places(policies[m], s, c);
    }
  }

  /** A trimmed state can be printed if and only if no policy is empty. */
  lemma {:induction false} TrimmedPrintableIff(result: seq<Topology>, vips: map<string, string>, services: map<string, nat>, policies: map<string, Policy>)
    requires OneServiceEach(policies) && Trimmed(policies, LiveTable(result, services, vips))
    requires forall s :: s in services ==> LiveSomewhere(LiveTable(result, services, vips), s)
    requires LiveIsPlaced(policies, LiveTable(result, services, vips))
    ensures (forall name :: name in policies ==> Printable(policies[name], services)) <==> NoneEmpty(policies)
  {
    forall name | name in policies
      ensures Printable(policies[name], services) <==> policies[name].clusters != []
    {
      TrimmedPrintable(policies, LiveTable(result, services, vips), services, name);
    }
  }

  /** Without empty policies a trimmed state can always be printed. */
  lemma {:induction false} NoneEmptyPrintable(result: seq<Topology>, vips: map<string, string>, services: map<string, nat>, policies: map<string, Policy>)
    requires OneServiceEach(policies) && Trimmed(policies, LiveTable(result, services, vips)) && NoneEmpty(policies)
    ensures forall name :: name in policies ==> Printable(policies[name], services)
  {
    forall name | name in policies
      ensures Printable(policies[name], services)
    {
      KeptIffLive(policies, LiveTable(result, services, vips), name, policies[name].clusters[0]);
    }
  }

  // ---------------------------------------------------------------- runs

  /** Every scheduled cluster reports exactly its target number of data addresses, and some cluster reports one. */
  ghost predicate MeetsTargets(result: seq<Topology>, quotas: seq<Quota>) {
    && (forall q :: q in quotas ==> |ReportedBy(result, q.cluster)| == Max(0, q.replicas))
    && exists t :: t in result && DataAddresses(t) != {}
  }

  /** The ConfigMap still shows more than the targets, and the reports say the members are gone. */
  ghost predicate Due(quotas: seq<Quota>, vips: map<string, string>, result: seq<Topology>, datas: Option<string>) {
    && datas.Some? && ReadSizes(datas, vips).Some?
    && var down := DownTargets(quotas, ReadSizes(datas, vips).value);
       down != map[] && ReadyToShrink(result, down)
  }

  /** The ConfigMap was printed from the present policies, and these name every cluster as often as its target says. */
  ghost predicate Settled(quotas: seq<Quota>, vips: map<string, string>, services: map<string, nat>, policies: map<string, Policy>, datas: Option<string>) {
    && datas.Some? && WellPlaced(policies, vips)
    && (forall q :: q in quotas ==> |PoliciesNaming(policies, q.cluster)| == Max(0, q.replicas))
    && exists order :: PrintedFrom(datas.value, order, policies, services, vips)
  }

  lemma {:induction false} SortedTargets(quotas: seq<Quota>, sorted: seq<Quota>, sizes: Option<map<string, int>>)
    requires DistinctClusters(quotas) && multiset(sorted) == multiset(quotas)
    ensures DistinctClusters(sorted) && DownTargets(sorted, sizes) == DownTargets(quotas, sizes)
  {
    PermutedDistinct(quotas, sorted);
    SameMultisetSameMembers(sorted, quotas);
    DownTargetsExact(quotas, sizes);
    DownTargetsExact(sorted, sizes);
    var a, b := DownTargets(quotas, sizes), DownTargets(sorted, sizes);
    forall c | c in a
      ensures c in b && a[c] == b[c]
    {
      var q :| q in quotas && Shrinks(q, sizes) && q.cluster == c;
    }
    forall c | c in b
      ensures c in a
    {
      var q :| q in sorted && Shrinks(q, sizes) && q.cluster == c;
    }
  }

  /** Once settled, the planner changes nothing. */
  lemma {:induction false} SettledIsQuiet(base: string, quotas: seq<Quota>, sorted: seq<Quota>, vips: map<string, string>, result: seq<Topology>,
                                          branch: Branch, planned: Outcome, services: map<string, nat>, policies: map<string, Policy>, datas: Option<string>,
                                          services': map<string, nat>, policies': map<string, Policy>)
    requires DistinctClusters(quotas) && multiset(sorted) == multiset(quotas) && GoodVips(vips)
    requires Settled(quotas, vips, services, policies, datas)
    requires ScaleStep(base, sorted, map[], result, ReadSizes(datas, vips), branch, planned, services, policies, services', policies')
    ensures services' == services && policies' == policies
    ensures branch.Growing? ==> forall j: nat :: Slot(branch.upsert, j) == []
    ensures branch.Growing? || branch.Untouched?
  {
    var order :| PrintedFrom(datas.value, order, policies, services, vips);
    PermutedDistinct(quotas, sorted);
    SameMultisetSameMembers(sorted, quotas);
    QuietIff(datas.value, order, policies, services, vips, sorted);
    QuietStep(base, sorted, map[], result, ReadSizes(datas, vips), branch, planned, services, policies, services', policies');
  }

  /** While a scale-down is due, the planner cleans or does nothing. */
  lemma {:induction false} DueIsCleaned(base: string, quotas: seq<Quota>, sorted: seq<Quota>, vips: map<string, string>, result: seq<Topology>,
                                        branch: Branch, planned: Outcome, services: map<string, nat>, policies: map<string, Policy>, datas: Option<string>,
                                        services': map<string, nat>, policies': map<string, Policy>)
    requires DistinctClusters(quotas) && multiset(sorted) == multiset(quotas) && GoodVips(vips)
    requires Due(quotas, vips, result, datas) && Shrinkable(result, vips, services, policies)
    requires ScaleStep(base, sorted, map[], result, ReadSizes(datas, vips), branch, planned, services, policies, services', policies')
    ensures branch.Shrinking? || (branch.Untouched? && planned != Done)
    ensures TableStep(services, policies, services', policies', LiveTable(result, services, vips), planned)
  {
    SortedTargets(quotas, sorted, ReadSizes(datas, vips).value);
    var table := LiveTable(result, services, vips);
    match branch {
      case Shrinking(list) =>
        CleaningIsTableStep(result, list, vips, services, policies, services', policies', planned);
      case Untouched =>
      case Waiting =>
      case Growing(_, _) =>
    }
  }

  /** What a complete cleaning leaves meets the targets. */
  lemma {:induction false} CleanedMeets(result: seq<Topology>, vips: map<string, string>, quotas: seq<Quota>,
                                        list: seq<Service>, services: map<string, nat>, policies: map<string, Policy>)
    requires GoodVips(vips) && Shrinkable(result, vips, services, policies) && ListsServices(list, services) && MeetsTargets(result, quotas)
    ensures var cleaned := CleanedAll(policies, LiveTable(result, services, vips));
            && WellPlaced(cleaned, vips)
            && forall q :: q in quotas ==> |PoliciesNaming(cleaned, q.cluster)| == Max(0, q.replicas)
  {
    var table := LiveTable(result, services, vips);
    TableIsLive(result, list, services, policies, vips);
    ReportedIsPlaced(result, list, services, policies, vips);
    var t :| t in result && DataAddresses(t) != {};
    LiveOfReported(t, result, list, services, policies, vips);
    LiveOfIsTable(t, result, list, services, policies, vips);
    assert |LiveIn(table, t.cluster)| > 0;
    CleanedIsWellPlaced(policies, table, vips, t.cluster);
    forall q | q in quotas
      ensures |PoliciesNaming(CleanedAll(policies, table), q.cluster)| == Max(0, q.replicas)
    {
      CleanedCounts(policies, table, q.cluster);
      ReportedCount(result, list, services, policies, vips, q.cluster);
    }
  }

  /** What a run of a scale-down keeps: a shrinkable state with the same live services, and the old ConfigMap until it
      has settled. */
  ghost predicate ShrinkInvariant(quotas: seq<Quota>, vips: map<string, string>, result: seq<Topology>, table: map<string, set<string>>,
                                  services: map<string, nat>, policies: map<string, Policy>, datas: Option<string>) {
    && Shrinkable(result, vips, services, policies)
    && LiveTable(result, services, vips) == table
    && (Due(quotas, vips, result, datas) || Settled(quotas, vips, services, policies, datas))
  }

  /** How far the run is: after one complete cleaning the policies are trimmed, after two none is empty. */
  ghost predicate Progress(cleanings: nat, policies: map<string, Policy>, table: map<string, set<string>>) {
    (cleanings >= 1 ==> Trimmed(policies, table)) && (cleanings >= 2 ==> NoneEmpty(policies))
  }

  /** Whether a pass has cleaned completely. */
  predicate Cleans(branch: Branch, planned: Outcome) {
    branch.Shrinking? && planned == Done
  }

  lemma {:induction false} CleanedSettles(quotas: seq<Quota>, vips: map<string, string>, result: seq<Topology>, list: seq<Service>,
                                          services: map<string, nat>, policies: map<string, Policy>, services': map<string, nat>, text: string, order: seq<string>)
    requires GoodVips(vips) && Shrinkable(result, vips, services, policies) && ListsServices(list, services) && MeetsTargets(result, quotas)
    requires PrintedFrom(text, order, CleanedAll(policies, LiveTable(result, services, vips)), services', vips)
    ensures Settled(quotas, vips, services', CleanedAll(policies, LiveTable(result, services, vips)), Some(text))
  {
    CleanedMeets(result, vips, quotas, list, services, policies);
  }

  /** One pass while the scale-down is due. */
  lemma {:induction false} DueKept(base: string, quotas: seq<Quota>, sorted: seq<Quota>, vips: map<string, string>, result: seq<Topology>,
                                   branch: Branch, planned: Outcome, cleanings: nat, services: map<string, nat>, policies: map<string, Policy>, datas: Option<string>,
                                   services': map<string, nat>, policies': map<string, Policy>)
    requires DistinctClusters(quotas) && multiset(sorted) == multiset(quotas) && GoodVips(vips)
    requires Due(quotas, vips, result, datas) && Shrinkable(result, vips, services, policies)
    requires Progress(cleanings, policies, LiveTable(result, services, vips))
    requires ScaleStep(base, sorted, map[], result, ReadSizes(datas, vips), branch, planned, services, policies, services', policies')
    ensures Shrinkable(result, vips, services', policies') && LiveTable(result, services', vips) == LiveTable(result, services, vips)
    ensures Progress(cleanings + if Cleans(branch, planned) then 1 else 0, policies', LiveTable(result, services, vips))
    ensures planned == Done ==> Cleans(branch, planned) && ListsServices(branch.list, services)
                                && policies' == CleanedAll(policies, LiveTable(result, services, vips))
  {
    DueIsCleaned(base, quotas, sorted, vips, result, branch, planned, services, policies, datas, services', policies');
    var table := LiveTable(result, services, vips);
    ShrinkableStays(result, vips, services, policies, services', policies', planned);
    TableStays(result, vips, services, policies, services', policies', planned);
    CleaningTrims(services, policies, services', policies', table, planned);
  }

  /** What a pass, whatever failed in it, makes of a state. */
  ghost predicate Advances(quotas: seq<Quota>, vips: map<string, string>, result: seq<Topology>, table: map<string, set<string>>,
                           cleanings: nat, services: map<string, nat>, policies: map<string, Policy>, datas: Option<string>,
                           cleanings': nat, services': map<string, nat>, policies': map<string, Policy>, datas': Option<string>, outcome: Outcome) {
    && ShrinkInvariant(quotas, vips, result, table, services', policies', datas') && Progress(cleanings', policies', table)
    && cleanings <= cleanings' <= cleanings + 1
    && (outcome.Done? ==> Settled(quotas, vips, services', policies', datas'))
    && if Settled(quotas, vips, services, policies, datas) then
         Settled(quotas, vips, services', policies', datas') && services' == services && policies' == policies
       else outcome.Done? ==> cleanings' == cleanings + 1
  }

  lemma {:induction false} DueAdvances(base: string, quotas: seq<Quota>, sorted: seq<Quota>, vips: map<string, string>, result: seq<Topology>,
                                       table: map<string, set<string>>, branch: Branch, planned: Outcome, outcome: Outcome, order: seq<string>, cleanings: nat,
                                       services: map<string, nat>, policies: map<string, Policy>, datas: Option<string>,
                                       services': map<string, nat>, policies': map<string, Policy>, datas': Option<string>)
    requires DistinctClusters(quotas) && multiset(sorted) == multiset(quotas) && GoodVips(vips) && MeetsTargets(result, quotas)
    requires ShrinkInvariant(quotas, vips, result, table, services, policies, datas) && Progress(cleanings, policies, table)
    requires !Settled(quotas, vips, services, policies, datas)
    requires ScaleStep(base, sorted, map[], result, ReadSizes(datas, vips), branch, planned, services, policies, services', policies')
    requires outcome.Done? || datas' != datas ==> planned.Done? && datas'.Some? && PrintedFrom(datas'.value, order, policies', services', vips)
    ensures Advances(quotas, vips, result, table, cleanings, services, policies, datas,
                     cleanings + if Cleans(branch, planned) then 1 else 0, services', policies', datas', outcome)
  {
    DueKept(base, quotas, sorted, vips, result, branch, planned, cleanings, services, policies, datas, services', policies');
    if outcome.Done? || datas' != datas {
      CleanedSettles(quotas, vips, result, branch.list, services, policies, services', datas'.value, order);
    }
  }

  lemma {:induction false} SettledAdvances(base: string, quotas: seq<Quota>, sorted: seq<Quota>, vips: map<string, string>, result: seq<Topology>,
                                           table: map<string, set<string>>, branch: Branch, planned: Outcome, outcome: Outcome, order: seq<string>, cleanings: nat,
                                           services: map<string, nat>, policies: map<string, Policy>, datas: Option<string>,
                                           services': map<string, nat>, policies': map<string, Policy>, datas': Option<string>)
    requires DistinctClusters(quotas) && multiset(sorted) == multiset(quotas) && GoodVips(vips)
    requires ShrinkInvariant(quotas, vips, result, table, services, policies, datas) && Progress(cleanings, policies, table)
    requires Settled(quotas, vips, services, policies, datas)
    requires ScaleStep(base, sorted, map[], result, ReadSizes(datas, vips), branch, planned, services, policies, services', policies')
    requires datas' != datas ==> datas'.Some? && PrintedFrom(datas'.value, order, policies', services', vips)
    ensures !Cleans(branch, planned) && (branch.Growing? || branch.Untouched?)
    ensures branch.Growing? ==> forall j: nat :: Slot(branch.upsert, j) == []
    ensures Advances(quotas, vips, result, table, cleanings, services, policies, datas, cleanings, services', policies', datas', outcome)
  {
    SettledIsQuiet(base, quotas, sorted, vips, result, branch, planned, services, policies, datas, services', policies');
  }

  /** Both cases together. */
  lemma {:induction false} PassAdvances(base: string, quotas: seq<Quota>, sorted: seq<Quota>, vips: map<string, string>, result: seq<Topology>,
                                        table: map<string, set<string>>, branch: Branch, planned: Outcome, outcome: Outcome, order: seq<string>, cleanings: nat,
                                        services: map<string, nat>, policies: map<string, Policy>, datas: Option<string>,
                                        services': map<string, nat>, policies': map<string, Policy>, datas': Option<string>)
    requires DistinctClusters(quotas) && multiset(sorted) == multiset(quotas) && GoodVips(vips) && MeetsTargets(result, quotas)
    requires ShrinkInvariant(quotas, vips, result, table, services, policies, datas) && Progress(cleanings, policies, table)
    requires ScaleStep(base, sorted, map[], result, ReadSizes(datas, vips), branch, planned, services, policies, services', policies')
    requires outcome.Done? || datas' != datas ==> planned.Done? && datas'.Some? && PrintedFrom(datas'.value, order, policies', services', vips)
    ensures Settled(quotas, vips, services, policies, datas) ==>
              (branch.Growing? && forall j: nat :: Slot(branch.upsert, j) == []) || branch.Untouched?
    ensures Advances(quotas, vips, result, table, cleanings, services, policies, datas,
                     cleanings + if Cleans(branch, planned) then 1 else 0, services', policies', datas', outcome)
  {
    if Settled(quotas, vips, services, policies, datas) {
      SettledAdvances(base, quotas, sorted, vips, result, table, branch, planned, outcome, order, cleanings,
                      services, policies, datas, services', policies', datas');
    } else {
      DueAdvances(base, quotas, sorted, vips, result, table, branch, planned, outcome, order, cleanings,
                  services, policies, datas, services', policies', datas');
    }
  }

  // ---------------------------------------------------------------- how many passes can end without success

  /** The policies that lose all of their clusters. */
  ghost function LostSet(policies: map<string, Policy>, table: map<string, set<string>>): set<string> {
    set name | name in policies && IsLost(policies[name], table)
  }

  /** How many more passes can end without success although no call fails: before the first complete cleaning one for
      every policy that loses all of its clusters, afterwards none. */
  ghost function Left(cleanings: nat, policies: map<string, Policy>, table: map<string, set<string>>): nat {
    if cleanings == 0 then |LostSet(policies, table)| else 0
  }

  /** No exit of a cleaning adds a lost policy, and a refused write removes one. */
  lemma {:induction false} LostShrinks(policies: map<string, Policy>, policies': map<string, Policy>, table: map<string, set<string>>)
    requires PartlyCleaned(policies, policies', table)
    ensures LostSet(policies', table) <= LostSet(policies, table)
    ensures |LostSet(policies', table)| <= |LostSet(policies, table)|
    ensures Refused(policies, policies', table) ==> |LostSet(policies', table)| < |LostSet(policies, table)|
  {
    var before, now := LostSet(policies, table), LostSet(policies', table);
    forall name | name in now
      ensures name in before
    {
      KeptTwice(policies[name], table);
    }
    SubsetSize(now, before);
    if name :| name in policies && name !in policies' && IsLost(policies[name], table) {
      SubsetSize(now, before - {name});
    }
  }

  /** While a scale-down is due and no call fails, the planner cleans completely or a policy is refused. */
  lemma {:induction false} DueGoesThrough(base: string, quotas: seq<Quota>, sorted: seq<Quota>, vips: map<string, string>, result: seq<Topology>,
                                          branch: Branch, planned: Outcome, services: map<string, nat>, policies: map<string, Policy>, datas: Option<string>,
                                          services': map<string, nat>, policies': map<string, Policy>)
    requires DistinctClusters(quotas) && multiset(sorted) == multiset(quotas) && GoodVips(vips)
    requires Due(quotas, vips, result, datas) && Shrinkable(result, vips, services, policies)
    requires ScaleStep(base, sorted, map[], result, ReadSizes(datas, vips), branch, planned, services, policies, services', policies')
    requires Unhindered(sorted, result, ReadSizes(datas, vips), branch, planned, policies, policies')
    ensures planned.Done? || Refused(policies, policies', LiveTable(result, services, vips))
  {
    DueIsCleaned(base, quotas, sorted, vips, result, branch, planned, services, policies, datas, services', policies');
    var list := branch.list;
    TableIsLive(result, list, services, policies, vips);
    forall t | t in result
      ensures Resolvable(t, list)
    {
      LiveOfReported(t, result, list, services, policies, vips);
    }
  }

  /** What a complete cleaning leaves can be printed unless a policy lost all of its clusters. */
  lemma {:induction false} CleanedPrintable(result: seq<Topology>, vips: map<string, string>, services: map<string, nat>, policies: map<string, Policy>)
    requires Shrinkable(result, vips, services, CleanedAll(policies, LiveTable(result, services, vips)))
    requires LostSet(policies, LiveTable(result, services, vips)) == {}
    ensures forall name :: name in CleanedAll(policies, LiveTable(result, services, vips)) ==>
                             Printable(CleanedAll(policies, LiveTable(result, services, vips))[name], services)
  {
    var table := LiveTable(result, services, vips);
    var cleaned := CleanedAll(policies, table);
    forall name | name in cleaned
      ensures cleaned[name].clusters == Kept(cleaned[name], table) != []
    {
      KeptTwice(policies[name], table);
      assert name !in LostSet(policies, table);
    }
    NoneEmptyPrintable(result, vips, services, cleaned);
  }

  /** A pass while the scale-down is due, in which no call fails: what is left to be printed can be printed, or one of
      the passes that may end without success is used up. */
  lemma {:induction false} DueSpends(base: string, quotas: seq<Quota>, sorted: seq<Quota>, vips: map<string, string>, result: seq<Topology>,
                                     branch: Branch, planned: Outcome, cleanings: nat, services: map<string, nat>, policies: map<string, Policy>, datas: Option<string>,
                                     services': map<string, nat>, policies': map<string, Policy>)
    requires DistinctClusters(quotas) && multiset(sorted) == multiset(quotas) && GoodVips(vips)
    requires Due(quotas, vips, result, datas) && Shrinkable(result, vips, services, policies)
    requires Progress(cleanings, policies, LiveTable(result, services, vips))
    requires ScaleStep(base, sorted, map[], result, ReadSizes(datas, vips), branch, planned, services, policies, services', policies')
    ensures var table, cleanings' := LiveTable(result, services, vips), cleanings + if Cleans(branch, planned) then 1 else 0;
            && Left(cleanings', policies', table) <= Left(cleanings, policies, table)
            && (Unhindered(sorted, result, ReadSizes(datas, vips), branch, planned, policies, policies') ==>
                  || (planned.Done? && forall name :: name in policies' ==> Printable(policies'[name], services'))
                  || Left(cleanings', policies', table) < Left(cleanings, policies, table))
  {
    var table := LiveTable(result, services, vips);
    DueIsCleaned(base, quotas, sorted, vips, result, branch, planned, services, policies, datas, services', policies');
    DueKept(base, quotas, sorted, vips, result, branch, planned, cleanings, services, policies, datas, services', policies');
    LostShrinks(policies, policies', table);
    if Unhindered(sorted, result, ReadSizes(datas, vips), branch, planned, policies, policies') {
      DueGoesThrough(base, quotas, sorted, vips, result, branch, planned, services, policies, datas, services', policies');
      if planned.Done? && cleanings > 0 {
        NoneEmptyPrintable(result, vips, services', policies');
      } else if planned.Done? && LostSet(policies, table) == {} {
        CleanedPrintable(result, vips, services', policies);
      }
    }
  }

  /** A pass in a settled state, in which no call fails, succeeds. */
  lemma {:induction false} SettledSucceeds(base: string, quotas: seq<Quota>, sorted: seq<Quota>, vips: map<string, string>, result: seq<Topology>,
                                           branch: Branch, planned: Outcome, services: map<string, nat>, policies: map<string, Policy>, datas: Option<string>,
                                           services': map<string, nat>, policies': map<string, Policy>)
    requires DistinctClusters(quotas) && multiset(sorted) == multiset(quotas) && GoodVips(vips) && quotas != []
    requires Settled(quotas, vips, services, policies, datas)
    requires ScaleStep(base, sorted, map[], result, ReadSizes(datas, vips), branch, planned, services, policies, services', policies')
    requires Unhindered(sorted, result, ReadSizes(datas, vips), branch, planned, policies, policies')
    ensures planned.Done? && forall name :: name in policies' ==> Printable(policies'[name], services')
  {
    SettledIsQuiet(base, quotas, sorted, vips, result, branch, planned, services, policies, datas, services', policies');
    var order :| PrintedFrom(datas.value, order, policies, services, vips);
    ReadBack(datas.value, order, policies, services, vips);
    assert quotas[0] in multiset(quotas);
  }

  /** A pass either lets the printer succeed, or loses a call, or uses up one of the passes that may end without success. */
  ghost predicate Spends(table: map<string, set<string>>, cleanings: nat, policies: map<string, Policy>,
                         cleanings': nat, policies': map<string, Policy>, lost: bool, outcome: Outcome) {
    && Left(cleanings', policies', table) <= Left(cleanings, policies, table)
    && (lost || outcome.Done? || Left(cleanings', policies', table) < Left(cleanings, policies, table))
  }

  /** All of this for one pass, due or settled. */
  lemma {:induction false} PassSpends(base: string, quotas: seq<Quota>, sorted: seq<Quota>, vips: map<string, string>, result: seq<Topology>,
                                      table: map<string, set<string>>, branch: Branch, planned: Outcome, outcome: Outcome, lost: bool, cleanings: nat,
                                      services: map<string, nat>, policies: map<string, Policy>, datas: Option<string>,
                                      services': map<string, nat>, policies': map<string, Policy>)
    requires DistinctClusters(quotas) && multiset(sorted) == multiset(quotas) && GoodVips(vips) && quotas != []
    requires ShrinkInvariant(quotas, vips, result, table, services, policies, datas) && Progress(cleanings, policies, table)
    requires ScaleStep(base, sorted, map[], result, ReadSizes(datas, vips), branch, planned, services, policies, services', policies')
    requires !lost ==> Unhindered(sorted, result, ReadSizes(datas, vips), branch, planned, policies, policies')
    requires !lost && planned.Done? && sorted != [] ==>
               (outcome.Done? <==> forall name :: name in policies' ==> Printable(policies'[name], services'))
    ensures Spends(table, cleanings, policies, cleanings + if Cleans(branch, planned) then 1 else 0, policies', lost, outcome)
  {
    assert quotas[0] in multiset(sorted);
    if Settled(quotas, vips, services, policies, datas) {
      SettledIsQuiet(base, quotas, sorted, vips, result, branch, planned, services, policies, datas, services', policies');
      if !lost {
        SettledSucceeds(base, quotas, sorted, vips, result, branch, planned, services, policies, datas, services', policies');
      }
    } else {
      DueSpends(base, quotas, sorted, vips, result, branch, planned, cleanings, services, policies, datas, services', policies');
    }
  }

  /** One pass of a scale-down, with any failures. It loses no live service; once settled it writes no service and no
      policy; a pass that succeeds settles; and a pass without success lost a call or used up one of those `Left`. */
  method ShrinkPass(cp: ControlPlane, quotas: seq<Quota>, vips: map<string, string>, arbiter: bool, result: seq<Topology>,
                    ghost table: map<string, set<string>>, ghost cleanings: nat)
    returns (outcome: Outcome, ghost cleanings': nat)
    requires DistinctClusters(quotas) && GoodVips(vips) && MeetsTargets(result, quotas)
    requires ShrinkInvariant(quotas, vips, result, table, cp.services, cp.policies, cp.Datas()) && Progress(cleanings, cp.policies, table)
    modifies cp
    ensures Advances(quotas, vips, result, table, cleanings, old(cp.services), old(cp.policies), old(cp.Datas()),
                     cleanings', cp.services, cp.policies, cp.Datas(), outcome)
    ensures Settled(quotas, vips, old(cp.services), old(cp.policies), old(cp.Datas())) ==> cp.writes == old(cp.writes)
    ensures cp.failures >= old(cp.failures)
    ensures quotas != [] ==> Spends(table, cleanings, old(cp.policies), cleanings', cp.policies, cp.failures > old(cp.failures), outcome)
  {
    var p := new Params(quotas, vips, arbiter);
    ghost var services, policies, datas := cp.services, cp.policies, cp.Datas();
    ghost var planned, branch, order, sorted;
    outcome, planned, branch, order, sorted := Pass(cp, p, result);
    cleanings' := cleanings + if Cleans(branch, planned) then 1 else 0;
    PassAdvances(cp.base, quotas, sorted, vips, result, table, branch, planned, outcome, order, cleanings,
                 services, policies, datas, cp.services, cp.policies, cp.Datas());
    if quotas != [] {
      PassSpends(cp.base, quotas, sorted, vips, result, table, branch, planned, outcome, cp.failures > old(cp.failures), cleanings,
                 services, policies, datas, cp.services, cp.policies);
    }
  }

  /** Any number of passes of a scale-down, with any failures: every exit leaves a state to go on from, with every live
      service; after two complete cleanings every policy can be printed; once some pass has succeeded the ConfigMap
      shows the targets and every later pass leaves all services and policies alone; and more passes than calls that
      fail and policies that lose all of their clusters are enough for success. */
  method ShrinkRun(cp: ControlPlane, quotas: seq<Quota>, vips: map<string, string>, arbiter: bool, result: seq<Topology>, passes: nat)
    returns (succeeded: bool, ghost cleanings: nat)
    requires DistinctClusters(quotas) && GoodVips(vips) && MeetsTargets(result, quotas)
    requires Shrinkable(result, vips, cp.services, cp.policies) && Due(quotas, vips, result, cp.Datas())
    modifies cp
    ensures Shrinkable(result, vips, cp.services, cp.policies)
    ensures forall s :: LiveSomewhere(LiveTable(result, old(cp.services), vips), s) ==> s in cp.services
    ensures cleanings >= 2 ==> forall name :: name in cp.policies ==> Printable(cp.policies[name], cp.services)
    ensures succeeded ==> Settled(quotas, vips, cp.services, cp.policies, cp.Datas())
    ensures passes > cp.failures - old(cp.failures) + |LostSet(old(cp.policies), LiveTable(result, old(cp.services), vips))| ==> succeeded
  {
    succeeded, cleanings := false, 0;
    ghost var table := LiveTable(result, cp.services, vips);
    var i := 0;
    while i < passes
      invariant ShrinkInvariant(quotas, vips, result, table, cp.services, cp.policies, cp.Datas()) && Progress(cleanings, cp.policies, table)
      invariant succeeded ==> Settled(quotas, vips, cp.services, cp.policies, cp.Datas())
      invariant !succeeded ==> i + Left(cleanings, cp.policies, table) <= cp.failures - old(cp.failures) + |LostSet(old(cp.policies), table)|
    {
      var outcome;
      outcome, cleanings := ShrinkPass(cp, quotas, vips, arbiter, result, table, cleanings);
      succeeded := succeeded || outcome.Done?;
      i := i + 1;
    }
    if cleanings >= 2 {
      NoneEmptyPrintable(result, vips, cp.services, cp.policies);
    }
  }
}
