/** Whole reconcile passes of the control plane, each of whose API calls may fail, and what any number of them reach. */
module Passes {
  import opened Outcomes
  import opened Text
  import opened HostConf
  import opened Placement
  import opened Cleaner
  import opened Convergence
  import opened ScaleDown
  import opened Federation

  /** What a pass does, handler by handler: the planner, then the arbiter's handler if the planner succeeded, then the
      printer if that succeeded too. `sorted` is the scheduler result as the planner leaves it. */
  method Pass(cp: ControlPlane, p: Params, result: seq<Topology>)
    returns (outcome: Outcome, ghost planned: Outcome, ghost branch: Branch, ghost order: seq<string>, ghost sorted: seq<Quota>)
    modifies cp, p
    ensures Descending(sorted) && multiset(sorted) == multiset(old(p.quotas))
    ensures ScaleStep(cp.base, sorted, p.serviceNames, result, ReadSizes(old(cp.Datas()), p.vips), branch, planned,
                      old(cp.services), old(cp.policies), cp.services, cp.policies)
    ensures branch.Growing? && (forall j: nat :: Slot(branch.upsert, j) == []) ==> cp.writes == old(cp.writes)
    ensures branch.Untouched? || branch.Waiting? ==> cp.writes == old(cp.writes)
    ensures outcome.Done? || cp.Datas() != old(cp.Datas()) ==> planned.Done?
    ensures outcome.Done? || cp.Datas() != old(cp.Datas()) ==>
              cp.Datas().Some? && PrintedFrom(cp.Datas().value, order, cp.policies, cp.services, p.vips)
    ensures outcome.Done? ==> ArbiterPrinted(cp, sorted, p.vips, p.arbiter)
    ensures outcome.Done? ==> cp.confClusters == Some(old(p.active) + ActiveClusters(sorted))
    ensures cp.failures >= old(cp.failures) && (old(cp.PortsApart()) ==> cp.PortsApart())
    ensures cp.failures == old(cp.failures) ==>
              && Unhindered(sorted, result, ReadSizes(old(cp.Datas()), p.vips), branch, planned, old(cp.policies), cp.policies)
              && (planned.Done? && sorted != [] ==>
                    (outcome.Done? <==> forall name :: name in cp.policies ==> Printable(cp.policies[name], cp.services)))
  {
    order := [];
    outcome, branch := cp.ClusterScale(p, result);
    sorted, planned := p.quotas, outcome;
    if outcome.Done? {
      outcome, order := AfterPlanner(cp, p);
    }
  }

  /** The handlers behind the planner. */
  method AfterPlanner(cp: ControlPlane, p: Params) returns (outcome: Outcome, ghost order: seq<string>)
    modifies cp`failures, cp`arbiterPort, cp`arbiterCluster, cp`hostConf, cp`confClusters, p`quotas
    ensures outcome.Done? || cp.Datas() != old(cp.Datas()) ==>
              cp.Datas().Some? && PrintedFrom(cp.Datas().value, order, cp.policies, cp.services, p.vips)
    ensures outcome.Done? ==> ArbiterPrinted(cp, old(p.quotas), p.vips, p.arbiter) && cp.confClusters == Some(p.active)
    ensures cp.failures >= old(cp.failures) && (old(cp.PortsApart()) ==> cp.PortsApart())
    ensures cp.failures == old(cp.failures) && old(p.quotas) != [] ==>
              (outcome.Done? <==> forall name :: name in cp.policies ==> Printable(cp.policies[name], cp.services))
  {
    order := [];
    outcome := cp.UpsertArbiter(p);
    if outcome.Done? {
      outcome, order := cp.HostConfigMap(p);
    }
  }

  /** The arbiter's service, its policy and its line in the ConfigMap agree: all name the cluster that is the last one
      marked once the first entry is, and nothing is left of them without an arbiter. */
  ghost predicate ArbiterPrinted(cp: ControlPlane, sorted: seq<Quota>, vips: map<string, string>, arbiter: bool)
    reads cp
  {
    && cp.hostConf.Some?
    && if arbiter then
         && sorted != [] && cp.arbiterPort.Some?
         && cp.arbiterCluster == Some(ArbiterCluster(MarkFirst(sorted)))
         && cp.hostConf.value.arbiters == PrintHosts([Endpoint(Vip(vips, ArbiterCluster(MarkFirst(sorted))), cp.arbiterPort.value)])
       else
         cp.arbiterPort == None && cp.arbiterCluster == None && cp.hostConf.value.arbiters == ""
  }

  // ---------------------------------------------------------------- creation

  /** A schedule that can be placed: distinct clusters, no negative count, something to place, and a distinct
      virtual IP for every cluster that gets replicas. */
  ghost predicate GoodSchedule(quotas: seq<Quota>, vips: map<string, string>) {
    && DistinctClusters(quotas) && NonNegative(quotas) && Height(quotas) > 0
    && GoodVips(vips) && forall q :: q in quotas && q.replicas > 0 ==> q.cluster in vips
  }

  /** Until the ConfigMap exists every policy present is exact; from then on the placement is complete and exact
      and the ConfigMap was printed from it. */
  ghost predicate Creating(base: string, quotas: seq<Quota>, vips: map<string, string>,
                           services: map<string, nat>, policies: map<string, Policy>, datas: Option<string>) {
    && DistinctNodePorts(services)
    && PartlyPlaced(base, quotas, policies)
    && (datas.Some? ==>
          && ExactlyPlaced(base, quotas, policies)
          && exists order :: PrintedFrom(datas.value, order, policies, services, vips))
  }

  lemma {:induction false} SortedSchedule(quotas: seq<Quota>, sorted: seq<Quota>, vips: map<string, string>)
    requires GoodSchedule(quotas, vips)
    requires Descending(sorted) && multiset(sorted) == multiset(quotas)
    ensures GoodSchedule(sorted, vips) && Height(sorted) == Height(quotas)
    ensures sorted != [] && sorted[0].replicas == Height(sorted)
    ensures forall j :: ClustersAbove(sorted, j) == ClustersAbove(quotas, j)
  {
    SameMultisetSameMembers(sorted, quotas);
    PermutedDistinct(quotas, sorted);
    var q :| q in sorted && q.replicas == Height(sorted);
    assert sorted[0] in sorted;
  }

  lemma SortedPlacement(base: string, quotas: seq<Quota>, sorted: seq<Quota>, policies: map<string, Policy>)
    requires Height(sorted) == Height(quotas)
    requires forall j :: ClustersAbove(sorted, j) == ClustersAbove(quotas, j)
    ensures PartlyPlaced(base, sorted, policies) <==> PartlyPlaced(base, quotas, policies)
    ensures ExactlyPlaced(base, sorted, policies) <==> ExactlyPlaced(base, quotas, policies)
  {
    forall j: nat | PolicyName(base, j) in policies
      ensures IsExactPolicy(base, sorted, policies[PolicyName(base, j)], j) <==> IsExactPolicy(base, quotas, policies[PolicyName(base, j)], j)
    {
      assert ClustersAbove(sorted, j) == ClustersAbove(quotas, j);
    }
  }

  lemma {:induction false} NothingShrinksWithoutConf(quotas: seq<Quota>)
    ensures DownTargets(quotas, None) == map[]
  {
    if quotas == [] {
    } else {
      NothingShrinksWithoutConf(quotas[..|quotas| - 1]);
    }
  }

  lemma {:induction false} EmptyPlanWritesNothing(base: string, before: map<string, Policy>, upsert: map<int, seq<string>>, n: nat)
    requires forall j: nat :: Slot(upsert, j) == []
    ensures WrittenPolicies(base, before, upsert, n) == before
  {
    if n == 0 {
    } else {
      EmptyPlanWritesNothing(base, before, upsert, n - 1);
    }
  }

  lemma NoGrowthNoPlan(base: string, serviceNames: map<string, seq<string>>, upsert: map<int, seq<string>>)
    requires IsPlan(base, map[], serviceNames, upsert)
    ensures forall j: nat :: Slot(upsert, j) == []
  {
    forall j: nat
      ensures Slot(upsert, j) == []
    {
      assert Enumerates(Slot(upsert, j), PlannedFor(base, map[], serviceNames, j));
      assert PlannedFor(base, map[], serviceNames, j) == {};
      EnumeratesSize(Slot(upsert, j), {});
    }
  }

  /** With nothing to grow and nothing to shrink, the planner changes nothing. */
  lemma QuietStep(base: string, quotas: seq<Quota>, serviceNames: map<string, seq<string>>, result: seq<Topology>,
                  read: Option<Option<map<string, int>>>, branch: Branch, outcome: Outcome,
                  services: map<string, nat>, policies: map<string, Policy>, services': map<string, nat>, policies': map<string, Policy>)
    requires ScaleStep(base, quotas, serviceNames, result, read, branch, outcome, services, policies, services', policies')
    requires read.Some? ==> UpTargets(quotas, read.value) == map[] && DownTargets(quotas, read.value) == map[]
    ensures services' == services && policies' == policies
    ensures branch.Growing? ==> forall j: nat :: Slot(branch.upsert, j) == []
  {
    if branch.Growing? {
      NoGrowthNoPlan(base, serviceNames, branch.upsert);
      EmptyPlanWritesNothing(base, policies, branch.upsert, branch.written);
      assert services' == services;
    }
  }

  /** Without a ConfigMap, the planner adds exact policies, and all of them when it succeeds. */
  lemma CreatingStep(base: string, quotas: seq<Quota>, result: seq<Topology>, branch: Branch, outcome: Outcome,
                     services: map<string, nat>, policies: map<string, Policy>, services': map<string, nat>, policies': map<string, Policy>)
    requires DistinctClusters(quotas) && quotas != [] && quotas[0].replicas == Height(quotas)
    requires ScaleStep(base, quotas, map[], result, Some(None), branch, outcome, services, policies, services', policies')
    requires PartlyPlaced(base, quotas, policies) && DistinctNodePorts(services)
    ensures PartlyPlaced(base, quotas, policies') && DistinctNodePorts(services')
    ensures outcome.Done? ==> ExactlyPlaced(base, quotas, policies')
  {
    NothingShrinksWithoutConf(quotas);
    if branch.Growing? {
      WritingKeepsExact(base, quotas, None, policies, branch.upsert, branch.written);
      if outcome.Done? {
        WrittenIsExact(base, quotas, None, policies, branch.upsert);
      }
    }
  }

  /** One pass keeps the creation invariant, whatever fails in it. */
  lemma CreatingKept(base: string, quotas: seq<Quota>, sorted: seq<Quota>, vips: map<string, string>, result: seq<Topology>,
                     branch: Branch, planned: Outcome, order: seq<string>,
                     services: map<string, nat>, policies: map<string, Policy>, datas: Option<string>,
                     services': map<string, nat>, policies': map<string, Policy>, datas': Option<string>)
    requires GoodSchedule(quotas, vips) && Creating(base, quotas, vips, services, policies, datas)
    requires Descending(sorted) && multiset(sorted) == multiset(quotas)
    requires ScaleStep(base, sorted, map[], result, ReadSizes(datas, vips), branch, planned,
                       services, policies, services', policies')
    requires datas' != datas ==> planned.Done? && datas'.Some? && PrintedFrom(datas'.value, order, policies', services', vips)
    ensures Creating(base, quotas, vips, services', policies', datas')
    ensures datas.Some? ==> services' == services && policies' == policies
    ensures datas.Some? && branch.Growing? ==> forall j: nat :: Slot(branch.upsert, j) == []
    ensures datas.Some? ==> branch.Growing? || branch.Untouched?
  {
    SortedSchedule(quotas, sorted, vips);
    SortedPlacement(base, quotas, sorted, policies);
    SortedPlacement(base, quotas, sorted, policies');
    if datas.Some? {
      var before :| PrintedFrom(datas.value, before, policies, services, vips);
      ExactIsQuiet(base, sorted, policies, services, vips, before, datas.value);
      QuietStep(base, sorted, map[], result, ReadSizes(datas, vips), branch, planned, services, policies, services', policies');
    } else {
      CreatingStep(base, sorted, result, branch, planned, services, policies, services', policies');
    }
  }

  lemma {:induction false} PlacedPrintable(base: string, quotas: seq<Quota>, policies: map<string, Policy>, services: map<string, nat>)
    requires ExactlyPlaced(base, quotas, policies)
    requires forall j: nat :: j < Height(quotas) ==> ServiceName(base, j) in services
    ensures forall name :: name in policies ==> Printable(policies[name], services)
  {
    forall name | name in policies
      ensures Printable(policies[name], services)
    {
      var j := NumberOfPolicy(base, Height(quotas), name);
      assert IsExactPolicy(base, quotas, policies[PolicyName(base, j)], j);
    }
  }

  /** Without a ConfigMap and without a failing call the planner succeeds, and all it placed can be printed. */
  lemma {:induction false} CreatingPrints(base: string, quotas: seq<Quota>, result: seq<Topology>, branch: Branch, planned: Outcome,
                                          services: map<string, nat>, policies: map<string, Policy>, services': map<string, nat>, policies': map<string, Policy>)
    requires DistinctClusters(quotas) && quotas != [] && quotas[0].replicas == Height(quotas)
    requires ScaleStep(base, quotas, map[], result, Some(None), branch, planned, services, policies, services', policies')
    requires PartlyPlaced(base, quotas, policies) && DistinctNodePorts(services)
    requires Unhindered(quotas, result, Some(None), branch, planned, policies, policies')
    ensures planned.Done? && forall name :: name in policies' ==> Printable(policies'[name], services')
  {
    NothingShrinksWithoutConf(quotas);
    assert branch.Growing?;
    CreatingStep(base, quotas, result, branch, planned, services, policies, services', policies');
    forall j: nat | j < Height(quotas)
      ensures ServiceName(base, j) in services'
    {
      PlanOfGrowth(base, quotas, None, branch.upsert, j);
    }
    PlacedPrintable(base, quotas, policies', services');
  }

  /** A pass of a creation in which no call fails places and can print everything. */
  lemma {:induction false} CreatingSucceeds(base: string, quotas: seq<Quota>, sorted: seq<Quota>, vips: map<string, string>, result: seq<Topology>,
                                            branch: Branch, planned: Outcome, services: map<string, nat>, policies: map<string, Policy>, datas: Option<string>,
                                            services': map<string, nat>, policies': map<string, Policy>)
    requires GoodSchedule(quotas, vips) && Creating(base, quotas, vips, services, policies, datas)
    requires Descending(sorted) && multiset(sorted) == multiset(quotas)
    requires ScaleStep(base, sorted, map[], result, ReadSizes(datas, vips), branch, planned, services, policies, services', policies')
    requires Unhindered(sorted, result, ReadSizes(datas, vips), branch, planned, policies, policies')
    ensures sorted != [] && planned.Done? && forall name :: name in policies' ==> Printable(policies'[name], services')
  {
    SortedSchedule(quotas, sorted, vips);
    SortedPlacement(base, quotas, sorted, policies);
    if datas.Some? {
      var before :| PrintedFrom(datas.value, before, policies, services, vips);
      ExactIsQuiet(base, sorted, policies, services, vips, before, datas.value);
      QuietStep(base, sorted, map[], result, ReadSizes(datas, vips), branch, planned, services, policies, services', policies');
    } else {
      CreatingPrints(base, sorted, result, branch, planned, services, policies, services', policies');
    }
  }

  /** One pass of a creation, with any failures: before the ConfigMap exists it only adds exact policies; afterwards
      it writes no service and no policy at all. A pass that succeeds leaves the ConfigMap, and a pass in which no call
      fails succeeds. */
  method CreationPass(cp: ControlPlane, quotas: seq<Quota>, vips: map<string, string>, arbiter: bool, result: seq<Topology>)
    returns (outcome: Outcome, ghost sorted: seq<Quota>)
    requires GoodSchedule(quotas, vips)
    requires Creating(cp.base, quotas, vips, cp.services, cp.policies, cp.Datas())
    modifies cp
    ensures Creating(cp.base, quotas, vips, cp.services, cp.policies, cp.Datas())
    ensures outcome.Done? || old(cp.hostConf).Some? ==> cp.hostConf.Some?
    ensures old(cp.hostConf).Some? ==> cp.services == old(cp.services) && cp.policies == old(cp.policies) && cp.writes == old(cp.writes)
    ensures cp.failures >= old(cp.failures) && (cp.failures == old(cp.failures) ==> outcome.Done?)
    ensures old(cp.PortsApart()) ==> cp.PortsApart()
    ensures outcome.Done? ==> ArbiterPrinted(cp, sorted, vips, arbiter)
  {
    var p := new Params(quotas, vips, arbiter);
    ghost var services, policies, datas := cp.services, cp.policies, cp.Datas();
    ghost var planned, branch, order;
    outcome, planned, branch, order, sorted := Pass(cp, p, result);
    CreatingKept(cp.base, quotas, sorted, vips, result, branch, planned, order,
                 services, policies, datas, cp.services, cp.policies, cp.Datas());
    if cp.failures == old(cp.failures) {
      CreatingSucceeds(cp.base, quotas, sorted, vips, result, branch, planned, services, policies, datas, cp.services, cp.policies);
    }
  }

  /** Any number of passes from nothing, with any failures and any reported status: the placement is never wrong, once
      some pass has succeeded every later pass leaves all services and policies alone, and without success every pass
      has lost a call: fewer failing calls than passes are enough for success. */
  method CreationRun(base: string, quotas: seq<Quota>, vips: map<string, string>, arbiter: bool, results: seq<seq<Topology>>)
    returns (cp: ControlPlane, succeeded: bool)
    requires GoodSchedule(quotas, vips)
    ensures cp.base == base && Creating(base, quotas, vips, cp.services, cp.policies, cp.Datas())
    ensures succeeded ==> cp.hostConf.Some? && ExactlyPlaced(base, quotas, cp.policies)
    ensures cp.failures < |results| ==> succeeded
    ensures cp.PortsApart()
  {
    cp := new ControlPlane(base);
    succeeded := false;
    var i := 0;
    while i < |results|
      invariant 0 <= i <= |results|
      invariant cp.base == base && Creating(base, quotas, vips, cp.services, cp.policies, cp.Datas())
      invariant succeeded ==> cp.hostConf.Some?
      invariant !succeeded ==> cp.failures >= i
      invariant cp.PortsApart()
    {
      ghost var settled := succeeded;
      ghost var services, policies, writes := cp.services, cp.policies, cp.writes;
      var outcome;
      ghost var sorted;
      outcome, sorted := CreationPass(cp, quotas, vips, arbiter, results[i]);
      assert settled ==> cp.services == services && cp.policies == policies && cp.writes == writes;
      succeeded := succeeded || outcome.Done?;
      i := i + 1;
    }
  }
}
