/** The control plane of one instance: its services, service policies and host ConfigMap as stored by the API server,
    and the handlers that read and write them. Every call to the API server may fail. */
module Federation {
  import opened Outcomes
  import opened Text
  import opened HostConf
  import opened Placement
  import opened Cleaner
  import opened Convergence
  import opened ScaleDown

  /** The two keys of the host ConfigMap. */
  datatype HostData = HostData(arbiters: string, datas: string)

  /** The parameters one pass hands from handler to handler. */
  class Params {
    var quotas: seq<Quota>
    var active: seq<string>
    const vips: map<string, string>
    const serviceNames: map<string, seq<string>>
    const arbiter: bool

    /** The service names start empty and are filled only after the planner has run. */
    constructor (quotas: seq<Quota>, vips: map<string, string>, arbiter: bool)
      ensures this.quotas == quotas && this.vips == vips && this.arbiter == arbiter
      ensures active == [] && serviceNames == map[]
    {
      this.quotas, this.vips, this.arbiter := quotas, vips, arbiter;
      active, serviceNames := [], map[];
    }
  }

  /** A list of the stored services, in any order. */
  ghost predicate ListsServices(list: seq<Service>, services: map<string, nat>) {
    && (forall i, j :: 0 <= i < j < |list| ==> list[i].name != list[j].name)
    && (forall s :: s in list <==> s.name in services && s.nodePort == services[s.name])
  }

  ghost predicate DistinctNodePorts(services: map<string, nat>) {
    forall a, b :: a in services && b in services && services[a] == services[b] ==> a == b
  }

  /** Every reported cluster that is to shrink already reports its target. */
  predicate ReadyToShrink(result: seq<Topology>, down: map<string, int>) {
    forall t :: t in result && t.cluster in down ==> t.members == down[t.cluster]
  }

  /** Services are only added, each new one under a planned name and on a port that was free. */
  ghost predicate ServicesGrow(base: string, before: map<string, nat>, after: map<string, nat>, upsert: map<int, seq<string>>) {
    && (forall s :: s in before ==> s in after && after[s] == before[s])
    && (forall s :: s in after && s !in before ==> exists j: nat :: s == ServiceName(base, j) && Slot(upsert, j) != [])
    && (DistinctNodePorts(before) ==> DistinctNodePorts(after))
    && (forall s :: s in after && s !in before ==> after[s] <= INT32_MAX)
  }

  lemma ServicesGrowOne(base: string, before: map<string, nat>, now: map<string, nat>, upsert: map<int, seq<string>>, j: nat, port: nat)
    requires ServicesGrow(base, before, now, upsert) && Slot(upsert, j) != []
    requires ServiceName(base, j) !in now && port !in now.Values && port <= INT32_MAX
    ensures ServicesGrow(base, before, now[ServiceName(base, j) := port], upsert)
  {
    forall s | s in now
      ensures now[s] != port
    {
      assert now[s] in now.Values;
    }
  }

  /** Each policy that is left is as it was or lists what it keeps, and a policy that keeps a cluster is left. */
  ghost predicate PartlyCleaned(before: map<string, Policy>, now: map<string, Policy>, byCluster: map<string, set<string>>) {
    && (forall name :: name in now ==> name in before)
    && (forall name :: name in now ==> now[name] == before[name] || now[name] == before[name].(clusters := Kept(before[name], byCluster)))
    && (forall name :: name in before && Kept(before[name], byCluster) != [] ==> name in now)
  }

  /** The policy has clusters and keeps none of them. */
  predicate IsLost(policy: Policy, byCluster: map<string, set<string>>) {
    policy.clusters != [] && Kept(policy, byCluster) == []
  }

  /** Some policy that keeps no cluster was deleted, and writing it again was refused. */
  ghost predicate Refused(before: map<string, Policy>, now: map<string, Policy>, byCluster: map<string, set<string>>) {
    exists name :: name in before && name !in now && IsLost(before[name], byCluster)
  }

  /** What ScaleDownCleaner may do. A bad address stops it before anything is deleted; it never deletes a live service
      or a policy that keeps a cluster, at any exit; and when it succeeds the result is exact. */
  ghost predicate CleaningStep(services: map<string, nat>, policies: map<string, Policy>, services': map<string, nat>, policies': map<string, Policy>,
                               result: seq<Topology>, list: seq<Service>, outcome: Outcome) {
    var anywhere, byCluster := LiveAnywhere(result, list), LiveByCluster(result, list);
    && ((exists t :: t in result && !Resolvable(t, list)) ==> outcome != Done && services' == services && policies' == policies)
    && (outcome.Done? ==> services' == LiveServices(services, anywhere) && policies' == CleanedAll(policies, byCluster))
    && (forall s :: s in services' ==> s in services && services'[s] == services[s])
    && (forall s :: s in services && s in anywhere ==> s in services')
    && PartlyCleaned(policies, policies', byCluster)
  }

  /** How a cleaning without a failing call can end: with success, at an address that refers to no service, or at a
      policy that the API server refuses to create again. */
  ghost predicate GoesThrough(policies: map<string, Policy>, policies': map<string, Policy>, result: seq<Topology>, list: seq<Service>, outcome: Outcome) {
    || outcome.Done?
    || (exists t :: t in result && !Resolvable(t, list))
    || Refused(policies, policies', LiveByCluster(result, list))
  }

  lemma CleanedIsPartly(policies: map<string, Policy>, byCluster: map<string, set<string>>, done: set<string>)
    ensures PartlyCleaned(policies, Cleaned(policies, byCluster, done), byCluster)
  {
    forall name | name in policies
      ensures Kept(policies[name], byCluster) != [] ==> policies[name].clusters != []
    {
      KeptExact(policies[name], byCluster);
    }
  }

  /** The policies after one more policy of the write loop of ScaleDownCleaner. */
  function CleanedOne(now: map<string, Policy>, byCluster: map<string, set<string>>, name: string): map<string, Policy>
    requires name in now
  {
    if now[name].clusters == [] then now - {name} else now[name := now[name].(clusters := Kept(now[name], byCluster))]
  }

  lemma CleanedOneMore(policies: map<string, Policy>, byCluster: map<string, set<string>>, done: set<string>, name: string)
    requires name in policies && name !in done
    ensures name in Cleaned(policies, byCluster, done) && Cleaned(policies, byCluster, done)[name] == policies[name]
    ensures Cleaned(policies, byCluster, done + {name}) == CleanedOne(Cleaned(policies, byCluster, done), byCluster, name)
  {
  }

  /** What one call of ClusterScaleHandler did. */
  datatype Branch =
    | Untouched                                                    // stopped before any write
    | Waiting                                                      // members are still shrinking
    | Shrinking(list: seq<Service>)                                // cleaned up, from this list of services
    | Growing(upsert: map<int, seq<string>>, written: nat)         // wrote this much of this plan

  /** The effect of ClusterScaleHandler, branch by branch. `read` is what the host ConfigMap showed. */
  ghost predicate ScaleStep(base: string, quotas: seq<Quota>, serviceNames: map<string, seq<string>>, result: seq<Topology>,
                            read: Option<Option<map<string, int>>>, branch: Branch, outcome: Outcome,
                            services: map<string, nat>, policies: map<string, Policy>,
                            services': map<string, nat>, policies': map<string, Policy>) {
    match branch
    case Untouched =>
      outcome != Done && services' == services && policies' == policies
    case Waiting =>
      && read.Some? && DownTargets(quotas, read.value) != map[] && !ReadyToShrink(result, DownTargets(quotas, read.value))
      && outcome == Done && services' == services && policies' == policies
    case Shrinking(list) =>
      && read.Some? && DownTargets(quotas, read.value) != map[] && ReadyToShrink(result, DownTargets(quotas, read.value))
      && ListsServices(list, services) && CleaningStep(services, policies, services', policies', result, list, outcome)
    case Growing(upsert, written) =>
      && read.Some? && DownTargets(quotas, read.value) == map[]
      && IsPlan(base, UpTargets(quotas, read.value), serviceNames, upsert)
      && (if quotas == [] then outcome == Panicked && written == 0
          else written <= Max(0, quotas[0].replicas) && (outcome == Done ==> written == Max(0, quotas[0].replicas)))
      && policies' == WrittenPolicies(base, policies, upsert, written)
      && ServicesGrow(base, services, services', upsert)
      && (outcome == Done ==> forall j: nat :: j < written && Slot(upsert, j) != [] ==> ServiceName(base, j) in services')
  }

  /** How ClusterScaleHandler can end when no call fails. */
  ghost predicate Unhindered(quotas: seq<Quota>, result: seq<Topology>, read: Option<Option<map<string, int>>>, branch: Branch, outcome: Outcome,
                             policies: map<string, Policy>, policies': map<string, Policy>) {
    match branch
    case Untouched => read.None?
    case Waiting => outcome == Done
    case Shrinking(list) => GoesThrough(policies, policies', result, list, outcome)
    case Growing(_, _) => outcome == Done || quotas == []
  }

  /** Some cluster is to have fewer members than the ConfigMap shows. */
  ghost predicate SomeShrinks(quotas: seq<Quota>, sizes: map<string, int>) {
    exists q :: q in quotas && q.cluster in sizes && q.replicas < sizes[q.cluster]
  }

  /** Some such cluster reports another number of members than it is to have. */
  ghost predicate NotYetShrunk(quotas: seq<Quota>, sizes: map<string, int>, result: seq<Topology>) {
    exists q, t :: && q in quotas && q.cluster in sizes && q.replicas < sizes[q.cluster]
                   && t in result && t.cluster == q.cluster && t.members != q.replicas
  }

  /** Which branch is taken when the ConfigMap can be read and no call fails. */
  lemma {:induction false} BranchFollows(base: string, quotas: seq<Quota>, serviceNames: map<string, seq<string>>, result: seq<Topology>,
                                         sizes: map<string, int>, branch: Branch, outcome: Outcome,
                                         services: map<string, nat>, policies: map<string, Policy>,
                                         services': map<string, nat>, policies': map<string, Policy>)
    requires DistinctClusters(quotas)
    requires ScaleStep(base, quotas, serviceNames, result, Some(Some(sizes)), branch, outcome, services, policies, services', policies')
    requires Unhindered(quotas, result, Some(Some(sizes)), branch, outcome, policies, policies')
    ensures !SomeShrinks(quotas, sizes) ==> branch.Growing?
    ensures SomeShrinks(quotas, sizes) && !NotYetShrunk(quotas, sizes, result) ==> branch.Shrinking?
    ensures NotYetShrunk(quotas, sizes, result) ==> branch.Waiting? && outcome == Done && services' == services && policies' == policies
  {
    var down := DownTargets(quotas, Some(sizes));
    DownTargetsExact(quotas, Some(sizes));
    assert SomeShrinks(quotas, sizes) <==> down != map[] by {
      if down != map[] {
        var c :| c in down;
      }
    }
    if NotYetShrunk(quotas, sizes, result) {
      var q, t :| q in quotas && q.cluster in sizes && q.replicas < sizes[q.cluster]
                  && t in result && t.cluster == q.cluster && t.members != q.replicas;
      assert Shrinks(q, Some(sizes)) && q.cluster in down;
      assert !ReadyToShrink(result, down);
    }
  }

  class ControlPlane {
    const base: string
    var services: map<string, nat>
    var policies: map<string, Policy>
    var hostConf: Option<HostData>
    /** The clusters the host ConfigMap is propagated to. */
    var confClusters: Option<seq<string>>
    /** The arbiter's service, and the cluster its policy names. */
    var arbiterPort: Option<nat>
    var arbiterCluster: Option<string>
    /** How often a service or a service policy was written. */
    var writes: nat
    /** How many calls to the API server failed or lost their answer. */
    var failures: nat

    constructor (base: string)
      ensures this.base == base
      ensures services == map[] && policies == map[] && hostConf == None && arbiterPort == None && failures == 0
    {
      this.base := base;
      services, policies, hostConf, confClusters := map[], map[], None, None;
      arbiterPort, arbiterCluster, writes, failures := None, None, 0, 0;
    }

    /** The data text of the host ConfigMap, if there is one. */
    function Datas(): Option<string>
      reads this`hostConf
    {
      match hostConf
      case None => None
      case Some(data) => Some(data.datas)
    }

    /** The arbiter's service has a node port of its own. */
    ghost predicate PortsApart()
      reads this
    {
      arbiterPort.Some? ==> arbiterPort.value !in services.Values
    }

    // -------------------------------------------------------------- the API server

    method ListPolicies() returns (outcome: Outcome, order: seq<string>)
      modifies this`failures
      ensures outcome.Done? ==> Enumerates(order, policies.Keys)
      ensures outcome != Panicked && failures >= old(failures) && (outcome.Done? <==> failures == old(failures))
    {
      order := [];
      if * {
        failures := failures + 1;
        return Failed, [];
      }
      var todo := policies.Keys;
      while todo != {}
        invariant todo <= policies.Keys
        invariant Enumerates(order, policies.Keys - todo)
        decreases todo
      {
        var name :| name in todo;
        order, todo := order + [name], todo - {name};
      }
      assert policies.Keys - todo == policies.Keys;
      outcome := Done;
    }

    method ListServices() returns (outcome: Outcome, list: seq<Service>)
      modifies this`failures
      ensures outcome.Done? ==> ListsServices(list, services)
      ensures outcome != Panicked && failures >= old(failures) && (outcome.Done? <==> failures == old(failures))
    {
      list := [];
      if * {
        failures := failures + 1;
        return Failed, [];
      }
      var todo := services.Keys;
      while todo != {}
        invariant todo <= services.Keys
        invariant forall i, j :: 0 <= i < j < |list| ==> list[i].name != list[j].name
        invariant forall s :: s in list <==> s.name in services && s.name !in todo && s.nodePort == services[s.name]
        decreases todo
      {
        var name :| name in todo;
        list, todo := list + [Service(name, services[name])], todo - {name};
      }
      outcome := Done;
    }

    /** Ensure: creates the service unless it exists. The API server picks a free node port. */
    method EnsureService(name: string) returns (outcome: Outcome)
      modifies this`services, this`writes, this`failures
      ensures outcome != Panicked && failures >= old(failures) && (outcome.Done? <==> failures == old(failures))
      ensures outcome.Done? ==> name in services
      ensures || services == old(services)
              || (&& name !in old(services) && name in services && services == old(services)[name := services[name]]
                  && services[name] !in old(services).Values && arbiterPort != Some(services[name]) && services[name] <= INT32_MAX)
      ensures name in old(services) ==> writes == old(writes)
    {
      if * {
        failures := failures + 1;
        return Failed;
      }
      if name in services {
        return Done;
      }
      var port: nat := *;
      if port in services.Values || arbiterPort == Some(port) || port > INT32_MAX {
        failures := failures + 1;
        return Failed;
      }
      services, writes := services[name := port], writes + 1;
      if * {
        failures := failures + 1; // the answer was lost
        return Failed;
      }
      outcome := Done;
    }

    /** UpsertPPEnsure: creates the policy, or replaces it when it differs. */
    method UpsertPolicy(name: string, policy: Policy) returns (outcome: Outcome)
      modifies this`policies, this`writes, this`failures
      ensures outcome != Panicked && failures >= old(failures) && (outcome.Done? <==> failures == old(failures))
      ensures policies == old(policies) || policies == old(policies)[name := policy]
      ensures outcome.Done? ==> policies == old(policies)[name := policy]
      ensures name in old(policies) && old(policies)[name] == policy ==> writes == old(writes)
    {
      if * {
        failures := failures + 1;
        return Failed;
      }
      if name in policies && policies[name] == policy {
        return Done;
      }
      policies, writes := policies[name := policy], writes + 1;
      if * {
        failures := failures + 1;
        return Failed;
      }
      outcome := Done;
    }

    method DeletePolicy(name: string) returns (outcome: Outcome)
      modifies this`policies, this`writes, this`failures
      ensures outcome != Panicked && failures >= old(failures) && (outcome.Done? <==> failures == old(failures))
      ensures policies == old(policies) || policies == old(policies) - {name}
      ensures outcome.Done? ==> policies == old(policies) - {name}
    {
      if * {
        failures := failures + 1;
        return Failed;
      }
      policies, writes := policies - {name}, writes + 1;
      if * {
        failures := failures + 1;
        return Failed;
      }
      outcome := Done;
    }

    method DeleteService(name: string) returns (outcome: Outcome)
      modifies this`services, this`writes, this`failures
      ensures outcome != Panicked && failures >= old(failures) && (outcome.Done? <==> failures == old(failures))
      ensures services == old(services) || services == old(services) - {name}
      ensures outcome.Done? ==> services == old(services) - {name}
    {
      if * {
        failures := failures + 1;
        return Failed;
      }
      services, writes := services - {name}, writes + 1;
      if * {
        failures := failures + 1;
        return Failed;
      }
      outcome := Done;
    }

    // -------------------------------------------------------------- scaling down

    /** The loop that deletes every service no data address refers to. */
    method DeleteDeadServices(list: seq<Service>, anywhere: set<string>) returns (outcome: Outcome)
      requires ListsServices(list, services)
      modifies this`services, this`writes, this`failures
      ensures outcome != Panicked && failures >= old(failures) && (outcome.Done? <==> failures == old(failures))
      ensures outcome.Done? ==> services == LiveServices(old(services), anywhere)
      ensures forall s :: s in services ==> s in old(services) && services[s] == old(services)[s]
      ensures forall s :: s in old(services) && s in anywhere ==> s in services
    {
      var i := 0;
      while i < |list|
        invariant 0 <= i <= |list|
        invariant forall s :: s in services ==> s in old(services) && services[s] == old(services)[s]
        invariant forall s :: s in old(services) && s in anywhere ==> s in services
        invariant forall k :: 0 <= k < i && list[k].name !in anywhere ==> list[k].name !in services
        invariant failures == old(failures)
      {
        if list[i].name !in anywhere {
          outcome := DeleteService(list[i].name);
          if !outcome.Done? {
            return;
          }
        }
        i := i + 1;
      }
      forall s | s in services
        ensures s in anywhere
      {
        assert Service(s, old(services)[s]) in list;
      }
      outcome := Done;
    }

    /** One policy of the last loop of ScaleDownCleaner. After deleting the policy the code goes on to the update,
        which creates it again with an empty list; an API server may refuse that, as the object carries a resource version. */
    method CleanPolicy(name: string, byCluster: map<string, set<string>>) returns (outcome: Outcome)
      requires name in policies
      modifies this`policies, this`writes, this`failures
      ensures outcome != Panicked && failures >= old(failures) && (outcome.Done? ==> failures == old(failures))
      ensures outcome.Done? ==> policies == CleanedOne(old(policies), byCluster, name)
      ensures || policies == old(policies)
              || (policies == old(policies) - {name} && Kept(old(policies)[name], byCluster) == [])
              || policies == old(policies)[name := old(policies)[name].(clusters := Kept(old(policies)[name], byCluster))]
      ensures outcome == Failed && failures == old(failures) ==>
                policies == old(policies) - {name} && IsLost(old(policies)[name], byCluster)
    {
      var policy := policies[name];
      var kept := KeptClusters(policy, byCluster);
      outcome := Done;
      if kept == [] {
        outcome := DeletePolicy(name);
      }
      if outcome.Done? && policy.clusters != kept {
        if kept == [] {
          if * {
            return Failed;
          }
        }
        outcome := UpsertPolicy(name, policy.(clusters := kept));
      }
    }

    method WriteKept(order: seq<string>, byCluster: map<string, set<string>>) returns (outcome: Outcome)
      requires Enumerates(order, policies.Keys)
      modifies this`policies, this`writes, this`failures
      ensures outcome != Panicked && failures >= old(failures) && (outcome.Done? ==> failures == old(failures))
      ensures outcome.Done? ==> policies == CleanedAll(old(policies), byCluster)
      ensures PartlyCleaned(old(policies), policies, byCluster)
      ensures outcome == Failed && failures == old(failures) ==> Refused(old(policies), policies, byCluster)
    {
      ghost var before := policies;
      ghost var done: set<string> := {};
      var i := 0;
      assert Cleaned(before, byCluster, {}) == before;
      while i < |order|
        invariant 0 <= i <= |order|
        invariant forall name :: name in done <==> exists k :: 0 <= k < i && order[k] == name
        invariant policies == Cleaned(before, byCluster, done)
        invariant failures == old(failures)
      {
        CleanedIsPartly(before, byCluster, done);
        CleanedOneMore(before, byCluster, done, order[i]);
        outcome := CleanPolicy(order[i], byCluster);
        if !outcome.Done? {
          return;
        }
        done := done + {order[i]};
        i := i + 1;
      }
      assert done == before.Keys;
      CleanedIsPartly(before, byCluster, done);
      outcome := Done;
    }

    /** ScaleDownCleaner, with the two lists its caller fetches. */
    method ScaleDownCleaner(result: seq<Topology>) returns (outcome: Outcome, ghost listed: Option<seq<Service>>)
      modifies this`services, this`policies, this`writes, this`failures
      ensures listed.None? ==> outcome == Failed && services == old(services) && policies == old(policies) && writes == old(writes)
      ensures listed.Some? ==> ListsServices(listed.value, old(services))
      ensures failures >= old(failures) && (listed.None? ==> failures > old(failures))
      ensures listed.Some? && failures == old(failures) ==> GoesThrough(old(policies), policies, result, listed.value, outcome)
      ensures listed.Some? ==> CleaningStep(old(services), old(policies), services, policies, result, listed.value, outcome)
    {
      listed := None;
      var list, order;
      outcome, list := ListServices();
      if !outcome.Done? {
        return Failed, None;
      }
      outcome, order := ListPolicies();
      if !outcome.Done? {
        return Failed, None;
      }
      listed := Some(list);
      var anywhere, byCluster;
      outcome, anywhere, byCluster := CollectLive(result, list);
      if !outcome.Done? {
        return;
      }
      outcome := DeleteDeadServices(list, anywhere);
      if !outcome.Done? {
        return;
      }
      outcome := WriteKept(order, byCluster);
    }

    // -------------------------------------------------------------- scaling up

    /** One service number of the write loop: the service, then its policy. */
    method WriteService(j: nat, clusters: seq<string>) returns (outcome: Outcome)
      modifies this`services, this`policies, this`writes, this`failures
      ensures outcome != Panicked && failures >= old(failures) && (outcome.Done? <==> failures == old(failures))
      ensures old(PortsApart()) ==> PortsApart()
      ensures || services == old(services)
              || (&& ServiceName(base, j) !in old(services) && ServiceName(base, j) in services
                  && services == old(services)[ServiceName(base, j) := services[ServiceName(base, j)]]
                  && services[ServiceName(base, j)] !in old(services).Values && services[ServiceName(base, j)] <= INT32_MAX)
      ensures || policies == old(policies)
              || policies == old(policies)[PolicyName(base, j) := Policy([ServiceName(base, j)], clusters)]
      ensures outcome.Done? ==> ServiceName(base, j) in services
                                && policies == old(policies)[PolicyName(base, j) := Policy([ServiceName(base, j)], clusters)]
    {
      outcome := EnsureService(ServiceName(base, j));
      if outcome.Done? {
        outcome := UpsertPolicy(PolicyName(base, j), Policy([ServiceName(base, j)], clusters));
      }
    }

    /** The write loop of ClusterScaleHandler over the service numbers below `n`. */
    method WritePlan(upsert: map<int, seq<string>>, n: int) returns (outcome: Outcome, ghost written: nat)
      modifies this`services, this`policies, this`writes, this`failures
      ensures outcome != Panicked && failures >= old(failures) && (outcome.Done? <==> failures == old(failures))
      ensures old(PortsApart()) ==> PortsApart()
      ensures written <= Max(0, n) && (outcome.Done? ==> written == Max(0, n))
      ensures policies == WrittenPolicies(base, old(policies), upsert, written)
      ensures ServicesGrow(base, old(services), services, upsert)
      ensures outcome.Done? ==> forall j: nat :: j < written && Slot(upsert, j) != [] ==> ServiceName(base, j) in services
      ensures (forall j: nat :: Slot(upsert, j) == []) ==> writes == old(writes)
    {
      var i: nat := 0;
      while i < n
        invariant i <= Max(0, n)
        invariant policies == WrittenPolicies(base, old(policies), upsert, i)
        invariant ServicesGrow(base, old(services), services, upsert)
        invariant forall j: nat :: j < i && Slot(upsert, j) != [] ==> ServiceName(base, j) in services
        invariant (forall j: nat :: Slot(upsert, j) == []) ==> writes == old(writes)
        invariant failures == old(failures) && (old(PortsApart()) ==> PortsApart())
      {
        if Slot(upsert, i) != [] {
          ghost var services0, policies0 := services, policies;
          outcome := WriteService(i, Slot(upsert, i));
          if services != services0 {
            ServicesGrowOne(base, old(services), services0, upsert, i, services[ServiceName(base, i)]);
          }
          if !outcome.Done? {
            return outcome, if policies == policies0 then i else i + 1;
          }
        }
        i := i + 1;
      }
      outcome, written := Done, i;
    }

    /** What a pass reads from the host ConfigMap; None stands for a panic. */
    method ReadHostConf(vips: map<string, string>) returns (outcome: Outcome, sizes: Option<map<string, int>>)
      modifies this`failures
      ensures failures >= old(failures) && (outcome == Failed <==> failures > old(failures))
      ensures outcome.Done? ==> ReadSizes(Datas(), vips) == Some(sizes)
      ensures outcome.Panicked? <==> outcome != Failed && ReadSizes(Datas(), vips).None?
    {
      sizes := None;
      if * {
        failures := failures + 1;
        return Failed, None;
      }
      if hostConf.None? {
        return Done, None;
      }
      var found;
      outcome, found := CountHosts(hostConf.value.datas, vips);
      sizes := if outcome.Done? then Some(found) else None;
    }

    /** ClusterScaleHandler.Handle up to the call of the next handler. */
    method ClusterScale(p: Params, result: seq<Topology>) returns (outcome: Outcome, ghost branch: Branch)
      modifies this`services, this`policies, this`writes, this`failures, p
      ensures Descending(p.quotas) && multiset(p.quotas) == multiset(old(p.quotas))
      ensures p.active == old(p.active) + ActiveClusters(p.quotas)
      ensures ScaleStep(base, p.quotas, p.serviceNames, result, ReadSizes(Datas(), p.vips), branch, outcome,
                        old(services), old(policies), services, policies)
      ensures branch.Growing? && (forall j: nat :: Slot(branch.upsert, j) == []) ==> writes == old(writes)
      ensures branch.Untouched? || branch.Waiting? ==> writes == old(writes)
      ensures failures >= old(failures) && (old(PortsApart()) ==> PortsApart())
      ensures failures == old(failures) ==>
                Unhindered(p.quotas, result, ReadSizes(Datas(), p.vips), branch, outcome, old(policies), policies)
      ensures failures == old(failures) && DistinctClusters(p.quotas) && ReadSizes(Datas(), p.vips).Some? && ReadSizes(Datas(), p.vips).value.Some? ==>
                var sizes := ReadSizes(Datas(), p.vips).value.value;
                && (!SomeShrinks(p.quotas, sizes) ==> branch.Growing?)
                && (SomeShrinks(p.quotas, sizes) && !NotYetShrunk(p.quotas, sizes, result) ==> branch.Shrinking?)
                && (NotYetShrunk(p.quotas, sizes, result) ==>
                      branch.Waiting? && outcome == Done && services == old(services) && policies == old(policies) && writes == old(writes))
    {
      outcome, branch := Rescale(p, result);
      if failures == old(failures) && DistinctClusters(p.quotas) && ReadSizes(Datas(), p.vips).Some? && ReadSizes(Datas(), p.vips).value.Some? {
        BranchFollows(base, p.quotas, p.serviceNames, result, ReadSizes(Datas(), p.vips).value.value, branch, outcome,
                      old(services), old(policies), services, policies);
      }
    }

    /** The body of ClusterScaleHandler.Handle. */
    method Rescale(p: Params, result: seq<Topology>) returns (outcome: Outcome, ghost branch: Branch)
      modifies this`services, this`policies, this`writes, this`failures, p
      ensures Descending(p.quotas) && multiset(p.quotas) == multiset(old(p.quotas))
      ensures p.active == old(p.active) + ActiveClusters(p.quotas)
      ensures ScaleStep(base, p.quotas, p.serviceNames, result, ReadSizes(Datas(), p.vips), branch, outcome,
                        old(services), old(policies), services, policies)
      ensures branch.Growing? && (forall j: nat :: Slot(branch.upsert, j) == []) ==> writes == old(writes)
      ensures branch.Untouched? || branch.Waiting? ==> writes == old(writes)
      ensures failures >= old(failures) && (old(PortsApart()) ==> PortsApart())
      ensures failures == old(failures) ==>
                Unhindered(p.quotas, result, ReadSizes(Datas(), p.vips), branch, outcome, old(policies), policies)
    {
      branch := Untouched;
      p.quotas := SortQuotas(p.quotas);
      p.active := AppendActive(p.active, p.quotas);
      var sizes;
      outcome, sizes := ReadHostConf(p.vips);
      if !outcome.Done? {
        return;
      }
      var up, down := Diff(p.quotas, sizes);
      if down != map[] {
        if ReadyToShrink(result, down) {
          ghost var listed;
          outcome, listed := ScaleDownCleaner(result);
          branch := if listed.Some? then Shrinking(listed.value) else Untouched;
        } else {
          branch := Waiting;
        }
        return;
      }
      var upsert := Allocate(base, up, p.serviceNames);
      if p.quotas == [] {
        return Panicked, Growing(upsert, 0);
      }
      ghost var written;
      outcome, written := WritePlan(upsert, p.quotas[0].replicas);
      branch := Growing(upsert, written);
    }

    // -------------------------------------------------------------- the host ConfigMap

    /** The lines of one policy: its service's port at the virtual IP of each of its clusters. */
    method PrintPolicy(clusters: seq<string>, port: nat, vips: map<string, string>, before: seq<string>, ghost es: seq<Endpoint>)
      returns (members: seq<string>)
      requires before == HostLines(es)
      ensures members == HostLines(es + EndpointsAt(clusters, port, vips))
    {
      members := before;
      ghost var added := EndpointsAt(clusters, port, vips);
      var k := 0;
      while k < |clusters|
        invariant 0 <= k <= |clusters|
        invariant members == HostLines(es + added[..k])
      {
        members := members + [HostLine(Endpoint(Vip(vips, clusters[k]), port))];
        k := k + 1;
      }
      assert added[..k] == added;
    }

    /** The lines of all service policies, in the order they are listed. */
    method PrintPolicies(vips: map<string, string>) returns (outcome: Outcome, members: seq<string>, ghost order: seq<string>)
      modifies this`failures
      ensures outcome.Done? ==> Enumerates(order, policies.Keys) && AllPrintable(order, policies, services)
      ensures outcome.Done? ==> members == HostLines(Endpoints(order, policies, services, vips))
      ensures outcome.Done? ==> forall name :: name in policies ==> Printable(policies[name], services)
      ensures outcome.Panicked? ==> exists name :: name in policies && policies[name].selectors == []
      ensures failures >= old(failures)
      ensures failures == old(failures) ==> (outcome.Done? <==> forall name :: name in policies ==> Printable(policies[name], services))
    {
      var list;
      members := [];
      outcome, list := ListPolicies();
      order := list;
      if !outcome.Done? {
        return;
      }
      ghost var es: seq<Endpoint> := [];
      var i := 0;
      while i < |list|
        invariant 0 <= i <= |list|
        invariant AllPrintable(list[..i], policies, services)
        invariant es == Endpoints(list[..i], policies, services, vips)
        invariant members == HostLines(es) && failures == old(failures)
      {
        assert list[i] in policies.Keys;
        var policy := policies[list[i]];
        if policy.selectors == [] {
          return Panicked, [], order;
        }
        if * {
          failures := failures + 1;
          return Failed, [], order;
        }
        if policy.selectors[0] !in services {
          return Failed, [], order;
        }
        assert list[..i + 1][..i] == list[..i];
        members := PrintPolicy(policy.clusters, services[policy.selectors[0]], vips, members, es);
        es := es + PolicyEndpoints(policy, services, vips);
        i := i + 1;
      }
      assert list[..i] == list;
    }

    // -------------------------------------------------------------- the arbiter

    /** With an arbiter: the first entry is marked, and the arbiter's service and its policy are ensured. */
    method EnsureArbiter(p: Params) returns (outcome: Outcome)
      modifies this`failures, this`arbiterPort, this`arbiterCluster, p`quotas
      ensures old(p.quotas) == [] ==> outcome == Panicked && p.quotas == [] && arbiterPort == old(arbiterPort)
      ensures old(p.quotas) != [] ==> p.quotas == MarkFirst(old(p.quotas))
      ensures old(arbiterPort).Some? ==> arbiterPort == old(arbiterPort)
      ensures outcome.Done? ==> arbiterPort.Some? && arbiterCluster == Some(ArbiterCluster(p.quotas))
      ensures failures >= old(failures) && (old(p.quotas) != [] ==> (outcome.Done? <==> failures == old(failures)))
      ensures old(PortsApart()) ==> PortsApart()
    {
      if p.quotas == [] {
        return Panicked;
      }
      p.quotas := MarkFirst(p.quotas);
      // UpsertOpEnsure
      if * {
        failures := failures + 1;
        return Failed;
      }
      if arbiterPort.None? {
        var port: nat := *;
        if port in services.Values || port > INT32_MAX {
          failures := failures + 1;
          return Failed;
        }
        arbiterPort := Some(port);
        if * {
          failures := failures + 1;
          return Failed;
        }
      }
      var cluster := FindArbiter(p.quotas);
      if * {
        failures := failures + 1;
        return Failed;
      }
      arbiterCluster := Some(cluster);
      if * {
        failures := failures + 1;
        return Failed;
      }
      outcome := Done;
    }

    /** Without an arbiter: its service and its policy are deleted, and its line leaves the host ConfigMap. */
    method DropArbiter() returns (outcome: Outcome)
      modifies this`failures, this`arbiterPort, this`arbiterCluster, this`hostConf
      ensures outcome != Panicked && Datas() == old(Datas())
      ensures failures >= old(failures) && (outcome.Done? <==> failures == old(failures))
      ensures old(PortsApart()) ==> PortsApart()
      ensures outcome.Done? ==> arbiterPort == None && arbiterCluster == None && (hostConf.Some? ==> hostConf.value.arbiters == "")
    {
      // the override policy
      if * {
        failures := failures + 1;
        return Failed;
      }
      arbiterPort := None;
      if * {
        failures := failures + 1;
        return Failed;
      }
      arbiterCluster := None;
      if * {
        failures := failures + 1;
        return Failed;
      }
      if hostConf.Some? {
        hostConf := Some(hostConf.value.(arbiters := ""));
        if * {
          failures := failures + 1;
          return Failed;
        }
      }
      outcome := Done;
    }

    /** UpsertArbiterHandler.Handle. */
    method UpsertArbiter(p: Params) returns (outcome: Outcome)
      modifies this`failures, this`arbiterPort, this`arbiterCluster, this`hostConf, p`quotas
      ensures Datas() == old(Datas())
      ensures p.quotas == (if p.arbiter && old(p.quotas) != [] then MarkFirst(old(p.quotas)) else old(p.quotas))
      ensures p.arbiter && old(p.quotas) == [] ==> outcome == Panicked
      ensures failures >= old(failures) && (old(PortsApart()) ==> PortsApart())
      ensures failures == old(failures) && (p.arbiter ==> old(p.quotas) != []) ==> outcome.Done?
      ensures outcome.Done? ==>
                if p.arbiter then arbiterPort.Some? && arbiterCluster == Some(ArbiterCluster(p.quotas))
                else arbiterPort == None && arbiterCluster == None && (hostConf.Some? ==> hostConf.value.arbiters == "")
    {
      if p.arbiter {
        outcome := EnsureArbiter(p);
      } else {
        outcome := DropArbiter();
      }
    }

    // -------------------------------------------------------------- printing the ConfigMap

    /** HostConfigMapHandler.Handle: prints the endpoints of all service policies, in the order they are listed, and the
        arbiter's, and propagates the ConfigMap to the active clusters. */
    method HostConfigMap(p: Params) returns (outcome: Outcome, ghost order: seq<string>)
      modifies this`failures, this`hostConf, this`confClusters
      ensures hostConf != old(hostConf) || outcome.Done? ==>
                && hostConf.Some?
                && PrintedFrom(hostConf.value.datas, order, policies, services, p.vips)
                && (p.arbiter ==> arbiterPort.Some?)
                && hostConf.value.arbiters == (if p.arbiter
                     then PrintHosts([Endpoint(Vip(p.vips, ArbiterCluster(p.quotas)), arbiterPort.value)]) else "")
      ensures !(forall name :: name in policies ==> Printable(policies[name], services)) ==> outcome != Done && hostConf == old(hostConf)
      ensures confClusters == old(confClusters) || confClusters == Some(p.active)
      ensures outcome.Done? ==> confClusters == Some(p.active)
      ensures failures >= old(failures)
      ensures failures == old(failures) && (p.arbiter ==> arbiterPort.Some?) ==>
                (outcome.Done? <==> forall name :: name in policies ==> Printable(policies[name], services))
    {
      var members;
      outcome, members, order := PrintPolicies(p.vips);
      if !outcome.Done? {
        return;
      }
      var arbiters := "";
      if p.arbiter {
        if * {
          failures := failures + 1;
          return Failed, order;
        }
        if arbiterPort.None? {
          return Failed, order;
        }
        var cluster := FindArbiter(p.quotas);
        arbiters := PrintHosts([Endpoint(Vip(p.vips, cluster), arbiterPort.value)]);
      }
      if * {
        failures := failures + 1;
        return Failed, order;
      }
      hostConf := Some(HostData(arbiters, Sprintf(Join(members, "\n"))));
      if * {
        failures := failures + 1;
        return Failed, order;
      }
      confClusters := Some(p.active);
      if * {
        failures := failures + 1;
        return Failed, order;
      }
      outcome := Done;
    }
  }

  /** The cluster of the last entry marked as the arbiter's, or the empty name. */
  function ArbiterCluster(quotas: seq<Quota>): string {
    if quotas == [] then ""
    else if quotas[|quotas| - 1].arbiter then quotas[|quotas| - 1].cluster
    else ArbiterCluster(quotas[..|quotas| - 1])
  }

  lemma {:induction false} ArbiterClusterExact(quotas: seq<Quota>)
    ensures (forall i :: 0 <= i < |quotas| ==> !quotas[i].arbiter) ==> ArbiterCluster(quotas) == ""
    ensures forall i :: 0 <= i < |quotas| && quotas[i].arbiter && (forall k :: i < k < |quotas| ==> !quotas[k].arbiter) ==>
                      ArbiterCluster(quotas) == quotas[i].cluster
  {
    if quotas == [] {
    } else {
      var n := |quotas| - 1;
      ArbiterClusterExact(quotas[..n]);
      assert forall i :: 0 <= i < n ==> quotas[..n][i] == quotas[i];
    }
  }

  /** The loop that looks for the arbiter's cluster. */
  method FindArbiter(quotas: seq<Quota>) returns (cluster: string)
    ensures cluster == ArbiterCluster(quotas)
  {
    cluster := "";
    var i := 0;
    while i < |quotas|
      invariant 0 <= i <= |quotas| && cluster == ArbiterCluster(quotas[..i])
    {
      assert quotas[..i + 1][..i] == quotas[..i];
      if quotas[i].arbiter {
        cluster := quotas[i].cluster;
      }
      i := i + 1;
    }
    assert quotas[..i] == quotas;
  }

  function MarkFirst(quotas: seq<Quota>): (marked: seq<Quota>)
    requires quotas != []
    ensures |marked| == |quotas|
  {
    quotas[0 := quotas[0].(arbiter := true)]
  }

  /** A mark of the scheduler on a later entry wins over the one on the first. */
  lemma {:induction false} MarkedWins(quotas: seq<Quota>, i: nat)
    requires 0 < i < |quotas| && quotas[i].arbiter && forall k :: i < k < |quotas| ==> !quotas[k].arbiter
    ensures ArbiterCluster(MarkFirst(quotas)) == quotas[i].cluster
  {
    var marked := MarkFirst(quotas);
    ArbiterClusterExact(marked);
    assert marked[i] == quotas[i];
    assert forall k :: i < k < |marked| ==> !marked[k].arbiter;
  }

  /** When the scheduler marks no entry, the arbiter goes to the first one after the sort, a largest cluster. */
  lemma {:induction false} ArbiterIsFirst(quotas: seq<Quota>)
    requires quotas != [] && forall q :: q in quotas ==> !q.arbiter
    ensures ArbiterCluster(MarkFirst(quotas)) == quotas[0].cluster
  {
    var n := |quotas| - 1;
    var marked := MarkFirst(quotas);
    if n == 0 {
    } else {
      assert marked[..n] == MarkFirst(quotas[..n]);
      assert quotas[n] in quotas;
      ArbiterIsFirst(quotas[..n]);
    }
  }
}
