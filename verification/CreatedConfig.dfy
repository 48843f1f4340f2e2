/** From the scheduler to the replica set: the first configuration that a member cluster reads from the ConfigMap of a
    creation. */
module CreatedConfig {
  import opened Outcomes
  import opened HostConf
  import opened Placement
  import opened Cleaner
  import opened Convergence
  import opened ScaleDown
  import opened Federation
  import opened Passes
  import opened Membership
  import opened ReplSetRecords
  import opened ReplSetLimits
  import opened FirstConfig
  import SharedConfig

  // ---------------------------------------------------------------- how many endpoints

  /** The number of placements of the listed policies. */
  ghost function Placements(order: seq<string>, policies: map<string, Policy>): nat
    requires forall name :: name in order ==> name in policies
  {
    if order == [] then 0
    else
      var n := |order| - 1;
      Placements(order[..n], policies) + |policies[order[n]].clusters|
  }

  lemma {:induction false} EndpointCount(order: seq<string>, policies: map<string, Policy>, services: map<string, nat>, vips: map<string, string>)
    requires AllPrintable(order, policies, services)
    ensures |Endpoints(order, policies, services, vips)| == Placements(order, policies)
  {
    if order == [] {
    } else {
      EndpointCount(order[..|order| - 1], policies, services, vips);
    }
  }

  lemma {:induction false} PlacementsOfSum(a: seq<string>, b: seq<string>, policies: map<string, Policy>)
    requires forall name :: name in a + b ==> name in policies
    requires forall name :: name in a ==> name in policies
    requires forall name :: name in b ==> name in policies
    ensures Placements(a + b, policies) == Placements(a, policies) + Placements(b, policies)
  {
    if b == [] {
      assert a + b == a;
    } else {
      var n := |b| - 1;
      assert (a + b)[..|a + b| - 1] == a + b[..n];
      assert forall name :: name in a + b[..n] ==> name in a + b;
      PlacementsOfSum(a, b[..n], policies);
    }
  }

  lemma {:induction false} OnePlacement(name: string, policies: map<string, Policy>)
    requires name in policies
    ensures Placements([name], policies) == |policies[name].clusters|
  {
    assert [name][..0] == [];
  }

  lemma {:induction false} TakenOut(order: seq<string>, members: set<string>, i: nat)
    requires Enumerates(order, members) && i < |order|
    ensures order == order[..i] + [order[i]] + order[i + 1..]
    ensures Enumerates(order[..i] + order[i + 1..], members - {order[i]})
  {
    var rest := order[..i] + order[i + 1..];
    assert forall k :: 0 <= k < |rest| ==> rest[k] == order[if k < i then k else k + 1];
    forall x | x in members - {order[i]}
      ensures x in rest
    {
      var k :| 0 <= k < |order| && order[k] == x;
      assert rest[if k < i then k else k - 1] == x;
    }
  }

  /** A list that enumerates the first `n` policy names, around the last of these. */
  lemma {:induction false} AroundLast(base: string, order: seq<string>, n: nat) returns (a: seq<string>, b: seq<string>)
    requires n > 0 && Enumerates(order, PolicyNames(base, n))
    ensures order == a + [PolicyName(base, n - 1)] + b
    ensures Enumerates(a + b, PolicyNames(base, n - 1))
  {
    var last := PolicyName(base, n - 1);
    PolicyNumber(base, n - 1, n - 1);
    assert last in order;
    var i :| 0 <= i < |order| && order[i] == last;
    TakenOut(order, PolicyNames(base, n), i);
    a, b := order[..i], order[i + 1..];
    assert PolicyNames(base, n) - {last} == PolicyNames(base, n - 1);
  }

  /** In whatever order the policies are listed, those below `n` place what is needed below `n`. */
  lemma {:induction false} PlacementsBelow(base: string, quotas: seq<Quota>, policies: map<string, Policy>, order: seq<string>, n: nat)
    requires DistinctClusters(quotas) && NonNegative(quotas)
    requires Enumerates(order, PolicyNames(base, n))
    requires forall j: nat :: j < n ==> StoredExactly(base, quotas, policies, j)
    requires forall name :: name in order ==> name in policies
    ensures Placements(order, policies) == Clamped(quotas, n)
    decreases n
  {
    if n == 0 {
      assert order == [] by {
        EnumeratesSize(order, {});
      }
      ClampedAtZero(quotas);
    } else {
      var last := PolicyName(base, n - 1);
      var a, b := AroundLast(base, order, n);
      assert forall name :: name in a + b ==> name in order;
      PlacementsBelow(base, quotas, policies, a + b, n - 1);
      ClampedStep(quotas, n - 1);
      assert StoredExactly(base, quotas, policies, n - 1);
      EnumeratesSize(policies[last].clusters, ClustersAbove(quotas, n - 1));
      TakenApart(a, last, b, policies);
    }
  }

  lemma {:induction false} TakenApart(a: seq<string>, name: string, b: seq<string>, policies: map<string, Policy>)
    requires forall x :: x in a + [name] + b ==> x in policies
    ensures forall x :: x in a + b ==> x in policies
    ensures Placements(a + [name] + b, policies) == Placements(a + b, policies) + |policies[name].clusters|
  {
    assert forall x :: x in a || x in b || x == name ==> x in a + [name] + b;
    PlacementsOfSum(a + [name], b, policies);
    PlacementsOfSum(a, [name], policies);
    OnePlacement(name, policies);
    PlacementsOfSum(a, b, policies);
  }

  /** Conservation: the printed endpoints are as many as the scheduler wants members. */
  lemma {:induction false} PrintedTotal(base: string, quotas: seq<Quota>, policies: map<string, Policy>, services: map<string, nat>,
                                        vips: map<string, string>, order: seq<string>)
    requires DistinctClusters(quotas) && NonNegative(quotas) && ExactlyPlaced(base, quotas, policies)
    requires Enumerates(order, policies.Keys) && AllPrintable(order, policies, services)
    ensures |Endpoints(order, policies, services, vips)| == Total(quotas)
  {
    var n := Height(quotas);
    PolicyNamesAre(base, n);
    forall j: nat | j < n
      ensures StoredExactly(base, quotas, policies, j)
    {
      assert PolicyName(base, j) in policies;
    }
    PlacementsBelow(base, quotas, policies, order, n);
    ClampedIsTotal(quotas, n);
    EndpointCount(order, policies, services, vips);
  }

  // ---------------------------------------------------------------- no endpoint twice

  /** Different clusters have different virtual IPs, so one policy prints no endpoint twice. */
  lemma {:induction false} PolicyNoRepeat(policy: Policy, services: map<string, nat>, vips: map<string, string>)
    requires Printable(policy, services) && GoodVips(vips) && NoDuplicates(policy.clusters)
    requires forall c :: c in policy.clusters ==> c in vips
    ensures NoRepeat(PolicyEndpoints(policy, services, vips))
    ensures forall e :: e in PolicyEndpoints(policy, services, vips) ==> PlainVip(e.vip) && e.port == services[policy.selectors[0]]
  {
    var es := PolicyEndpoints(policy, services, vips);
    forall i, j | 0 <= i < j < |es|
      ensures es[i] != es[j]
    {
      assert policy.clusters[i] in vips && policy.clusters[j] in vips;
    }
  }

  /** Different services have different ports, so the policies together print no endpoint twice. */
  lemma {:induction false} PrintedNoRepeat(order: seq<string>, policies: map<string, Policy>, services: map<string, nat>, vips: map<string, string>)
    requires AllPrintable(order, policies, services) && NoDuplicates(order)
    requires OneServiceEach(policies) && NoDuplicateClusters(policies) && DistinctNodePorts(services) && GoodVips(vips)
    requires forall name, c :: name in policies && c in policies[name].clusters ==> c in vips
    ensures NoRepeat(Endpoints(order, policies, services, vips))
    ensures forall e :: e in Endpoints(order, policies, services, vips) ==>
                          PlainVip(e.vip) && exists name :: name in order && e.port == services[policies[name].selectors[0]]
  {
    if order == [] {
    } else {
      var n := |order| - 1;
      PrintedNoRepeat(order[..n], policies, services, vips);
      PolicyNoRepeat(policies[order[n]], services, vips);
      var before, added := Endpoints(order[..n], policies, services, vips), PolicyEndpoints(policies[order[n]], services, vips);
      forall e | e in before
        ensures exists name :: name in order && e.port == services[policies[name].selectors[0]]
        ensures e !in added
      {
        var name :| name in order[..n] && e.port == services[policies[name].selectors[0]];
        assert name in order && name != order[n];
        DifferentPorts(policies, services, name, order[n]);
      }
      SumNoRepeat(before, added);
    }
  }

  lemma {:induction false} DifferentPorts(policies: map<string, Policy>, services: map<string, nat>, a: string, b: string)
    requires OneServiceEach(policies) && DistinctNodePorts(services) && a in policies && b in policies && a != b
    requires Printable(policies[a], services) && Printable(policies[b], services)
    ensures services[policies[a].selectors[0]] != services[policies[b].selectors[0]]
  {
    assert policies[a].selectors != policies[b].selectors;
  }

  lemma SumNoRepeat(a: seq<Endpoint>, b: seq<Endpoint>)
    requires NoRepeat(a) && NoRepeat(b) && forall e :: e in a ==> e !in b
    ensures NoRepeat(a + b)
  {
    forall i, j | 0 <= i < j < |a + b|
      ensures (a + b)[i] != (a + b)[j]
    {
      if i < |a| <= j {
        assert a[i] in a && b[j - |a|] in b;
      }
    }
  }

  lemma {:induction false} ExactServices(base: string, quotas: seq<Quota>, policies: map<string, Policy>)
    requires ExactlyPlaced(base, quotas, policies)
    ensures OneServiceEach(policies)
  {
    forall m, n | m in policies && n in policies && policies[m].selectors == policies[n].selectors
      ensures m == n && |policies[m].selectors| == 1
    {
      var i := NumberOfPolicy(base, Height(quotas), m);
      var j := NumberOfPolicy(base, Height(quotas), n);
      assert IsExactPolicy(base, quotas, policies[PolicyName(base, i)], i) && IsExactPolicy(base, quotas, policies[PolicyName(base, j)], j);
      assert policies[m].selectors[0] == policies[n].selectors[0];
      ServiceNameInjective(base, i, j);
    }
    forall m | m in policies
      ensures |policies[m].selectors| == 1
    {
      assert policies[m].selectors == policies[m].selectors;
    }
  }

  // ---------------------------------------------------------------- the configuration

  /** The endpoints of the arbiter: none without one. */
  ghost function ArbiterEndpoints(cp: ControlPlane, sorted: seq<Quota>, vips: map<string, string>, arbiter: bool): (es: seq<Endpoint>)
    requires ArbiterPrinted(cp, sorted, vips, arbiter)
    reads cp
    ensures |es| == if arbiter then 1 else 0
  {
    if arbiter then [Endpoint(Vip(vips, ArbiterCluster(MarkFirst(sorted))), cp.arbiterPort.value)] else []
  }

  /** What an exact placement prints: as many endpoints as scheduled, none twice, each at the port of a service. */
  lemma {:induction false} ExactPrint(base: string, quotas: seq<Quota>, policies: map<string, Policy>, services: map<string, nat>,
                                      vips: map<string, string>, order: seq<string>)
    requires GoodSchedule(quotas, vips) && ExactlyPlaced(base, quotas, policies) && DistinctNodePorts(services)
    requires Enumerates(order, policies.Keys) && AllPrintable(order, policies, services)
    ensures var es := Endpoints(order, policies, services, vips);
            && |es| == Total(quotas) && NoRepeat(es)
            && forall e :: e in es ==> PlainVip(e.vip) && e.port in services.Values
  {
    PrintedTotal(base, quotas, policies, services, vips, order);
    ExactServices(base, quotas, policies);
    ExactIsWellPlaced(base, quotas, policies, vips);
    PrintedNoRepeat(order, policies, services, vips);
    forall e | e in Endpoints(order, policies, services, vips)
      ensures e.port in services.Values
    {
      var name :| name in order && e.port == services[policies[name].selectors[0]];
      assert policies[name].selectors[0] in services;
    }
  }

  lemma PlainOrEmpty(vips: map<string, string>, cluster: string)
    requires GoodVips(vips)
    ensures PlainVip(Vip(vips, cluster))
  {
  }

  /** What is printed once a creation has succeeded: as many data hosts as scheduled, and no address twice, the
      arbiter's included. */
  lemma {:induction false} CreatedEndpoints(cp: ControlPlane, quotas: seq<Quota>, sorted: seq<Quota>, vips: map<string, string>, arbiter: bool)
    returns (es: seq<Endpoint>)
    requires GoodSchedule(quotas, vips) && Creating(cp.base, quotas, vips, cp.services, cp.policies, cp.Datas())
    requires ArbiterPrinted(cp, sorted, vips, arbiter) && cp.PortsApart()
    ensures cp.hostConf.value.datas == PrintHosts(es) && |es| == Total(quotas)
    ensures NoRepeat(es + ArbiterEndpoints(cp, sorted, vips, arbiter))
    ensures forall e :: e in es + ArbiterEndpoints(cp, sorted, vips, arbiter) ==> PlainVip(e.vip)
  {
    var order :| PrintedFrom(cp.hostConf.value.datas, order, cp.policies, cp.services, vips);
    es := Endpoints(order, cp.policies, cp.services, vips);
    ExactPrint(cp.base, quotas, cp.policies, cp.services, vips, order);
    var others := ArbiterEndpoints(cp, sorted, vips, arbiter);
    forall e | e in others
      ensures PlainVip(e.vip) && e !in es
    {
      PlainOrEmpty(vips, ArbiterCluster(MarkFirst(sorted)));
    }
    SumNoRepeat(es, others);
  }

  /** A member cluster that reads the ConfigMap of a creation gets a sound first configuration with the ids 0, 1, 2, ...:
      one member for each that was scheduled, up to fifty, and the arbiter. */
  lemma {:induction false} CreatedConfigIsSound(cp: ControlPlane, quotas: seq<Quota>, sorted: seq<Quota>, vips: map<string, string>,
                                                arbiter: bool, version: int)
    requires GoodSchedule(quotas, vips) && Creating(cp.base, quotas, vips, cp.services, cp.policies, cp.Datas())
    requires ArbiterPrinted(cp, sorted, vips, arbiter) && cp.PortsApart()
    ensures Total(quotas) >= 0
    ensures var all, others := AllRecords(cp.hostConf.value.datas, cp.hostConf.value.arbiters), if arbiter then 1 else 0;
            && all.Some? && Contiguous(all.value) && SharedConfig.Sound(SharedConfig.Conf(all.value, version))
            && |all.value| == Min(Total(quotas), MAX_MEMBERS) + others
            && Voters(all.value) == Min(Total(quotas), MAX_VOTERS) + others
  {
    var es := CreatedEndpoints(cp, quotas, sorted, vips, arbiter);
    var others := ArbiterEndpoints(cp, sorted, vips, arbiter);
    assert PrintHosts([]) == "";
    assert cp.hostConf.value.arbiters == PrintHosts(others);
    PrintedRecords(es, others, version);
    PrintedSizes(es, others);
  }
}
