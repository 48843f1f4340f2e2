/** What the control plane finds when it reads back the host ConfigMap it printed from its service policies. */
module Convergence {
  import opened Outcomes
  import opened Text
  import opened HostConf
  import opened Placement
  import opened Cleaner

  function PolicyName(base: string, j: nat): string {
    ServiceName(base, j) + "-pp"
  }

  /** The policy of a service is named after it. */
  lemma PolicyNameOf(base: string)
    ensures PolicyName(base, 12) == base + "-mongodb-12-pp"
  {
    ServiceNames(base);
  }

  lemma PolicyNameInjective(base: string, i: nat, j: nat)
    requires PolicyName(base, i) == PolicyName(base, j)
    ensures i == j
  {
    var a, b := PolicyName(base, i), PolicyName(base, j);
    assert a[..|a| - 3] == ServiceName(base, i);
    assert b[..|b| - 3] == ServiceName(base, j);
    ServiceNameInjective(base, i, j);
  }

  /** A missing cluster reads as the empty virtual IP. */
  function Vip(vips: map<string, string>, cluster: string): string {
    if cluster in vips then vips[cluster] else ""
  }

  /** Distinct virtual IPs that the host lines can carry. */
  ghost predicate GoodVips(vips: map<string, string>) {
    && (forall c :: c in vips ==> PlainVip(vips[c]))
    && (forall c, d :: c in vips && d in vips && vips[c] == vips[d] ==> c == d)
  }

  // ---------------------------------------------------------------- what gets printed

  predicate Printable(policy: Policy, services: map<string, nat>) {
    policy.selectors != [] && policy.selectors[0] in services
  }

  ghost predicate AllPrintable(order: seq<string>, policies: map<string, Policy>, services: map<string, nat>) {
    forall name :: name in order ==> name in policies && Printable(policies[name], services)
  }

  /** One port at the virtual IP of each cluster. */
  function EndpointsAt(clusters: seq<string>, port: nat, vips: map<string, string>): (es: seq<Endpoint>)
    ensures |es| == |clusters|
  {
    seq(|clusters|, i requires 0 <= i < |clusters| => Endpoint(Vip(vips, clusters[i]), port))
  }

  function PolicyEndpoints(policy: Policy, services: map<string, nat>, vips: map<string, string>): (es: seq<Endpoint>)
    requires Printable(policy, services)
    ensures |es| == |policy.clusters|
  {
    EndpointsAt(policy.clusters, services[policy.selectors[0]], vips)
  }

  /** The endpoints of all listed policies, in list order. */
  ghost function Endpoints(order: seq<string>, policies: map<string, Policy>, services: map<string, nat>, vips: map<string, string>): seq<Endpoint>
    requires AllPrintable(order, policies, services)
  {
    if order == [] then []
    else
      var n := |order| - 1;
      Endpoints(order[..n], policies, services, vips) + PolicyEndpoints(policies[order[n]], services, vips)
  }

  /** The clusters of all listed policies, in list order. */
  ghost function PlacedClusters(order: seq<string>, policies: map<string, Policy>): seq<string>
    requires forall name :: name in order ==> name in policies
  {
    if order == [] then []
    else
      var n := |order| - 1;
      PlacedClusters(order[..n], policies) + policies[order[n]].clusters
  }

  ghost function VipList(clusters: seq<string>, vips: map<string, string>): seq<string> {
    seq(|clusters|, i requires 0 <= i < |clusters| => Vip(vips, clusters[i]))
  }

  lemma {:induction false} EndpointVips(order: seq<string>, policies: map<string, Policy>, services: map<string, nat>, vips: map<string, string>)
    requires AllPrintable(order, policies, services)
    ensures Vips(Endpoints(order, policies, services, vips)) == VipList(PlacedClusters(order, policies), vips)
  {
    if order == [] {
    } else {
      var n := |order| - 1;
      EndpointVips(order[..n], policies, services, vips);
      var before := Endpoints(order[..n], policies, services, vips);
      var added := PolicyEndpoints(policies[order[n]], services, vips);
      assert Vips(before + added) == Vips(before) + VipList(policies[order[n]].clusters, vips);
    }
  }

  /** With distinct virtual IPs, counting by virtual IP is counting by cluster. */
  lemma {:induction false} VipCount(clusters: seq<string>, vips: map<string, string>, c: string)
    requires GoodVips(vips) && c in vips
    requires forall d :: d in clusters ==> d in vips
    ensures multiset(VipList(clusters, vips))[vips[c]] == multiset(clusters)[c]
  {
    if clusters == [] {
    } else {
      var n := |clusters| - 1;
      VipCount(clusters[..n], vips, c);
      assert VipList(clusters, vips) == VipList(clusters[..n], vips) + [vips[clusters[n]]];
      assert clusters == clusters[..n] + [clusters[n]];
      assert vips[clusters[n]] == vips[c] <==> clusters[n] == c;
    }
  }

  /** The policies that name a cluster. */
  ghost function PoliciesNaming(policies: map<string, Policy>, c: string): set<string> {
    set name | name in policies && c in policies[name].clusters
  }

  ghost predicate NoDuplicates(list: seq<string>) {
    forall i, j :: 0 <= i < j < |list| ==> list[i] != list[j]
  }

  ghost predicate NoDuplicateClusters(policies: map<string, Policy>) {
    forall name :: name in policies ==> NoDuplicates(policies[name].clusters)
  }

  lemma {:induction false} OccursOnce(list: seq<string>, c: string)
    requires NoDuplicates(list)
    ensures multiset(list)[c] == if c in list then 1 else 0
  {
    if list == [] {
    } else {
      var n := |list| - 1;
      OccursOnce(list[..n], c);
      assert list == list[..n] + [list[n]];
    }
  }

  /** The listed policies that name a cluster. */
  ghost function NamingIn(order: seq<string>, policies: map<string, Policy>, c: string): set<string>
    requires forall name :: name in order ==> name in policies
  {
    if order == [] then {}
    else
      var n := |order| - 1;
      NamingIn(order[..n], policies, c) + if c in policies[order[n]].clusters then {order[n]} else {}
  }

  lemma {:induction false} NamingInMembers(order: seq<string>, policies: map<string, Policy>, c: string)
    requires forall name :: name in order ==> name in policies
    ensures forall name :: name in NamingIn(order, policies, c) <==> name in order && c in policies[name].clusters
  {
    if order == [] {
    } else {
      var n := |order| - 1;
      NamingInMembers(order[..n], policies, c);
      assert order == order[..n] + [order[n]];
    }
  }

  lemma {:induction false} PlacedCount(order: seq<string>, policies: map<string, Policy>, c: string)
    requires NoDuplicates(order) && NoDuplicateClusters(policies)
    requires forall name :: name in order ==> name in policies
    ensures multiset(PlacedClusters(order, policies))[c] == |NamingIn(order, policies, c)|
  {
    if order == [] {
    } else {
      var n := |order| - 1;
      PlacedCount(order[..n], policies, c);
      OccursOnce(policies[order[n]].clusters, c);
      NamingInMembers(order[..n], policies, c);
      assert order[n] !in order[..n];
    }
  }

  lemma {:induction false} PlacedMembers(order: seq<string>, policies: map<string, Policy>, c: string)
    requires forall name :: name in order ==> name in policies
    ensures c in PlacedClusters(order, policies) <==> exists name :: name in order && c in policies[name].clusters
  {
    if order == [] {
    } else {
      var n := |order| - 1;
      PlacedMembers(order[..n], policies, c);
      assert order == order[..n] + [order[n]];
    }
  }

  // ---------------------------------------------------------------- reading it back

  /** What a pass reads from the host ConfigMap: None stands for a panic, Some(None) for no ConfigMap. */
  function ReadSizes(datas: Option<string>, vips: map<string, string>): Option<Option<map<string, int>>> {
    match datas
    case None => Some(None)
    case Some(text) =>
      match LineVips(Split(text, "\n"))
      case None => None
      case Some(found) => Some(Some(ClusterSizes(found, vips)))
  }

  /** The text printed for a state, listed in some order. */
  ghost predicate PrintedFrom(text: string, order: seq<string>, policies: map<string, Policy>, services: map<string, nat>, vips: map<string, string>) {
    && Enumerates(order, policies.Keys)
    && AllPrintable(order, policies, services)
    && text == PrintHosts(Endpoints(order, policies, services, vips))
  }

  /** The policies place something, each cluster at most once per policy, on known clusters only. */
  ghost predicate WellPlaced(policies: map<string, Policy>, vips: map<string, string>) {
    && NoDuplicateClusters(policies)
    && (forall name, c :: name in policies && c in policies[name].clusters ==> c in vips)
    && (exists name :: name in policies && policies[name].clusters != [])
  }

  lemma CountsBack(order: seq<string>, policies: map<string, Policy>, vips: map<string, string>, c: string)
    requires GoodVips(vips) && WellPlaced(policies, vips)
    requires Enumerates(order, policies.Keys)
    ensures SizeOf(ClusterSizes(VipList(PlacedClusters(order, policies), vips), vips), c) == |PoliciesNaming(policies, c)|
  {
    var placed := PlacedClusters(order, policies);
    PlacedCount(order, policies, c);
    NamingInMembers(order, policies, c);
    assert PoliciesNaming(policies, c) == NamingIn(order, policies, c);
    if c in vips {
      PlacedOnKnown(order, policies, vips);
      VipCount(placed, vips, c);
    } else {
      assert PoliciesNaming(policies, c) == {};
    }
  }

  lemma PlacedOnKnown(order: seq<string>, policies: map<string, Policy>, vips: map<string, string>)
    requires WellPlaced(policies, vips) && Enumerates(order, policies.Keys)
    ensures PlacedClusters(order, policies) != []
    ensures forall c :: c in PlacedClusters(order, policies) ==> c in vips
  {
    forall c | c in PlacedClusters(order, policies)
      ensures c in vips
    {
      PlacedMembers(order, policies, c);
    }
    var name :| name in policies && policies[name].clusters != [];
    PlacedMembers(order, policies, policies[name].clusters[0]);
  }

  lemma PlainEndpoints(order: seq<string>, policies: map<string, Policy>, services: map<string, nat>, vips: map<string, string>)
    requires GoodVips(vips) && WellPlaced(policies, vips)
    requires Enumerates(order, policies.Keys) && AllPrintable(order, policies, services)
    ensures Endpoints(order, policies, services, vips) != []
    ensures forall e :: e in Endpoints(order, policies, services, vips) ==> PlainVip(e.vip)
  {
    var es := Endpoints(order, policies, services, vips);
    var placed := PlacedClusters(order, policies);
    EndpointVips(order, policies, services, vips);
    PlacedOnKnown(order, policies, vips);
    assert |es| == |Vips(es)| == |placed|;
    forall e | e in es
      ensures PlainVip(e.vip)
    {
      var i :| 0 <= i < |es| && es[i] == e;
      assert Vips(es)[i] == e.vip == Vip(vips, placed[i]);
    }
  }

  /** Reading the printed ConfigMap back gives each cluster the number of policies that name it. */
  lemma ReadBack(text: string, order: seq<string>, policies: map<string, Policy>, services: map<string, nat>, vips: map<string, string>)
    requires GoodVips(vips) && WellPlaced(policies, vips)
    requires PrintedFrom(text, order, policies, services, vips)
    ensures ReadSizes(Some(text), vips).Some? && ReadSizes(Some(text), vips).value.Some?
    ensures var sizes := ReadSizes(Some(text), vips).value.value;
            && (forall c :: c in sizes ==> sizes[c] > 0)
            && (forall c :: SizeOf(sizes, c) == |PoliciesNaming(policies, c)|)
  {
    var es := Endpoints(order, policies, services, vips);
    PlainEndpoints(order, policies, services, vips);
    PrintedLines(es);
    LineVipsOfPrinted(es);
    EndpointVips(order, policies, services, vips);
    forall c
      ensures SizeOf(ClusterSizes(Vips(es), vips), c) == |PoliciesNaming(policies, c)|
    {
      CountsBack(order, policies, vips, c);
    }
  }

  /** A ConfigMap printed from policies that place nothing makes the next pass panic. */
  lemma NothingPlacedPanics(text: string, order: seq<string>, policies: map<string, Policy>, services: map<string, nat>, vips: map<string, string>)
    requires PrintedFrom(text, order, policies, services, vips)
    requires forall name :: name in policies ==> policies[name].clusters == []
    ensures ReadSizes(Some(text), vips).None?
  {
    EndpointVips(order, policies, services, vips);
    var placed := PlacedClusters(order, policies);
    if placed != [] {
      PlacedMembers(order, policies, placed[0]);
    }
    assert Endpoints(order, policies, services, vips) == [];
    assert text == "";
    NoOccurrence("", '\n');
    assert Split("", MARK) == [""];
    UnreadableVip([""], 0);
  }

  /** The ConfigMap printed without any policy, or from one that lists no cluster, is empty, and the next pass panics. */
  lemma {:induction false} EmptyPrintPanics(s: string, port: nat, vips: map<string, string>)
    ensures PrintedFrom("", [], map[], map[s := port], vips)
    ensures PrintedFrom("", ["p"], map["p" := Policy([s], [])], map[s := port], vips)
    ensures ReadSizes(Some(""), vips).None?
  {
    var policies, services := map["p" := Policy([s], [])], map[s := port];
    assert ["p"][..0] == [] && ["p"][0] == "p";
    assert Endpoints(["p"], policies, services, vips) == [];
    NothingPlacedPanics("", ["p"], policies, services, vips);
  }

  /** The printed ConfigMap makes the next pass panic if and only if the policies place nothing. */
  lemma {:induction false} PrintedPanicsIff(text: string, order: seq<string>, policies: map<string, Policy>, services: map<string, nat>, vips: map<string, string>)
    requires GoodVips(vips) && NoDuplicateClusters(policies)
    requires forall name, c :: name in policies && c in policies[name].clusters ==> c in vips
    requires PrintedFrom(text, order, policies, services, vips)
    ensures ReadSizes(Some(text), vips).None? <==> forall name :: name in policies ==> policies[name].clusters == []
  {
    if forall name :: name in policies ==> policies[name].clusters == [] {
      NothingPlacedPanics(text, order, policies, services, vips);
    } else {
      ReadBack(text, order, policies, services, vips);
    }
  }

  /** The next pass finds nothing to scale up or down if and only if every scheduled cluster is named by
      as many policies as its count. */
  lemma {:induction false} QuietIff(text: string, order: seq<string>, policies: map<string, Policy>, services: map<string, nat>,
                 vips: map<string, string>, quotas: seq<Quota>)
    requires GoodVips(vips) && WellPlaced(policies, vips) && DistinctClusters(quotas)
    requires PrintedFrom(text, order, policies, services, vips)
    ensures ReadSizes(Some(text), vips).Some?
    ensures var sizes := ReadSizes(Some(text), vips).value;
            (UpTargets(quotas, sizes) == map[] && DownTargets(quotas, sizes) == map[])
            <==> (forall q :: q in quotas ==> |PoliciesNaming(policies, q.cluster)| == Max(0, q.replicas))
  {
    ReadBack(text, order, policies, services, vips);
    NoDifference(quotas, ReadSizes(Some(text), vips).value.value);
  }

  // ---------------------------------------------------------------- creation

  /** The largest count, zero at least. */
  function Height(quotas: seq<Quota>): (h: nat)
    ensures forall q :: q in quotas ==> q.replicas <= h
    ensures h > 0 ==> exists q :: q in quotas && q.replicas == h
  {
    if quotas == [] then 0
    else
      var n := |quotas| - 1;
      var before := Height(quotas[..n]);
      assert quotas == quotas[..n] + [quotas[n]];
      if quotas[n].replicas > before then quotas[n].replicas else before
  }

  /** The names of the first `n` service policies. */
  function PolicyNames(base: string, n: nat): set<string> {
    if n == 0 then {} else PolicyNames(base, n - 1) + {PolicyName(base, n - 1)}
  }

  lemma {:induction false} PolicyNumber(base: string, n: nat, j: nat)
    ensures PolicyName(base, j) in PolicyNames(base, n) <==> j < n
  {
    if n == 0 {
    } else {
      PolicyNumber(base, n - 1, j);
      if PolicyName(base, j) == PolicyName(base, n - 1) {
        PolicyNameInjective(base, j, n - 1);
      }
    }
  }

  lemma {:induction false} NumberOfPolicy(base: string, n: nat, name: string) returns (j: nat)
    requires name in PolicyNames(base, n)
    ensures j < n && name == PolicyName(base, j)
  {
    if name == PolicyName(base, n - 1) {
      j := n - 1;
    } else {
      j := NumberOfPolicy(base, n - 1, name);
    }
  }

  lemma {:induction false} PolicyNamesCount(base: string, n: nat)
    ensures |PolicyNames(base, n)| == n
  {
    if n == 0 {
    } else {
      PolicyNamesCount(base, n - 1);
      PolicyNumber(base, n - 1, n - 1);
    }
  }

  lemma {:induction false} PolicyNamesAre(base: string, n: nat)
    ensures |PolicyNames(base, n)| == n
    ensures forall j: nat :: PolicyName(base, j) in PolicyNames(base, n) <==> j < n
    ensures forall name :: name in PolicyNames(base, n) ==> exists j: nat :: j < n && name == PolicyName(base, j)
  {
    PolicyNamesCount(base, n);
    forall j: nat
      ensures PolicyName(base, j) in PolicyNames(base, n) <==> j < n
    {
      PolicyNumber(base, n, j);
    }
    forall name | name in PolicyNames(base, n)
      ensures exists j: nat :: j < n && name == PolicyName(base, j)
    {
      var j := NumberOfPolicy(base, n, name);
    }
  }

  /** Policy number `j` selects service number `j` and names exactly the clusters that need it. */
  ghost predicate IsExactPolicy(base: string, quotas: seq<Quota>, policy: Policy, j: nat) {
    policy.selectors == [ServiceName(base, j)] && Enumerates(policy.clusters, ClustersAbove(quotas, j))
  }

  /** Every policy present is an exact one: what a creation pass leaves behind, complete or interrupted. */
  ghost predicate PartlyPlaced(base: string, quotas: seq<Quota>, policies: map<string, Policy>) {
    && policies.Keys <= PolicyNames(base, Height(quotas))
    && forall j: nat :: PolicyName(base, j) in policies ==> IsExactPolicy(base, quotas, policies[PolicyName(base, j)], j)
  }

  /** Exactly the policies 0, 1, ... up to the largest count, each of them exact. */
  ghost predicate ExactlyPlaced(base: string, quotas: seq<Quota>, policies: map<string, Policy>) {
    && PartlyPlaced(base, quotas, policies)
    && policies.Keys == PolicyNames(base, Height(quotas))
  }

  lemma NamedIff(base: string, quotas: seq<Quota>, policy: Policy, q: Quota, j: nat)
    requires DistinctClusters(quotas) && q in quotas
    requires IsExactPolicy(base, quotas, policy, j)
    ensures q.cluster in policy.clusters <==> j < q.replicas
  {
    if q.cluster in ClustersAbove(quotas, j) {
      var p :| p in quotas && p.replicas > j && p.cluster == q.cluster;
      assert p == q;
    }
  }

  /** In an exact placement every scheduled cluster is named by as many policies as its count. */
  lemma ExactCounts(base: string, quotas: seq<Quota>, policies: map<string, Policy>, q: Quota)
    requires DistinctClusters(quotas) && NonNegative(quotas) && q in quotas
    requires ExactlyPlaced(base, quotas, policies)
    ensures |PoliciesNaming(policies, q.cluster)| == q.replicas
  {
    var naming := PoliciesNaming(policies, q.cluster);
    PolicyNamesAre(base, q.replicas);
    PolicyNamesAre(base, Height(quotas));
    forall name
      ensures name in naming <==> name in PolicyNames(base, q.replicas)
    {
      if name in policies {
        var j: nat :| j < Height(quotas) && name == PolicyName(base, j);
        NamedIff(base, quotas, policies[name], q, j);
      }
    }
    assert naming == PolicyNames(base, q.replicas);
  }

  /** An exact placement is well placed once something is to be placed on known clusters. */
  lemma ExactIsWellPlaced(base: string, quotas: seq<Quota>, policies: map<string, Policy>, vips: map<string, string>)
    requires ExactlyPlaced(base, quotas, policies) && Height(quotas) > 0
    requires forall q :: q in quotas && q.replicas > 0 ==> q.cluster in vips
    ensures WellPlaced(policies, vips)
  {
    PolicyNamesAre(base, Height(quotas));
    forall name | name in policies
      ensures NoDuplicates(policies[name].clusters)
      ensures forall c :: c in policies[name].clusters ==> c in vips
    {
      var j: nat :| j < Height(quotas) && name == PolicyName(base, j);
      assert IsExactPolicy(base, quotas, policies[name], j);
    }
    var q :| q in quotas && q.replicas == Height(quotas);
    assert IsExactPolicy(base, quotas, policies[PolicyName(base, 0)], 0);
    assert q.cluster in ClustersAbove(quotas, 0);
  }

  /** The fixpoint: whatever the list order was when it was printed, the ConfigMap of an exact placement
      shows the next pass nothing to do. */
  lemma ExactIsQuiet(base: string, quotas: seq<Quota>, policies: map<string, Policy>, services: map<string, nat>,
                     vips: map<string, string>, order: seq<string>, text: string)
    requires DistinctClusters(quotas) && NonNegative(quotas) && Height(quotas) > 0
    requires GoodVips(vips) && forall q :: q in quotas && q.replicas > 0 ==> q.cluster in vips
    requires ExactlyPlaced(base, quotas, policies)
    requires PrintedFrom(text, order, policies, services, vips)
    ensures ReadSizes(Some(text), vips).Some?
    ensures UpTargets(quotas, ReadSizes(Some(text), vips).value) == map[]
    ensures DownTargets(quotas, ReadSizes(Some(text), vips).value) == map[]
  {
    ExactIsWellPlaced(base, quotas, policies, vips);
    QuietIff(text, order, policies, services, vips, quotas);
    forall q | q in quotas
      ensures |PoliciesNaming(policies, q.cluster)| == Max(0, q.replicas)
    {
      ExactCounts(base, quotas, policies, q);
    }
  }

  /** The policies after the write loop has handled the service numbers below `n`: a number with a plan
      gets a policy whose whole cluster list is replaced, any other policy stays as it was. */
  function WrittenPolicies(base: string, before: map<string, Policy>, upsert: map<int, seq<string>>, n: nat): map<string, Policy> {
    if n == 0 then before
    else
      var written := WrittenPolicies(base, before, upsert, n - 1);
      if Slot(upsert, n - 1) == [] then written
      else written[PolicyName(base, n - 1) := Policy([ServiceName(base, n - 1)], Slot(upsert, n - 1))]
  }

  /** Every cluster with a positive count grows: always so on creation. */
  ghost predicate AllGrow(quotas: seq<Quota>, sizes: Option<map<string, int>>) {
    forall q :: q in quotas && q.replicas > 0 ==> Grows(q, sizes)
  }

  lemma PlanOfGrowth(base: string, quotas: seq<Quota>, sizes: Option<map<string, int>>, upsert: map<int, seq<string>>, j: nat)
    requires DistinctClusters(quotas) && AllGrow(quotas, sizes)
    requires IsPlan(base, UpTargets(quotas, sizes), map[], upsert)
    ensures Enumerates(Slot(upsert, j), ClustersAbove(quotas, j))
    ensures j < Height(quotas) ==> Slot(upsert, j) != []
  {
    PlacementExactIff(base, quotas, sizes, j);
    if j < Height(quotas) {
      var q :| q in quotas && q.replicas == Height(quotas);
      assert q.cluster in ClustersAbove(quotas, j);
    }
  }

  lemma WriteOneExact(base: string, quotas: seq<Quota>, policies: map<string, Policy>, policy: Policy, n: nat)
    requires PartlyPlaced(base, quotas, policies) && n < Height(quotas)
    requires IsExactPolicy(base, quotas, policy, n)
    ensures PartlyPlaced(base, quotas, policies[PolicyName(base, n) := policy])
  {
    var written := policies[PolicyName(base, n) := policy];
    PolicyNamesAre(base, Height(quotas));
    forall j: nat | PolicyName(base, j) in written
      ensures IsExactPolicy(base, quotas, written[PolicyName(base, j)], j)
    {
      if PolicyName(base, j) == PolicyName(base, n) {
        PolicyNameInjective(base, j, n);
      }
    }
  }

  /** Writing part of the plan over exact policies leaves exact policies. */
  lemma {:induction false} WritingKeepsExact(base: string, quotas: seq<Quota>, sizes: Option<map<string, int>>,
                                             before: map<string, Policy>, upsert: map<int, seq<string>>, n: nat)
    requires DistinctClusters(quotas) && AllGrow(quotas, sizes) && n <= Height(quotas)
    requires IsPlan(base, UpTargets(quotas, sizes), map[], upsert)
    requires PartlyPlaced(base, quotas, before)
    ensures PartlyPlaced(base, quotas, WrittenPolicies(base, before, upsert, n))
  {
    if n == 0 {
    } else {
      WritingKeepsExact(base, quotas, sizes, before, upsert, n - 1);
      PlanOfGrowth(base, quotas, sizes, upsert, n - 1);
      WriteOneExact(base, quotas, WrittenPolicies(base, before, upsert, n - 1),
                    Policy([ServiceName(base, n - 1)], Slot(upsert, n - 1)), n - 1);
    }
  }

  lemma {:induction false} WrittenKeys(base: string, before: map<string, Policy>, upsert: map<int, seq<string>>, n: nat)
    requires forall j :: 0 <= j < n ==> Slot(upsert, j) != []
    ensures WrittenPolicies(base, before, upsert, n).Keys == before.Keys + PolicyNames(base, n)
  {
    if n == 0 {
    } else {
      WrittenKeys(base, before, upsert, n - 1);
    }
  }

  /** The policy written for a number with a plan. */
  lemma {:induction false} WrittenAt(base: string, before: map<string, Policy>, upsert: map<int, seq<string>>, n: nat, j: nat)
    requires j < n && Slot(upsert, j) != []
    ensures PolicyName(base, j) in WrittenPolicies(base, before, upsert, n)
    ensures WrittenPolicies(base, before, upsert, n)[PolicyName(base, j)] == Policy([ServiceName(base, j)], Slot(upsert, j))
  {
    if j < n - 1 {
      WrittenAt(base, before, upsert, n - 1, j);
      if PolicyName(base, j) == PolicyName(base, n - 1) {
        PolicyNameInjective(base, j, n - 1);
      }
    }
  }

  /** A policy that no number with a plan names is left alone. */
  lemma {:induction false} WrittenElsewhere(base: string, before: map<string, Policy>, upsert: map<int, seq<string>>, n: nat, name: string)
    requires forall j: nat :: j < n && name == PolicyName(base, j) ==> Slot(upsert, j) == []
    ensures name in WrittenPolicies(base, before, upsert, n) <==> name in before
    ensures name in before ==> WrittenPolicies(base, before, upsert, n)[name] == before[name]
  {
    if n == 0 {
    } else {
      WrittenElsewhere(base, before, upsert, n - 1, name);
    }
  }

  lemma WrittenExactAt(base: string, quotas: seq<Quota>, sizes: Option<map<string, int>>,
                       before: map<string, Policy>, upsert: map<int, seq<string>>, j: nat)
    requires DistinctClusters(quotas) && AllGrow(quotas, sizes) && j < Height(quotas)
    requires IsPlan(base, UpTargets(quotas, sizes), map[], upsert)
    ensures var written := WrittenPolicies(base, before, upsert, Height(quotas));
            PolicyName(base, j) in written && IsExactPolicy(base, quotas, written[PolicyName(base, j)], j)
  {
    PlanOfGrowth(base, quotas, sizes, upsert, j);
    WrittenAt(base, before, upsert, Height(quotas), j);
  }

  lemma AllWrittenKeys(base: string, quotas: seq<Quota>, sizes: Option<map<string, int>>,
                       before: map<string, Policy>, upsert: map<int, seq<string>>)
    requires DistinctClusters(quotas) && AllGrow(quotas, sizes)
    requires IsPlan(base, UpTargets(quotas, sizes), map[], upsert)
    requires before.Keys <= PolicyNames(base, Height(quotas))
    ensures WrittenPolicies(base, before, upsert, Height(quotas)).Keys == PolicyNames(base, Height(quotas))
  {
    forall j: nat | j < Height(quotas)
      ensures Slot(upsert, j) != []
    {
      PlanOfGrowth(base, quotas, sizes, upsert, j);
    }
    WrittenKeys(base, before, upsert, Height(quotas));
  }

  /** Writing the whole plan places every service exactly, whatever stood in the policies it replaces,
      as long as every cluster that needs a service grows and no policy has a higher number. */
  lemma WrittenIsExact(base: string, quotas: seq<Quota>, sizes: Option<map<string, int>>,
                       before: map<string, Policy>, upsert: map<int, seq<string>>)
    requires DistinctClusters(quotas) && AllGrow(quotas, sizes)
    requires IsPlan(base, UpTargets(quotas, sizes), map[], upsert)
    requires before.Keys <= PolicyNames(base, Height(quotas))
    ensures ExactlyPlaced(base, quotas, WrittenPolicies(base, before, upsert, Height(quotas)))
  {
    var written := WrittenPolicies(base, before, upsert, Height(quotas));
    AllWrittenKeys(base, quotas, sizes, before, upsert);
    PolicyNamesAre(base, Height(quotas));
    forall j: nat | PolicyName(base, j) in written
      ensures IsExactPolicy(base, quotas, written[PolicyName(base, j)], j)
    {
      WrittenExactAt(base, quotas, sizes, before, upsert, j);
    }
  }

  /** Some cluster that needs service `j` grows. */
  ghost predicate SomeGrows(quotas: seq<Quota>, sizes: Option<map<string, int>>, j: nat) {
    exists q :: q in quotas && Grows(q, sizes) && q.replicas > j
  }

  /** Whether the write loop will leave policy `j` exact: if some cluster that needs the service grows, all of them must;
      if none does the policy is not written, so it must be exact already. */
  ghost predicate EndsExact(base: string, quotas: seq<Quota>, sizes: Option<map<string, int>>, before: map<string, Policy>, j: nat) {
    if SomeGrows(quotas, sizes, j) then forall q :: q in quotas && q.replicas > j ==> Grows(q, sizes)
    else PolicyName(base, j) in before && IsExactPolicy(base, quotas, before[PolicyName(base, j)], j)
  }

  ghost predicate StoredExactly(base: string, quotas: seq<Quota>, policies: map<string, Policy>, j: nat) {
    PolicyName(base, j) in policies && IsExactPolicy(base, quotas, policies[PolicyName(base, j)], j)
  }

  lemma {:induction false} PlannedIffGrows(base: string, quotas: seq<Quota>, sizes: Option<map<string, int>>, upsert: map<int, seq<string>>, j: nat)
    requires DistinctClusters(quotas) && IsPlan(base, UpTargets(quotas, sizes), map[], upsert)
    ensures Slot(upsert, j) != [] <==> SomeGrows(quotas, sizes, j)
  {
    var planned := PlannedFor(base, UpTargets(quotas, sizes), map[], j);
    PlannedAreGrowing(base, quotas, sizes, j);
    assert Enumerates(Slot(upsert, j), planned);
    if q :| q in quotas && Grows(q, sizes) && q.replicas > j {
      assert q.cluster in planned && q.cluster in Slot(upsert, j);
    }
    if Slot(upsert, j) != [] {
      assert Slot(upsert, j)[0] in planned;
    }
  }

  lemma {:induction false} SameMembersEnumerate(list: seq<string>, a: set<string>, b: set<string>)
    requires Enumerates(list, a)
    ensures Enumerates(list, b) <==> a == b
  {
    if Enumerates(list, b) {
      assert forall x :: x in a <==> x in list;
      assert forall x :: x in b <==> x in list;
    }
  }

  /** After the write loop the stored policy of service `j` is exact if and only if the code meets the condition of
      `EndsExact`, which can be checked before. */
  lemma {:induction false} StoredExactIff(base: string, quotas: seq<Quota>, sizes: Option<map<string, int>>,
                                          before: map<string, Policy>, upsert: map<int, seq<string>>, n: nat, j: nat)
    requires DistinctClusters(quotas) && IsPlan(base, UpTargets(quotas, sizes), map[], upsert) && n >= Height(quotas)
    ensures StoredExactly(base, quotas, WrittenPolicies(base, before, upsert, n), j) <==> EndsExact(base, quotas, sizes, before, j)
  {
    PlannedIffGrows(base, quotas, sizes, upsert, j);
    if Slot(upsert, j) != [] {
      WrittenAt(base, before, upsert, n, j);
      PlacementExactIff(base, quotas, sizes, j);
      SameMembersEnumerate(Slot(upsert, j), PlannedFor(base, UpTargets(quotas, sizes), map[], j), ClustersAbove(quotas, j));
    } else {
      forall i: nat | PolicyName(base, j) == PolicyName(base, i)
        ensures i == j
      {
        PolicyNameInjective(base, j, i);
      }
      WrittenElsewhere(base, before, upsert, n, PolicyName(base, j));
    }
  }

  lemma {:induction false} WrittenOnlyAdds(base: string, before: map<string, Policy>, upsert: map<int, seq<string>>, n: nat)
    ensures before.Keys <= WrittenPolicies(base, before, upsert, n).Keys <= before.Keys + PolicyNames(base, n)
  {
    if n == 0 {
    } else {
      WrittenOnlyAdds(base, before, upsert, n - 1);
    }
  }

  /** A completed write loop places everything exactly if and only if no policy has a higher number and every number
      below the largest count meets the condition of `EndsExact`. */
  lemma {:induction false} WrittenExactIff(base: string, quotas: seq<Quota>, sizes: Option<map<string, int>>,
                                           before: map<string, Policy>, upsert: map<int, seq<string>>)
    requires DistinctClusters(quotas) && IsPlan(base, UpTargets(quotas, sizes), map[], upsert)
    ensures ExactlyPlaced(base, quotas, WrittenPolicies(base, before, upsert, Height(quotas)))
       <==> before.Keys <= PolicyNames(base, Height(quotas)) && forall j: nat :: j < Height(quotas) ==> EndsExact(base, quotas, sizes, before, j)
  {
    var n := Height(quotas);
    var written := WrittenPolicies(base, before, upsert, n);
    PolicyNamesAre(base, n);
    WrittenOnlyAdds(base, before, upsert, n);
    forall j: nat
      ensures StoredExactly(base, quotas, written, j) <==> EndsExact(base, quotas, sizes, before, j)
    {
      StoredExactIff(base, quotas, sizes, before, upsert, n, j);
    }
    if before.Keys <= PolicyNames(base, n) && forall j: nat :: j < n ==> EndsExact(base, quotas, sizes, before, j) {
      AllStoredExactly(base, quotas, written);
    }
    if ExactlyPlaced(base, quotas, written) {
      forall j: nat | j < n
        ensures EndsExact(base, quotas, sizes, before, j)
      {
        assert StoredExactly(base, quotas, written, j);
      }
    }
  }

  lemma {:induction false} AllStoredExactly(base: string, quotas: seq<Quota>, policies: map<string, Policy>)
    requires policies.Keys <= PolicyNames(base, Height(quotas))
    requires forall j: nat :: j < Height(quotas) ==> StoredExactly(base, quotas, policies, j)
    ensures ExactlyPlaced(base, quotas, policies)
  {
    PolicyNamesAre(base, Height(quotas));
    forall name | name in PolicyNames(base, Height(quotas))
      ensures name in policies
    {
      var j := NumberOfPolicy(base, Height(quotas), name);
      assert StoredExactly(base, quotas, policies, j);
    }
    forall j: nat | PolicyName(base, j) in policies
      ensures IsExactPolicy(base, quotas, policies[PolicyName(base, j)], j)
    {
      assert StoredExactly(base, quotas, policies, j);
    }
  }

  /** A growth that drops a placement: "a" goes from one member to two while "b" stays at one, and the policy written
      for service 0 no longer lists "b". */
  lemma {:induction false} GrowthDropsOthers(base: string, before: map<string, Policy>, upsert: map<int, seq<string>>)
    requires IsPlan(base, UpTargets([Quota("a", 2, false), Quota("b", 1, false)], Some(map["a" := 1, "b" := 1])), map[], upsert)
    ensures "b" in ClustersAbove([Quota("a", 2, false), Quota("b", 1, false)], 0)
    ensures PolicyName(base, 0) in WrittenPolicies(base, before, upsert, 2)
    ensures WrittenPolicies(base, before, upsert, 2)[PolicyName(base, 0)] == Policy([ServiceName(base, 0)], ["a"])
  {
    var quotas, sizes := [Quota("a", 2, false), Quota("b", 1, false)], Some(map["a" := 1, "b" := 1]);
    assert quotas[0] in quotas && quotas[1] in quotas;
    PlannedAreGrowing(base, quotas, sizes, 0);
    var planned := PlannedFor(base, UpTargets(quotas, sizes), map[], 0);
    assert planned == {"a"};
    OneEnumerated(Slot(upsert, 0), "a");
    WrittenAt(base, before, upsert, 2, 0);
  }

  lemma OneEnumerated(list: seq<string>, x: string)
    requires Enumerates(list, {x})
    ensures list == [x]
  {
    EnumeratesSize(list, {x});
    assert list[0] in list;
  }
}
