/** The control plane's planner: the sorted scheduler result, the difference with what is printed in the
    host ConfigMap, and the numbered services each growing cluster gets. */
module Placement {
  import opened Outcomes
  import opened Text
  import opened FiniteSets

  /** One entry of the scheduler result. */
  datatype Quota = Quota(cluster: string, replicas: int, arbiter: bool)

  predicate Descending(quotas: seq<Quota>) {
    forall i, j :: 0 <= i < j < |quotas| ==> quotas[i].replicas >= quotas[j].replicas
  }

  predicate DistinctClusters(quotas: seq<Quota>) {
    forall i, j :: 0 <= i < j < |quotas| ==> quotas[i].cluster != quotas[j].cluster
  }

  predicate NonNegative(quotas: seq<Quota>) {
    forall q :: q in quotas ==> q.replicas >= 0
  }

  function Max(a: int, b: int): int {
    if a < b then b else a
  }

  // ---------------------------------------------------------------- sorting

  /** An entry that no other entry exceeds. */
  ghost predicate Largest(q: Quota, rest: multiset<Quota>) {
    q in rest && forall r :: r in rest ==> q.replicas >= r.replicas
  }

  /** sort.Slice in descending order of replicas. The sort is unstable: ties come out in any order. */
  method SortQuotas(quotas: seq<Quota>) returns (sorted: seq<Quota>)
    ensures Descending(sorted)
    ensures multiset(sorted) == multiset(quotas)
  {
    sorted := [];
    var rest := multiset(quotas);
    while rest != multiset{}
      invariant Descending(sorted)
      invariant forall r :: r in rest && sorted != [] ==> sorted[|sorted| - 1].replicas >= r.replicas
      invariant multiset(sorted) + rest == multiset(quotas)
      decreases |rest|
    {
      LargestExists(rest);
      var q :| q in rest && forall r :: r in rest ==> q.replicas >= r.replicas;
      DescendingAppend(sorted, q);
      sorted := sorted + [q];
      rest := rest - multiset{q};
    }
  }

  lemma DescendingAppend(sorted: seq<Quota>, q: Quota)
    requires Descending(sorted)
    requires sorted != [] ==> sorted[|sorted| - 1].replicas >= q.replicas
    ensures Descending(sorted + [q])
  {
    forall i | 0 <= i < |sorted|
      ensures sorted[i].replicas >= q.replicas
    {
      assert i < |sorted| - 1 ==> sorted[i].replicas >= sorted[|sorted| - 1].replicas;
    }
  }

  lemma {:induction false} LargestExists(rest: multiset<Quota>)
    requires rest != multiset{}
    ensures exists q :: Largest(q, rest)
    decreases |rest|
  {
    var q :| q in rest;
    var others := rest - multiset{q};
    if others == multiset{} {
      assert rest == multiset{q};
      assert Largest(q, rest);
    } else {
      LargestExists(others);
      var best :| Largest(best, others);
      assert forall r :: r in rest ==> r == q || r in others;
      assert Largest(if q.replicas >= best.replicas then q else best, rest);
    }
  }

  lemma SameMultisetSameMembers(a: seq<Quota>, b: seq<Quota>)
    requires multiset(a) == multiset(b)
    ensures |a| == |b|
    ensures forall q :: q in a <==> q in b
  {
    assert |a| == |multiset(a)| == |multiset(b)| == |b|;
    assert forall q :: q in a <==> q in multiset(a);
    assert forall q :: q in b <==> q in multiset(b);
  }

  /** Distinctness of the clusters does not depend on the order of the entries. */
  lemma PermutedDistinct(a: seq<Quota>, b: seq<Quota>)
    requires multiset(a) == multiset(b) && DistinctClusters(a)
    ensures DistinctClusters(b)
  {
    SameMultisetSameMembers(a, b);
    forall i, j | 0 <= i < j < |b|
      ensures b[i].cluster != b[j].cluster
    {
      assert b[i] in a && b[j] in a;
      if b[i] == b[j] {
        assert b == b[..i] + [b[i]] + b[i + 1..j] + [b[j]] + b[j + 1..];
        assert multiset(b)[b[i]] >= 2;
        OneOfEach(a, b[i]);
      }
    }
  }

  lemma {:induction false} OneOfEach(quotas: seq<Quota>, q: Quota)
    requires DistinctClusters(quotas)
    ensures multiset(quotas)[q] <= 1
  {
    if quotas == [] {
    } else {
      var n := |quotas| - 1;
      OneOfEach(quotas[..n], q);
      assert quotas == quotas[..n] + [quotas[n]];
      assert quotas[n] !in quotas[..n];
    }
  }

  /** The clusters with a non-zero count, in order. */
  function ActiveClusters(quotas: seq<Quota>): seq<string> {
    if quotas == [] then []
    else
      var last := quotas[|quotas| - 1];
      ActiveClusters(quotas[..|quotas| - 1]) + if last.replicas == 0 then [] else [last.cluster]
  }

  /** The loop that appends the active clusters. */
  method AppendActive(active: seq<string>, quotas: seq<Quota>) returns (after: seq<string>)
    ensures after == active + ActiveClusters(quotas)
  {
    after := active;
    var i := 0;
    while i < |quotas|
      invariant 0 <= i <= |quotas| && after == active + ActiveClusters(quotas[..i])
    {
      assert quotas[..i + 1][..i] == quotas[..i];
      if quotas[i].replicas != 0 {
        after := after + [quotas[i].cluster];
      }
      i := i + 1;
    }
    assert quotas[..i] == quotas;
  }

  // ---------------------------------------------------------------- the difference

  /** An entry that asks for more than the ConfigMap shows. Without a ConfigMap every entry does. */
  predicate Grows(q: Quota, sizes: Option<map<string, int>>) {
    match sizes
    case None => true
    case Some(m) => if q.cluster in m then q.replicas > m[q.cluster] else q.replicas > 0
  }

  predicate Shrinks(q: Quota, sizes: Option<map<string, int>>) {
    sizes.Some? && q.cluster in sizes.value && q.replicas < sizes.value[q.cluster]
  }

  /** clustersToScaleUp: a later entry for the same cluster overwrites an earlier one. */
  function UpTargets(quotas: seq<Quota>, sizes: Option<map<string, int>>): map<string, int> {
    if quotas == [] then map[]
    else
      var last := quotas[|quotas| - 1];
      var before := UpTargets(quotas[..|quotas| - 1], sizes);
      if Grows(last, sizes) then before[last.cluster := last.replicas] else before
  }

  /** clustersToScaleDown. */
  function DownTargets(quotas: seq<Quota>, sizes: Option<map<string, int>>): map<string, int> {
    if quotas == [] then map[]
    else
      var last := quotas[|quotas| - 1];
      var before := DownTargets(quotas[..|quotas| - 1], sizes);
      if Shrinks(last, sizes) then before[last.cluster := last.replicas] else before
  }

  /** The loop that compares the scheduler result with the sizes read from the ConfigMap. */
  method Diff(quotas: seq<Quota>, sizes: Option<map<string, int>>) returns (up: map<string, int>, down: map<string, int>)
    ensures up == UpTargets(quotas, sizes)
    ensures down == DownTargets(quotas, sizes)
  {
    up, down := map[], map[];
    var i := 0;
    while i < |quotas|
      invariant 0 <= i <= |quotas|
      invariant up == UpTargets(quotas[..i], sizes)
      invariant down == DownTargets(quotas[..i], sizes)
    {
      assert quotas[..i + 1][..i] == quotas[..i];
      var q := quotas[i];
      match sizes {
        case None =>
          up := up[q.cluster := q.replicas];
        case Some(found) =>
          if q.cluster !in found {
            if q.replicas > 0 {
              up := up[q.cluster := q.replicas];
            }
          } else {
            if q.replicas > found[q.cluster] {
              up := up[q.cluster := q.replicas];
            }
            if q.replicas < found[q.cluster] {
              down := down[q.cluster := q.replicas];
            }
          }
      }
      i := i + 1;
    }
    assert quotas[..i] == quotas;
  }

  /** With distinct clusters, the growing clusters and their targets are exactly those of the growing entries. */
  lemma {:induction false} UpTargetsExact(quotas: seq<Quota>, sizes: Option<map<string, int>>)
    requires DistinctClusters(quotas)
    ensures forall q :: q in quotas && Grows(q, sizes) ==> q.cluster in UpTargets(quotas, sizes) && UpTargets(quotas, sizes)[q.cluster] == q.replicas
    ensures forall c :: c in UpTargets(quotas, sizes) ==> exists q :: q in quotas && Grows(q, sizes) && q.cluster == c
  {
    if quotas == [] {
    } else {
      var n := |quotas| - 1;
      UpTargetsExact(quotas[..n], sizes);
      assert forall q :: q in quotas ==> q in quotas[..n] || q == quotas[n];
    }
  }

  lemma {:induction false} DownTargetsExact(quotas: seq<Quota>, sizes: Option<map<string, int>>)
    requires DistinctClusters(quotas)
    ensures forall q :: q in quotas && Shrinks(q, sizes) ==> q.cluster in DownTargets(quotas, sizes) && DownTargets(quotas, sizes)[q.cluster] == q.replicas
    ensures forall c :: c in DownTargets(quotas, sizes) ==> exists q :: q in quotas && Shrinks(q, sizes) && q.cluster == c
  {
    if quotas == [] {
    } else {
      var n := |quotas| - 1;
      DownTargetsExact(quotas[..n], sizes);
      assert forall q :: q in quotas ==> q in quotas[..n] || q == quotas[n];
    }
  }

  /** How many lines of the ConfigMap belong to a cluster. */
  function SizeOf(sizes: map<string, int>, cluster: string): int {
    if cluster in sizes then sizes[cluster] else 0
  }

  /** Nothing grows and nothing shrinks exactly when the ConfigMap shows, for every entry, its count. */
  lemma {:induction false} NoDifference(quotas: seq<Quota>, sizes: map<string, int>)
    requires DistinctClusters(quotas)
    requires forall c :: c in sizes ==> sizes[c] > 0
    ensures UpTargets(quotas, Some(sizes)) == map[] && DownTargets(quotas, Some(sizes)) == map[]
       <==> (forall q :: q in quotas ==> SizeOf(sizes, q.cluster) == Max(0, q.replicas))
  {
    UpTargetsExact(quotas, Some(sizes));
    DownTargetsExact(quotas, Some(sizes));
  }

  // ---------------------------------------------------------------- allocation of service numbers

  function ServiceName(base: string, j: nat): string {
    base + "-mongodb-" + Itoa(j)
  }

  /** The names of the services are the instance's name, the infix and the number. */
  lemma ServiceNames(base: string)
    ensures ServiceName(base, 0) == base + "-mongodb-0" && ServiceName(base, 12) == base + "-mongodb-12"
  {
    assert Itoa(1) == "1" && Itoa(12) == "12" && Itoa(0) == "0";
  }

  lemma ServiceNameInjective(base: string, i: nat, j: nat)
    requires ServiceName(base, i) == ServiceName(base, j)
    ensures i == j
  {
    var prefix := base + "-mongodb-";
    assert ServiceName(base, i)[|prefix|..] == Itoa(i);
    assert ServiceName(base, j)[|prefix|..] == Itoa(j);
    ItoaInjective(i, j);
  }

  /** The first number from `i` on whose service name is not in `names`. */
  function FirstFree(base: string, names: set<string>, i: nat): (r: nat)
    ensures i <= r <= i + |names|
    ensures ServiceName(base, r) !in names
    ensures forall k :: i <= k < r ==> ServiceName(base, k) in names
    decreases |names|
  {
    if ServiceName(base, i) !in names then i
    else
      var rest := names - {ServiceName(base, i)};
      assert |rest| == |names| - 1;
      var r := FirstFree(base, rest, i + 1);
      assert ServiceName(base, r) != ServiceName(base, i) by {
        if ServiceName(base, r) == ServiceName(base, i) {
          ServiceNameInjective(base, r, i);
        }
      }
      r
  }

  function NameSet(existing: seq<string>): set<string> {
    set name | name in existing
  }

  lemma {:induction false} NameSetSize(existing: seq<string>)
    ensures |NameSet(existing)| <= |existing|
  {
    if existing == [] {
    } else {
      var n := |existing| - 1;
      NameSetSize(existing[..n]);
      assert NameSet(existing) == NameSet(existing[..n]) + {existing[n]};
    }
  }

  /** How many services, numbered from zero, a cluster gets when it wants `target` and already has `existing`. */
  function Reach(base: string, target: int, existing: seq<string>): nat {
    var need := target - |existing|;
    if need <= 0 then 0 else FirstFree(base, NameSet(existing), need - 1) + 1
  }

  /** The numbers used are below the target; without existing services they are exactly those below the target. */
  lemma ReachInRange(base: string, target: int, existing: seq<string>)
    ensures Reach(base, target, existing) <= Max(0, target)
    ensures existing == [] ==> Reach(base, target, existing) == Max(0, target)
  {
    NameSetSize(existing);
    if existing == [] {
      assert NameSet(existing) == {};
    }
  }

  /** The numbers among the first `n` whose service name is new. */
  function NewNumbers(base: string, existing: seq<string>, n: nat): set<int> {
    set k | 0 <= k < n && ServiceName(base, k) !in existing
  }

  /** The numbers below `n`. */
  function Range(n: nat): (r: set<int>)
    ensures |r| == n
    ensures forall k :: k in r <==> 0 <= k < n
  {
    if n == 0 then {} else Range(n - 1) + {n - 1}
  }

  /** At most `target - |existing|` new names are chosen, exactly that many when none existed, and
      the last number chosen is always a new one. */
  lemma ReachNewNames(base: string, target: int, existing: seq<string>)
    ensures |NewNumbers(base, existing, Reach(base, target, existing))| <= Max(0, target - |existing|)
    ensures existing == [] ==> |NewNumbers(base, existing, Reach(base, target, existing))| == Max(0, target)
    ensures Reach(base, target, existing) > 0 ==> ServiceName(base, Reach(base, target, existing) - 1) !in existing
    ensures Reach(base, target, existing) == 0 <==> target <= |existing|
    ensures forall k: nat :: target - |existing| - 1 <= k < Reach(base, target, existing) - 1 ==> ServiceName(base, k) in existing
    ensures Reach(base, target, existing) >= target - |existing|
  {
    var need := target - |existing|;
    var r := Reach(base, target, existing);
    var chosen := NewNumbers(base, existing, r);
    ReachInRange(base, target, existing);
    if need > 0 {
      forall k | k in chosen
        ensures k < need - 1 || k == r - 1
      {
        assert ServiceName(base, k) !in NameSet(existing);
      }
      SubsetSize(chosen, Range(need - 1) + {r - 1});
      if existing == [] {
        assert chosen == Range(r);
      }
    } else {
      assert chosen == {};
    }
  }

  /** The clusters planned for service number `j`; a missing key of a Go map reads as an empty list. */
  function Slot(upsert: map<int, seq<string>>, j: int): seq<string> {
    if j in upsert then upsert[j] else []
  }

  /** `after` is `before` with `cluster` appended once to every slot below `n`, and nowhere else. */
  ghost predicate AppendedBelow(before: map<int, seq<string>>, after: map<int, seq<string>>, cluster: string, n: int) {
    forall j :: Slot(after, j) == if 0 <= j < n then Slot(before, j) + [cluster] else Slot(before, j)
  }

  lemma AppendedOne(before: map<int, seq<string>>, now: map<int, seq<string>>, cluster: string, j: nat)
    requires AppendedBelow(before, now, cluster, j)
    ensures AppendedBelow(before, now[j := Slot(now, j) + [cluster]], cluster, j + 1)
  {
  }

  /** `taken` and `names` hold the same service names from number `j` on. */
  ghost predicate AgreeFrom(base: string, taken: set<string>, names: set<string>, j: nat) {
    forall k: nat :: k >= j ==> (ServiceName(base, k) in taken <==> ServiceName(base, k) in names)
  }

  lemma AgreeAfterTaking(base: string, taken: set<string>, names: set<string>, j: nat)
    requires AgreeFrom(base, taken, names, j)
    ensures AgreeFrom(base, taken + {ServiceName(base, j)}, names, j + 1)
  {
    forall k: nat | k >= j + 1
      ensures ServiceName(base, k) != ServiceName(base, j)
    {
      if ServiceName(base, k) == ServiceName(base, j) {
        ServiceNameInjective(base, k, j);
      }
    }
  }

  /** The allocation loop for one cluster. Its inner loop skips names that exist, so `j` also moves in the body. */
  method AllocateCluster(base: string, cluster: string, target: int, existing: seq<string>, upsert: map<int, seq<string>>)
    returns (after: map<int, seq<string>>)
    ensures AppendedBelow(upsert, after, cluster, Reach(base, target, existing))
  {
    after := upsert;
    var needCreateSize := target - |existing|;
    var taken := NameSet(existing);
    ghost var names := taken;
    ghost var last := Reach(base, target, existing) - 1;
    var j: nat := 0;
    while j < needCreateSize
      invariant j <= last + 1
      invariant j >= needCreateSize ==> j == last + 1
      invariant AgreeFrom(base, taken, names, j)
      invariant AppendedBelow(upsert, after, cluster, j)
      decreases needCreateSize - j
    {
      var serviceName := ServiceName(base, j);
      while serviceName in taken
        invariant j <= last && serviceName == ServiceName(base, j)
        invariant AgreeFrom(base, taken, names, j)
        invariant AppendedBelow(upsert, after, cluster, j)
        decreases last - j
      {
        AppendedOne(upsert, after, cluster, j);
        after := after[j := Slot(after, j) + [cluster]];
        j := j + 1;
        serviceName := ServiceName(base, j);
      }
      AgreeAfterTaking(base, taken, names, j);
      taken := taken + {serviceName};
      AppendedOne(upsert, after, cluster, j);
      after := after[j := Slot(after, j) + [cluster]];
      j := j + 1;
    }
  }

  // ---------------------------------------------------------------- the plan

  /** A list without duplicates whose members are exactly `members`. */
  ghost predicate Enumerates(list: seq<string>, members: set<string>) {
    && (forall i, j :: 0 <= i < j < |list| ==> list[i] != list[j])
    && (forall x :: x in list <==> x in members)
  }

  function Existing(serviceNames: map<string, seq<string>>, cluster: string): seq<string> {
    if cluster in serviceNames then serviceNames[cluster] else []
  }

  /** The clusters that get service number `j`. */
  function PlannedFor(base: string, up: map<string, int>, serviceNames: map<string, seq<string>>, j: int): set<string> {
    set c | c in up && Reach(base, up[c], Existing(serviceNames, c)) > j
  }

  ghost predicate IsPlan(base: string, up: map<string, int>, serviceNames: map<string, seq<string>>, upsert: map<int, seq<string>>) {
    && (forall j :: j >= 0 ==> Enumerates(Slot(upsert, j), PlannedFor(base, up, serviceNames, j)))
    && (forall j :: j < 0 ==> Slot(upsert, j) == [])
  }

  /** The allocation loop over all growing clusters, which Go visits in an unspecified order. */
  method Allocate(base: string, up: map<string, int>, serviceNames: map<string, seq<string>>) returns (upsert: map<int, seq<string>>)
    ensures IsPlan(base, up, serviceNames, upsert)
  {
    upsert := map[];
    var todo := up.Keys;
    ghost var visited: map<string, int> := map[];
    while todo != {}
      invariant todo <= up.Keys
      invariant visited == map c | c in up && c !in todo :: up[c]
      invariant IsPlan(base, visited, serviceNames, upsert)
      decreases todo
    {
      var cluster :| cluster in todo;
      todo := todo - {cluster};
      ghost var before := upsert;
      ghost var reach := Reach(base, up[cluster], Existing(serviceNames, cluster));
      if up[cluster] != 0 {
        upsert := AllocateCluster(base, cluster, up[cluster], Existing(serviceNames, cluster), upsert);
      } else {
        ReachInRange(base, 0, Existing(serviceNames, cluster));
      }
      PlanGrows(base, visited, serviceNames, before, upsert, cluster, up[cluster]);
      visited := visited[cluster := up[cluster]];
    }
    assert visited == up;
  }

  lemma PlanGrows(base: string, visited: map<string, int>, serviceNames: map<string, seq<string>>,
                  before: map<int, seq<string>>, after: map<int, seq<string>>, cluster: string, target: int)
    requires cluster !in visited
    requires IsPlan(base, visited, serviceNames, before)
    requires AppendedBelow(before, after, cluster, Reach(base, target, Existing(serviceNames, cluster)))
    ensures IsPlan(base, visited[cluster := target], serviceNames, after)
  {
    var up := visited[cluster := target];
    var reach := Reach(base, target, Existing(serviceNames, cluster));
    forall j | j >= 0
      ensures Enumerates(Slot(after, j), PlannedFor(base, up, serviceNames, j))
    {
      assert Enumerates(Slot(before, j), PlannedFor(base, visited, serviceNames, j));
      assert cluster !in PlannedFor(base, visited, serviceNames, j);
      assert PlannedFor(base, up, serviceNames, j) == PlannedFor(base, visited, serviceNames, j) + if j < reach then {cluster} else {};
    }
  }

  // ---------------------------------------------------------------- what the plan achieves

  /** The clusters whose count exceeds `j`: where service number `j` belongs. */
  function ClustersAbove(quotas: seq<Quota>, j: int): set<string> {
    set q | q in quotas && q.replicas > j :: q.cluster
  }

  /** With no service names known, as at the start of a pass, service `j` is planned for exactly the
      growing clusters whose target exceeds `j`. */
  lemma PlannedAreGrowing(base: string, quotas: seq<Quota>, sizes: Option<map<string, int>>, j: nat)
    requires DistinctClusters(quotas)
    ensures PlannedFor(base, UpTargets(quotas, sizes), map[], j)
         == set q | q in quotas && Grows(q, sizes) && q.replicas > j :: q.cluster
  {
    var up := UpTargets(quotas, sizes);
    UpTargetsExact(quotas, sizes);
    forall c | c in up
      ensures Reach(base, up[c], Existing(map[], c)) == Max(0, up[c])
    {
      ReachInRange(base, up[c], []);
    }
  }

  /** The cluster list written for service `j` is exact if and only if every cluster that needs the service
      grows. When only some clusters grow, the others are dropped from the policies that are rewritten. */
  lemma PlacementExactIff(base: string, quotas: seq<Quota>, sizes: Option<map<string, int>>, j: nat)
    requires DistinctClusters(quotas)
    ensures PlannedFor(base, UpTargets(quotas, sizes), map[], j) == ClustersAbove(quotas, j)
       <==> (forall q :: q in quotas && q.replicas > j ==> Grows(q, sizes))
  {
    PlannedAreGrowing(base, quotas, sizes, j);
    var planned := PlannedFor(base, UpTargets(quotas, sizes), map[], j);
    if planned == ClustersAbove(quotas, j) {
      forall q | q in quotas && q.replicas > j
        ensures Grows(q, sizes)
      {
        assert q.cluster in ClustersAbove(quotas, j);
        var p :| p in quotas && Grows(p, sizes) && p.replicas > j && p.cluster == q.cluster;
        assert p == q;
      }
    }
  }

  /** On creation the placement is exact, and the cluster lists shrink as the number grows. */
  lemma CreationPlacement(base: string, quotas: seq<Quota>, j: nat)
    requires DistinctClusters(quotas)
    ensures PlannedFor(base, UpTargets(quotas, None), map[], j) == ClustersAbove(quotas, j)
    ensures ClustersAbove(quotas, j + 1) <= ClustersAbove(quotas, j)
  {
    PlacementExactIff(base, quotas, None, j);
  }

  /** The write loop stops at the first sorted entry's count; nothing is planned beyond it. */
  lemma NothingPlannedBeyondFirst(base: string, quotas: seq<Quota>, sizes: Option<map<string, int>>,
                                  serviceNames: map<string, seq<string>>, j: nat)
    requires DistinctClusters(quotas) && Descending(quotas) && quotas != []
    requires PlannedFor(base, UpTargets(quotas, sizes), serviceNames, j) != {}
    ensures j < quotas[0].replicas
  {
    var up := UpTargets(quotas, sizes);
    var c :| c in PlannedFor(base, up, serviceNames, j);
    UpTargetsExact(quotas, sizes);
    ReachInRange(base, up[c], Existing(serviceNames, c));
    var q :| q in quotas && Grows(q, sizes) && q.cluster == c;
    assert quotas[0].replicas >= q.replicas;
  }

  function Total(quotas: seq<Quota>): int {
    if quotas == [] then 0 else Total(quotas[..|quotas| - 1]) + quotas[|quotas| - 1].replicas
  }

  /** The number of placements planned for the service numbers below `n`. */
  function PlannedTotal(upsert: map<int, seq<string>>, n: nat): nat {
    if n == 0 then 0 else PlannedTotal(upsert, n - 1) + |Slot(upsert, n - 1)|
  }

  /** Conservation: the planned placements add up to the scheduler's total. */
  lemma PlanConserves(base: string, quotas: seq<Quota>, upsert: map<int, seq<string>>)
    requires DistinctClusters(quotas) && Descending(quotas) && NonNegative(quotas) && quotas != []
    requires IsPlan(base, UpTargets(quotas, None), map[], upsert)
    ensures PlannedTotal(upsert, quotas[0].replicas) == Total(quotas)
  {
    var n: nat := quotas[0].replicas;
    PlannedTotalIsClamped(base, quotas, upsert, n);
    ClampedIsTotal(quotas, n);
  }

  /** The sum of the counts, each cut off at `n`. */
  function Clamped(quotas: seq<Quota>, n: nat): int {
    if quotas == [] then 0
    else
      var r := quotas[|quotas| - 1].replicas;
      Clamped(quotas[..|quotas| - 1], n) + if r < n then r else n
  }

  lemma {:induction false} ClampedIsTotal(quotas: seq<Quota>, n: nat)
    requires forall q :: q in quotas ==> q.replicas <= n
    ensures Clamped(quotas, n) == Total(quotas)
  {
    if quotas == [] {
    } else {
      ClampedIsTotal(quotas[..|quotas| - 1], n);
    }
  }

  lemma {:induction false} ClampedStep(quotas: seq<Quota>, n: nat)
    requires DistinctClusters(quotas)
    ensures Clamped(quotas, n + 1) == Clamped(quotas, n) + |ClustersAbove(quotas, n)|
  {
    if quotas == [] {
      assert ClustersAbove(quotas, n) == {};
    } else {
      var k := |quotas| - 1;
      var before := quotas[..k];
      ClampedStep(before, n);
      assert forall q :: q in quotas <==> q in before || q == quotas[k];
      assert quotas[k].cluster !in ClustersAbove(before, n);
      assert ClustersAbove(quotas, n)
          == ClustersAbove(before, n) + if quotas[k].replicas > n then {quotas[k].cluster} else {};
    }
  }

  lemma {:induction false} ClampedAtZero(quotas: seq<Quota>)
    requires NonNegative(quotas)
    ensures Clamped(quotas, 0) == 0
  {
    if quotas == [] {
    } else {
      ClampedAtZero(quotas[..|quotas| - 1]);
    }
  }

  /** Counting placements by service number and by cluster gives the same total, as for a partition and its conjugate. */
  lemma {:induction false} PlannedTotalIsClamped(base: string, quotas: seq<Quota>, upsert: map<int, seq<string>>, n: nat)
    requires DistinctClusters(quotas) && NonNegative(quotas)
    requires IsPlan(base, UpTargets(quotas, None), map[], upsert)
    ensures PlannedTotal(upsert, n) == Clamped(quotas, n)
  {
    if n == 0 {
      ClampedAtZero(quotas);
    } else {
      PlannedTotalIsClamped(base, quotas, upsert, n - 1);
      ClampedStep(quotas, n - 1);
      CreationPlacement(base, quotas, n - 1);
      EnumeratesSize(Slot(upsert, n - 1), ClustersAbove(quotas, n - 1));
    }
  }

  lemma {:induction false} EnumeratesSize(list: seq<string>, members: set<string>)
    requires Enumerates(list, members)
    ensures |list| == |members|
  {
    if list == [] {
      assert members == {};
    } else {
      var n := |list| - 1;
      assert list[n] in members && list[n] !in list[..n];
      EnumeratesSize(list[..n], members - {list[n]});
    }
  }

  // ---------------------------------------------------------------- static weights

  datatype Weight = Weight(cluster: string, weight: int)

  /** One weight for every entry with a non-zero count. */
  function AllWeights(quotas: seq<Quota>): seq<Weight> {
    if quotas == [] then []
    else
      var last := quotas[|quotas| - 1];
      AllWeights(quotas[..|quotas| - 1]) + if last.replicas == 0 then [] else [Weight(last.cluster, last.replicas)]
  }

  /** The index of the first zero count. */
  function FirstZero(quotas: seq<Quota>): (z: nat)
    ensures z <= |quotas| && (z < |quotas| ==> quotas[z].replicas == 0)
    ensures forall i :: 0 <= i < z ==> quotas[i].replicas != 0
  {
    if quotas == [] || quotas[0].replicas == 0 then 0 else FirstZero(quotas[1..]) + 1
  }

  /** The loop of GenerateMongoPP stops at the first zero count. */
  method StaticWeights(quotas: seq<Quota>) returns (weights: seq<Weight>)
    ensures weights == AllWeights(quotas[..FirstZero(quotas)])
  {
    weights := [];
    var i := 0;
    while i < |quotas|
      invariant 0 <= i <= FirstZero(quotas)
      invariant weights == AllWeights(quotas[..i])
    {
      if quotas[i].replicas == 0 {
        break;
      }
      assert quotas[..i + 1][..i] == quotas[..i];
      weights := weights + [Weight(quotas[i].cluster, quotas[i].replicas)];
      i := i + 1;
    }
    assert i == FirstZero(quotas);
  }

  /** Stopping at `stop` loses a weight exactly when a non-zero count comes later. */
  lemma {:induction false} BreakLosesNothing(quotas: seq<Quota>, stop: nat)
    requires stop <= |quotas|
    ensures |AllWeights(quotas[..stop])| <= |AllWeights(quotas)|
    ensures AllWeights(quotas[..stop]) == AllWeights(quotas) <==> forall i :: stop <= i < |quotas| ==> quotas[i].replicas == 0
  {
    var n := |quotas| - 1;
    if stop == |quotas| {
      assert quotas[..stop] == quotas;
    } else {
      BreakLosesNothing(quotas[..n], stop);
      assert quotas[..n][..stop] == quotas[..stop];
      if quotas[n].replicas != 0 {
        assert |AllWeights(quotas)| > |AllWeights(quotas[..n])|;
      }
    }
  }

  function WeightSum(weights: seq<Weight>): int {
    if weights == [] then 0 else WeightSum(weights[..|weights| - 1]) + weights[|weights| - 1].weight
  }

  lemma {:induction false} WeightsFollowActive(quotas: seq<Quota>)
    ensures |AllWeights(quotas)| == |ActiveClusters(quotas)|
    ensures forall i :: 0 <= i < |ActiveClusters(quotas)| ==> AllWeights(quotas)[i].cluster == ActiveClusters(quotas)[i]
  {
    if quotas == [] {
    } else {
      WeightsFollowActive(quotas[..|quotas| - 1]);
    }
  }

  /** Without zero counts the weights are the entries. */
  lemma {:induction false} WeightsOfPositive(quotas: seq<Quota>)
    requires forall i :: 0 <= i < |quotas| ==> quotas[i].replicas != 0
    ensures |AllWeights(quotas)| == |quotas|
    ensures forall i :: 0 <= i < |quotas| ==> AllWeights(quotas)[i] == Weight(quotas[i].cluster, quotas[i].replicas)
  {
    if quotas == [] {
    } else {
      WeightsOfPositive(quotas[..|quotas| - 1]);
    }
  }

  /** Each weight is the count of its cluster. */
  lemma {:induction false} WeightIsCount(quotas: seq<Quota>, i: nat)
    requires i < |AllWeights(quotas)|
    ensures exists q :: q in quotas && q.replicas != 0 && AllWeights(quotas)[i] == Weight(q.cluster, q.replicas)
  {
    var n := |quotas| - 1;
    if i < |AllWeights(quotas[..n])| {
      WeightIsCount(quotas[..n], i);
      var q :| q in quotas[..n] && q.replicas != 0 && AllWeights(quotas[..n])[i] == Weight(q.cluster, q.replicas);
      assert q in quotas;
    } else {
      assert quotas[n] in quotas && AllWeights(quotas)[i] == Weight(quotas[n].cluster, quotas[n].replicas);
    }
  }

  lemma {:induction false} WeightsAddUp(quotas: seq<Quota>)
    ensures WeightSum(AllWeights(quotas)) == Total(quotas)
  {
    if quotas == [] {
    } else {
      var n := |quotas| - 1;
      WeightsAddUp(quotas[..n]);
      var weights := AllWeights(quotas);
      if quotas[n].replicas == 0 {
        assert weights == AllWeights(quotas[..n]);
      } else {
        assert weights[..|weights| - 1] == AllWeights(quotas[..n]);
      }
    }
  }

  /** On a sorted, non-negative scheduler result the `break` loses nothing: the weights are the active clusters
      in order and they add up to the scheduler's total. */
  lemma {:induction false} SortedWeights(quotas: seq<Quota>)
    requires Descending(quotas) && NonNegative(quotas)
    ensures AllWeights(quotas[..FirstZero(quotas)]) == AllWeights(quotas)
    ensures |AllWeights(quotas)| == |ActiveClusters(quotas)| == FirstZero(quotas)
    ensures forall i :: 0 <= i < FirstZero(quotas) ==> AllWeights(quotas)[i] == Weight(quotas[i].cluster, quotas[i].replicas)
    ensures forall i :: 0 <= i < FirstZero(quotas) ==> ActiveClusters(quotas)[i] == quotas[i].cluster
    ensures WeightSum(AllWeights(quotas)) == Total(quotas)
  {
    var z := FirstZero(quotas);
    forall i | z <= i < |quotas|
      ensures quotas[i].replicas == 0
    {
      assert quotas[i] in quotas && quotas[z].replicas >= quotas[i].replicas;
    }
    BreakLosesNothing(quotas, z);
    WeightsFollowActive(quotas);
    WeightsOfPositive(quotas[..z]);
    WeightsAddUp(quotas);
  }
}
