/** Sorting the pods of a replica set into buckets by their ordinals and states. */
module PodBuckets {
  import opened Outcomes
  import opened Ordinals

  datatype PodPhase = PodPending | PodRunning | PodOther

  /** A pod, with the ordinal its name carries. */
  datatype Pod = Pod(name: string, ordinal: int, phase: PodPhase, ready: bool, terminating: bool)

  /** The ordinals are those getParentNameAndOrdinal finds. */
  ghost predicate Parsed(pods: seq<Pod>) {
    forall p :: p in pods ==> p.ordinal == ParentAndOrdinal(p.name).1
  }

  datatype Bucket = Bucket(miss: seq<nat>, ok: seq<Pod>, pending: seq<Pod>, failed: seq<Pod>, redundant: seq<Pod>)

  predicate PodFilterOk(pod: Pod) {
    pod.phase == PodRunning && pod.ready && !pod.terminating
  }

  predicate PodFilterTerminatingOrPending(pod: Pod) {
    pod.terminating || pod.phase == PodPending
  }

  predicate PodFilterFailed(pod: Pod) {
    !pod.terminating && !(pod.phase == PodRunning || pod.phase == PodPending)
  }

  predicate Ascending(pods: seq<Pod>) {
    forall i, j :: 0 <= i < j < |pods| ==> pods[i].ordinal <= pods[j].ordinal
  }

  predicate DistinctOrdinals(pods: seq<Pod>) {
    forall i, j :: 0 <= i < j < |pods| ==> pods[i].ordinal != pods[j].ordinal
  }

  predicate Numbered(pods: seq<Pod>) {
    forall i :: 0 <= i < |pods| ==> pods[i].ordinal >= 0
  }

  // ---------------------------------------------------------------- filters

  function Filter(pods: seq<Pod>, filter: Pod -> bool): seq<Pod> {
    if pods == [] then []
    else Filter(pods[..|pods| - 1], filter) + if filter(pods[|pods| - 1]) then [pods[|pods| - 1]] else []
  }

  lemma {:induction false} FilterExact(pods: seq<Pod>, filter: Pod -> bool)
    ensures forall p :: p in Filter(pods, filter) <==> p in pods && filter(p)
  {
    if pods == [] {
    } else {
      var n := |pods| - 1;
      FilterExact(pods[..n], filter);
      assert pods == pods[..n] + [pods[n]];
    }
  }

  /** A filter keeps the order: it treats two lists one after the other, and one pod by itself. */
  lemma {:induction false} FilterInOrder(a: seq<Pod>, b: seq<Pod>, p: Pod, filter: Pod -> bool)
    ensures Filter([p], filter) == if filter(p) then [p] else []
    ensures Filter(a + b, filter) == Filter(a, filter) + Filter(b, filter)
  {
    assert [p][..0] == [];
    if b == [] {
      assert a + b == a;
    } else {
      var n := |b| - 1;
      FilterInOrder(a, b[..n], p, filter);
      assert (a + b)[..|a + b| - 1] == a + b[..n];
    }
  }

  predicate PassesAll(pod: Pod, filters: seq<Pod -> bool>) {
    forall k :: 0 <= k < |filters| ==> filters[k](pod)
  }

  /** PodFilter, with any number of filters: the pods that pass them all. */
  method PodFilter(pods: seq<Pod>, filters: seq<Pod -> bool>) returns (result: seq<Pod>)
    ensures result == Filter(pods, (p: Pod) => PassesAll(p, filters))
  {
    ghost var all := (p: Pod) => PassesAll(p, filters);
    result := [];
    var i := 0;
    while i < |pods|
      invariant 0 <= i <= |pods| && result == Filter(pods[..i], all)
    {
      assert pods[..i + 1][..i] == pods[..i];
      var flag := true;
      var k := 0;
      while k < |filters| && flag
        invariant 0 <= k <= |filters|
        invariant flag ==> PassesAll(pods[i], filters[..k])
        invariant !flag ==> !PassesAll(pods[i], filters)
      {
        flag := filters[k](pods[i]);
        k := k + 1;
      }
      assert flag ==> filters[..k] == filters;
      if flag {
        result := result + [pods[i]];
      }
      i := i + 1;
    }
    assert pods[..i] == pods;
  }

  lemma {:induction false} OneFilter(pods: seq<Pod>, filter: Pod -> bool)
    ensures Filter(pods, (p: Pod) => PassesAll(p, [filter])) == Filter(pods, filter)
  {
    if pods == [] {
    } else {
      OneFilter(pods[..|pods| - 1], filter);
      var last := pods[|pods| - 1];
      assert PassesAll(last, [filter]) <==> [filter][0](last);
    }
  }

  function Names(pods: seq<Pod>): set<string> {
    if pods == [] then {} else Names(pods[..|pods| - 1]) + {pods[|pods| - 1].name}
  }

  lemma {:induction false} NamesExact(pods: seq<Pod>)
    ensures forall name :: name in Names(pods) <==> exists k :: 0 <= k < |pods| && pods[k].name == name
  {
    if pods == [] {
    } else {
      NamesExact(pods[..|pods| - 1]);
    }
  }

  /** PodRest: the pods whose name no pod of the second list has. */
  method PodRest(pods: seq<Pod>, podsSub: seq<Pod>) returns (result: seq<Pod>)
    ensures result == Filter(pods, (p: Pod) => p.name !in Names(podsSub))
  {
    var names: set<string> := {};
    var k := 0;
    while k < |podsSub|
      invariant 0 <= k <= |podsSub| && names == Names(podsSub[..k])
    {
      assert podsSub[..k + 1][..k] == podsSub[..k];
      names := names + {podsSub[k].name};
      k := k + 1;
    }
    assert podsSub[..k] == podsSub;
    ghost var filter := (p: Pod) => p.name !in Names(podsSub);
    result := [];
    var i := 0;
    while i < |pods|
      invariant 0 <= i <= |pods| && result == Filter(pods[..i], filter)
    {
      assert pods[..i + 1][..i] == pods[..i];
      if pods[i].name !in names {
        result := result + [pods[i]];
      }
      i := i + 1;
    }
    assert pods[..i] == pods;
  }

  // ---------------------------------------------------------------- slots

  /** The pod in slot `i`: the last one with that ordinal. */
  function SlotOf(pods: seq<Pod>, i: nat): Option<Pod> {
    if pods == [] then None
    else if pods[|pods| - 1].ordinal == i then Some(pods[|pods| - 1])
    else SlotOf(pods[..|pods| - 1], i)
  }

  function Slots(pods: seq<Pod>, n: nat): (r: seq<Option<Pod>>)
    ensures |r| == n && forall i :: 0 <= i < n ==> r[i] == SlotOf(pods, i)
  {
    seq(n, i requires 0 <= i < n => SlotOf(pods, i))
  }

  function Redundant(pods: seq<Pod>, n: nat): seq<Pod> {
    Filter(pods, (p: Pod) => p.ordinal >= n)
  }

  function Missing(pods: seq<Pod>, n: nat): seq<nat> {
    if n == 0 then [] else Missing(pods, n - 1) + if SlotOf(pods, n - 1).None? then [n - 1] else []
  }

  function Existing(pods: seq<Pod>, n: nat): seq<Pod> {
    if n == 0 then []
    else Existing(pods, n - 1) + match SlotOf(pods, n - 1) case Some(p) => [p] case None => []
  }

  /** The buckets of a sorted list. */
  function BucketOf(pods: seq<Pod>, n: nat): Bucket {
    Bucket(Missing(pods, n),
           Filter(Existing(pods, n), PodFilterOk),
           Filter(Existing(pods, n), PodFilterTerminatingOrPending),
           Filter(Existing(pods, n), PodFilterFailed),
           Redundant(pods, n))
  }

  lemma {:induction false} SlotExact(pods: seq<Pod>, i: nat)
    ensures match SlotOf(pods, i)
            case Some(p) => p in pods && p.ordinal == i
            case None => forall p :: p in pods ==> p.ordinal != i
  {
    if pods == [] {
    } else {
      var n := |pods| - 1;
      SlotExact(pods[..n], i);
      assert pods == pods[..n] + [pods[n]];
    }
  }

  /** Of several pods with one number the last one takes the slot. */
  lemma {:induction false} SlotLast(pods: seq<Pod>, i: nat, k: nat)
    requires k < |pods| && pods[k].ordinal == i && forall j :: k < j < |pods| ==> pods[j].ordinal != i
    ensures SlotOf(pods, i) == Some(pods[k])
  {
    var n := |pods| - 1;
    if k < n {
      assert pods[n].ordinal != i;
      SlotLast(pods[..n], i, k);
    }
  }

  lemma {:induction false} MissingIsEmpty(pods: seq<Pod>, n: nat)
    ensures forall k :: 0 <= k < |Missing(pods, n)| ==> Missing(pods, n)[k] < n && SlotOf(pods, Missing(pods, n)[k]).None?
    ensures forall i: nat :: i < n && SlotOf(pods, i).None? ==> i in Missing(pods, n)
    ensures forall a, b :: 0 <= a < b < |Missing(pods, n)| ==> Missing(pods, n)[a] < Missing(pods, n)[b]
  {
    if n == 0 {
    } else {
      MissingIsEmpty(pods, n - 1);
    }
  }

  /** Miss is exactly the unused numbers below the expected count, in ascending order. */
  lemma MissingExact(pods: seq<Pod>, n: nat)
    ensures forall i: nat :: i in Missing(pods, n) <==> i < n && forall p :: p in pods ==> p.ordinal != i
    ensures forall a, b :: 0 <= a < b < |Missing(pods, n)| ==> Missing(pods, n)[a] < Missing(pods, n)[b]
  {
    MissingIsEmpty(pods, n);
    forall i: nat
      ensures i in Missing(pods, n) <==> i < n && forall p :: p in pods ==> p.ordinal != i
    {
      SlotExact(pods, i);
    }
  }

  lemma {:induction false} ExistingExact(pods: seq<Pod>, n: nat)
    ensures forall p :: p in Existing(pods, n) ==> p in pods && 0 <= p.ordinal < n
  {
    if n == 0 {
    } else {
      ExistingExact(pods, n - 1);
      SlotExact(pods, n - 1);
    }
  }

  lemma {:induction false} SlotsFilledOrMissed(pods: seq<Pod>, n: nat)
    ensures |Existing(pods, n)| + |Missing(pods, n)| == n
  {
    if n == 0 {
    } else {
      SlotsFilledOrMissed(pods, n - 1);
    }
  }

  /** Removing the redundant pods from the healthy ones by name removes nothing: equal names have equal ordinals. */
  lemma {:induction false} RestChangesNothing(some: seq<Pod>, redundant: seq<Pod>, n: nat)
    requires Parsed(some) && forall p :: p in some ==> p.ordinal < n
    requires Parsed(redundant) && forall p :: p in redundant ==> p.ordinal >= n
    ensures Filter(some, (p: Pod) => p.name !in Names(redundant)) == some
  {
    if some == [] {
    } else {
      var last := |some| - 1;
      RestChangesNothing(some[..last], redundant, n);
      NotNamed(redundant, some[last], n);
      assert some == some[..last] + [some[last]];
    }
  }

  lemma {:induction false} NotNamed(redundant: seq<Pod>, p: Pod, n: nat)
    requires ParentAndOrdinal(p.name).1 == p.ordinal < n
    requires Parsed(redundant) && forall q :: q in redundant ==> q.ordinal >= n
    ensures p.name !in Names(redundant)
  {
    if redundant == [] {
    } else {
      NotNamed(redundant[..|redundant| - 1], p, n);
      assert redundant[|redundant| - 1] in redundant;
    }
  }

  // ---------------------------------------------------------------- counting

  function CountAt(pods: seq<Pod>, i: nat): nat {
    if pods == [] then 0 else CountAt(pods[..|pods| - 1], i) + if pods[|pods| - 1].ordinal == i then 1 else 0
  }

  lemma {:induction false} CountAtIsSlot(pods: seq<Pod>, i: nat)
    requires DistinctOrdinals(pods)
    ensures CountAt(pods, i) == if SlotOf(pods, i).Some? then 1 else 0
  {
    if pods == [] {
    } else {
      var n := |pods| - 1;
      CountAtIsSlot(pods[..n], i);
      SlotExact(pods[..n], i);
    }
  }

  lemma {:induction false} RedundantStep(pods: seq<Pod>, n: nat)
    ensures |Redundant(pods, n)| == |Redundant(pods, n + 1)| + CountAt(pods, n)
  {
    if pods == [] {
    } else {
      RedundantStep(pods[..|pods| - 1], n);
    }
  }

  lemma {:induction false} AllRedundant(pods: seq<Pod>)
    requires Numbered(pods)
    ensures |Redundant(pods, 0)| == |pods|
  {
    if pods == [] {
    } else {
      AllRedundant(pods[..|pods| - 1]);
    }
  }

  lemma {:induction false} NoneLost(pods: seq<Pod>, n: nat)
    requires Numbered(pods) && DistinctOrdinals(pods)
    ensures |pods| == |Redundant(pods, n)| + |Existing(pods, n)|
  {
    if n == 0 {
      AllRedundant(pods);
    } else {
      NoneLost(pods, n - 1);
      RedundantStep(pods, n - 1);
      CountAtIsSlot(pods, n - 1);
    }
  }

  /** For pods with distinct ordinals nothing is lost: every pod is in a slot or redundant, and every slot is filled
      or missed. */
  lemma BucketsAddUp(pods: seq<Pod>, n: nat)
    requires Numbered(pods) && DistinctOrdinals(pods)
    ensures |pods| == |Redundant(pods, n)| + |Existing(pods, n)|
    ensures |pods| == |Redundant(pods, n)| + n - |Missing(pods, n)|
  {
    NoneLost(pods, n);
    SlotsFilledOrMissed(pods, n);
  }

  /** The pod holds the slot of its number: no later one has the same. */
  predicate HoldsSlot(pods: seq<Pod>, n: nat, p: Pod) {
    0 <= p.ordinal < n && SlotOf(pods, p.ordinal) == Some(p)
  }

  /** Running, but neither ready nor terminating. */
  predicate Starting(p: Pod) {
    p.phase == PodRunning && !p.ready && !p.terminating
  }

  lemma {:induction false} ExistingHolds(pods: seq<Pod>, n: nat, p: Pod)
    ensures p in Existing(pods, n) <==> HoldsSlot(pods, n, p)
  {
    if n == 0 {
    } else {
      ExistingHolds(pods, n - 1, p);
      SlotExact(pods, n - 1);
    }
  }

  /** Every pod is in at most one bucket. It is in none exactly when its number is below the expected count and either
      a later pod took its slot or it is starting. */
  lemma {:induction false} BucketsPartition(pods: seq<Pod>, n: nat, p: Pod)
    requires p in pods
    ensures var b := BucketOf(pods, n);
            && !(p in b.ok && p in b.pending) && !(p in b.ok && p in b.failed) && !(p in b.pending && p in b.failed)
            && (p in b.ok <==> HoldsSlot(pods, n, p) && p.phase == PodRunning && p.ready && !p.terminating)
            && (p in b.pending <==> HoldsSlot(pods, n, p) && (p.terminating || p.phase == PodPending))
            && (p in b.failed <==> HoldsSlot(pods, n, p) && !p.terminating && p.phase == PodOther)
            && (p in b.redundant <==> p.ordinal >= n)
            && (p in b.redundant ==> p !in b.ok && p !in b.pending && p !in b.failed)
            && (p in b.ok || p in b.pending || p in b.failed || p in b.redundant
                <==> p.ordinal >= n || (HoldsSlot(pods, n, p) && !Starting(p)))
  {
    var existing := Existing(pods, n);
    ExistingHolds(pods, n, p);
    FilterExact(existing, PodFilterOk);
    FilterExact(existing, PodFilterTerminatingOrPending);
    FilterExact(existing, PodFilterFailed);
    FilterExact(pods, (p: Pod) => p.ordinal >= n);
  }

  lemma {:induction false} OwnSlot(pods: seq<Pod>, p: Pod)
    requires DistinctOrdinals(pods) && p in pods && p.ordinal >= 0
    ensures SlotOf(pods, p.ordinal) == Some(p)
  {
    var n := |pods| - 1;
    assert pods == pods[..n] + [pods[n]];
    if pods[n] != p {
      OwnSlot(pods[..n], p);
    }
  }

  /** With distinct non-negative ordinals only a starting pod can be in no bucket. */
  lemma {:induction false} UnlistedIff(pods: seq<Pod>, n: nat, p: Pod)
    requires Numbered(pods) && DistinctOrdinals(pods) && p in pods
    ensures var b := BucketOf(pods, n);
            p !in b.ok && p !in b.pending && p !in b.failed && p !in b.redundant <==> p.ordinal < n && Starting(p)
  {
    OwnSlot(pods, p);
    BucketsPartition(pods, n, p);
  }

  /** One expected pod that is starting: it is in no bucket, and its number is not missed either. */
  lemma {:induction false} StartingIsUnlisted(name: string)
    ensures BucketOf([Pod(name, 0, PodRunning, false, false)], 1) == Bucket([], [], [], [], [])
  {
    var p := Pod(name, 0, PodRunning, false, false);
    assert SlotOf([p], 0) == Some(p);
    assert Missing([p], 0) == [] && Existing([p], 0) == [];
    assert Missing([p], 1) == [] && Existing([p], 1) == [p];
    OnePod(p, PodFilterOk);
    OnePod(p, PodFilterTerminatingOrPending);
    OnePod(p, PodFilterFailed);
    OnePod(p, (q: Pod) => q.ordinal >= 1);
  }

  lemma {:induction false} OnePod(p: Pod, filter: Pod -> bool)
    ensures Filter([p], filter) == if filter(p) then [p] else []
  {
    assert [p][..0] == [] && Filter([], filter) == [];
  }

  // ---------------------------------------------------------------- the method

  /** sort.Slice: equal ordinals come out in any order. */
  method SortedById(pods: seq<Pod>) returns (sorted: seq<Pod>)
    ensures Ascending(sorted) && multiset(sorted) == multiset(pods)
  {
    sorted := [];
    var rest := multiset(pods);
    while rest != multiset{}
      invariant Ascending(sorted)
      invariant forall r :: r in rest && sorted != [] ==> sorted[|sorted| - 1].ordinal <= r.ordinal
      invariant multiset(sorted) + rest == multiset(pods)
      decreases |rest|
    {
      SmallestExists(rest);
      var p :| p in rest && forall r :: r in rest ==> p.ordinal <= r.ordinal;
      AscendingAppend(sorted, p);
      sorted := sorted + [p];
      rest := rest - multiset{p};
    }
  }

  /** PodSorter, in place. */
  method SortById(pods: array<Pod>)
    modifies pods
    ensures Ascending(pods[..]) && multiset(pods[..]) == multiset(old(pods[..]))
  {
    var sorted := SortedById(pods[..]);
    assert |sorted| == |multiset(sorted)| == |multiset(pods[..])| == pods.Length;
    forall i | 0 <= i < pods.Length {
      pods[i] := sorted[i];
    }
    assert pods[..] == sorted;
  }

  lemma AscendingAppend(sorted: seq<Pod>, p: Pod)
    requires Ascending(sorted)
    requires sorted != [] ==> sorted[|sorted| - 1].ordinal <= p.ordinal
    ensures Ascending(sorted + [p])
  {
    forall i | 0 <= i < |sorted|
      ensures sorted[i].ordinal <= p.ordinal
    {
      assert i < |sorted| - 1 ==> sorted[i].ordinal <= sorted[|sorted| - 1].ordinal;
    }
  }

  ghost predicate Smallest(p: Pod, rest: multiset<Pod>) {
    p in rest && forall r :: r in rest ==> p.ordinal <= r.ordinal
  }

  lemma {:induction false} SmallestExists(rest: multiset<Pod>)
    requires rest != multiset{}
    ensures exists p :: Smallest(p, rest)
    decreases |rest|
  {
    var q :| q in rest;
    var others := rest - multiset{q};
    assert forall r :: r in rest ==> r == q || r in others;
    if others == multiset{} {
      assert Smallest(q, rest);
    } else {
      SmallestExists(others);
      var best :| Smallest(best, others);
      var i, j := q.ordinal, best.ordinal;
      if i <= j {
        assert Smallest(q, rest);
      } else {
        assert Smallest(best, rest);
      }
    }
  }

  /** The loop that fills the slots; a pod without an ordinal indexes the slice at -1. */
  method FillSlots(pods: seq<Pod>, n: nat) returns (outcome: Outcome, list: seq<Option<Pod>>, redundant: seq<Pod>)
    ensures outcome == if Numbered(pods) then Done else Panicked
    ensures outcome.Done? ==> list == Slots(pods, n) && redundant == Redundant(pods, n)
  {
    list, redundant := seq(n, i => None), [];
    var k := 0;
    while k < |pods|
      invariant 0 <= k <= |pods| && Numbered(pods[..k])
      invariant list == Slots(pods[..k], n) && redundant == Redundant(pods[..k], n)
    {
      assert pods[..k + 1][..k] == pods[..k];
      var i := pods[k].ordinal;
      if i >= n {
        redundant := redundant + [pods[k]];
      } else if i < 0 {
        return Panicked, [], [];
      } else {
        list := list[i := Some(pods[k])];
      }
      k := k + 1;
    }
    assert pods[..k] == pods;
    outcome := Done;
  }

  /** The rest of PodClassify: from the slots to the buckets. */
  method FillBucket(ghost pods: seq<Pod>, list: seq<Option<Pod>>, redundant: seq<Pod>) returns (bucket: Bucket)
    requires Parsed(pods) && list == Slots(pods, |list|) && redundant == Redundant(pods, |list|)
    ensures bucket == BucketOf(pods, |list|)
  {
    var miss: seq<nat>, existList: seq<Pod> := [], [];
    var i := 0;
    while i < |list|
      invariant 0 <= i <= |list|
      invariant miss == Missing(pods, i) && existList == Existing(pods, i)
    {
      match list[i] {
        case None => miss := miss + [i];
        case Some(p) => existList := existList + [p];
      }
      i := i + 1;
    }
    OneFilter(existList, PodFilterOk);
    OneFilter(existList, PodFilterTerminatingOrPending);
    OneFilter(existList, PodFilterFailed);
    var healthy := PodFilter(existList, [PodFilterOk]);
    var ok := PodRest(healthy, redundant);
    HealthyStay(pods, |list|);
    var pending := PodFilter(existList, [PodFilterTerminatingOrPending]);
    var failed := PodFilter(existList, [PodFilterFailed]);
    bucket := Bucket(miss, ok, pending, failed, redundant);
  }

  lemma HealthyStay(pods: seq<Pod>, n: nat)
    requires Parsed(pods)
    ensures var healthy := Filter(Existing(pods, n), PodFilterOk);
            Filter(healthy, (p: Pod) => p.name !in Names(Redundant(pods, n))) == healthy
  {
    ExistingExact(pods, n);
    FilterExact(Existing(pods, n), PodFilterOk);
    FilterExact(pods, (p: Pod) => p.ordinal >= n);
    RestChangesNothing(Filter(Existing(pods, n), PodFilterOk), Redundant(pods, n), n);
  }

  lemma SameMembers(a: seq<Pod>, b: seq<Pod>)
    requires multiset(a) == multiset(b) && Parsed(a)
    ensures Parsed(b)
  {
    forall p | p in b
      ensures p in a
    {
      assert p in multiset(b);
    }
  }

  /** PodClassify. It panics exactly when the expected count is negative or some pod has no ordinal, and then only
      after the sort. */
  method PodClassify(pods: array<Pod>, expectedCount: int) returns (outcome: Outcome, bucket: Bucket)
    requires Parsed(pods[..])
    modifies pods
    ensures Ascending(pods[..]) && multiset(pods[..]) == multiset(old(pods[..]))
    ensures outcome == if expectedCount >= 0 && Numbered(pods[..]) then Done else Panicked
    ensures outcome.Done? ==> bucket == BucketOf(pods[..], expectedCount)
  {
    bucket := Bucket([], [], [], [], []);
    SortById(pods);
    SameMembers(old(pods[..]), pods[..]);
    if expectedCount < 0 {
      return Panicked, bucket;
    }
    var list: seq<Option<Pod>>;
    var redundant: seq<Pod>;
    outcome, list, redundant := FillSlots(pods[..], expectedCount);
    if outcome == Done {
      bucket := FillBucket(pods[..], list, redundant);
    }
  }
}
