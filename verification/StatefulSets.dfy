/** The StatefulSets and pods of a member cluster, and what scaling down does to them. */
module StatefulSets {
  import opened FiniteSets

  /** A StatefulSet; it is no longer alive once its deletion has begun. */
  datatype StatefulSet = StatefulSet(arbiter: bool, alive: bool)

  /** A listed pod of the replica set, and the StatefulSet it belongs to. */
  datatype Pod = Pod(name: string, owner: string)

  type Sets = map<string, StatefulSet>

  /** The StatefulSets listed with the data label or with the arbiter label. */
  function OfKind(sets: Sets, arbiter: bool): set<string> {
    set n | n in sets && sets[n].arbiter == arbiter
  }

  predicate Alive(sets: Sets, name: string) {
    name in sets && sets[name].alive
  }

  /** The StatefulSets whose deletion began between two moments. */
  function Gone(before: Sets, after: Sets): set<string> {
    set n | n in before && before[n].alive && !Alive(after, n)
  }

  predicate AllAlive(sets: Sets, pods: seq<Pod>) {
    forall p :: p in pods ==> Alive(sets, p.owner)
  }

  const ARBITER_NAME := "arbiter"

  /** strings.HasSuffix(name, ArbiterName) */
  predicate IsArbiterName(name: string) {
    |ARBITER_NAME| <= |name| && name[|name| - |ARBITER_NAME|..] == ARBITER_NAME
  }

  lemma ArbiterNames(name: string)
    ensures IsArbiterName(name) <==> exists prefix :: name == prefix + "arbiter"
  {
    if IsArbiterName(name) {
      assert name == name[..|name| - 7] + "arbiter";
    }
    if prefix :| name == prefix + "arbiter" {
      assert name[|name| - 7..] == "arbiter";
    }
  }

  /** Nothing changed but that data StatefulSets were created for some of the services. */
  predicate Extended(before: Sets, after: Sets, services: set<string>) {
    && (forall n :: n in before ==> n in after && after[n] == before[n])
    && (forall n :: n in after && n !in before ==>
                      n in services && !IsArbiterName(n) && after[n] == StatefulSet(false, true))
  }

  /** Nothing was created and nothing revived. */
  predicate Shrunk(before: Sets, after: Sets) {
    forall n :: n in after ==> n in before && after[n].arbiter == before[n].arbiter && (after[n].alive ==> before[n].alive)
  }

  lemma ShrunkTwice(a: Sets, b: Sets, c: Sets)
    requires Shrunk(a, b) && Shrunk(b, c)
    ensures Shrunk(a, c) && Gone(a, c) == Gone(a, b) + Gone(b, c)
  {
  }

  /** One more deletion, begun at most for `owner`. */
  lemma OneMoreGone(before: Sets, mid: Sets, after: Sets, owner: string, quota: nat)
    requires Shrunk(before, mid) && Gone(before, mid) <= OfKind(before, false) && |Gone(before, mid)| <= quota
    requires Shrunk(mid, after) && Gone(mid, after) <= {owner}
    requires owner in before ==> !before[owner].arbiter
    ensures Shrunk(before, after) && Gone(before, after) == Gone(before, mid) + Gone(mid, after)
    ensures Gone(before, after) <= OfKind(before, false) && |Gone(before, after)| <= quota + 1
    ensures Alive(before, owner) && !Alive(after, owner) ==> Gone(before, after) == Gone(before, mid) + {owner}
  {
    ShrunkTwice(before, mid, after);
    assert Gone(before, after) <= Gone(before, mid) + {owner};
    SubsetSize(Gone(before, after), Gone(before, mid) + {owner});
  }

  function Owners(pods: seq<Pod>): (r: set<string>)
    ensures |r| <= |pods|
  {
    if pods == [] then {} else Owners(pods[..|pods| - 1]) + {pods[|pods| - 1].owner}
  }

  predicate DistinctOwners(pods: seq<Pod>) {
    forall i, j :: 0 <= i < j < |pods| ==> pods[i].owner != pods[j].owner
  }

  lemma {:induction false} OwnerAt(pods: seq<Pod>, name: string) returns (k: nat)
    requires name in Owners(pods)
    ensures k < |pods| && pods[k].owner == name
  {
    var n := |pods| - 1;
    if name == pods[n].owner {
      k := n;
    } else {
      k := OwnerAt(pods[..n], name);
    }
  }

  lemma NextOwner(pods: seq<Pod>, i: nat)
    requires i < |pods|
    ensures Owners(pods[..i + 1]) == Owners(pods[..i]) + {pods[i].owner}
    ensures DistinctOwners(pods) ==> pods[i].owner !in Owners(pods[..i])
  {
    assert pods[..i + 1][..i] == pods[..i];
    if pods[i].owner in Owners(pods[..i]) {
      var k := OwnerAt(pods[..i], pods[i].owner);
      assert pods[k].owner == pods[i].owner;
    }
  }

  lemma {:induction false} OwnersCount(pods: seq<Pod>, i: nat)
    requires i <= |pods| && DistinctOwners(pods)
    ensures |Owners(pods[..i])| == i
  {
    if i > 0 {
      OwnersCount(pods, i - 1);
      NextOwner(pods, i - 1);
    }
  }

  /** If the first pods of distinct living StatefulSets have all gone, and no others, that many have gone. */
  lemma {:induction false} AllGone(before: Sets, after: Sets, pods: seq<Pod>, i: nat)
    requires i <= |pods| && DistinctOwners(pods) && AllAlive(before, pods)
    requires Gone(before, after) <= Owners(pods[..i]) && forall j :: 0 <= j < i ==> !Alive(after, pods[j].owner)
    ensures |Gone(before, after)| == i
  {
    forall n | n in Owners(pods[..i])
      ensures n in Gone(before, after)
    {
      var j := OwnerAt(pods[..i], n);
      assert pods[j] in pods;
    }
    assert Gone(before, after) == Owners(pods[..i]);
    OwnersCount(pods, i);
  }

  // ---------------------------------------------------------------- how many remain

  function AliveData(sets: Sets): set<string> {
    set n | n in sets && !sets[n].arbiter && sets[n].alive
  }

  /** What is gone is exactly what is missing from the living. */
  lemma Remaining(before: Sets, after: Sets)
    requires Shrunk(before, after) && Gone(before, after) <= OfKind(before, false)
    ensures AliveData(after) == AliveData(before) - Gone(before, after)
    ensures |AliveData(after)| == |AliveData(before)| - |Gone(before, after)|
  {
    assert Gone(before, after) <= AliveData(before);
  }

  lemma ArbiterOnly(before: Sets, after: Sets, owner: string)
    requires Shrunk(before, after) && Gone(before, after) <= {owner} && (owner in before ==> before[owner].arbiter)
    ensures AliveData(after) == AliveData(before)
  {
    forall n | n in AliveData(before)
      ensures n in AliveData(after)
    {
      assert n !in Gone(before, after);
    }
  }

  lemma {:induction false} ArbiterCreated(before: Sets, after: Sets, name: string)
    requires after == before || (name !in before && after == before[name := StatefulSet(true, true)])
    ensures AliveData(after) == AliveData(before) && Gone(before, after) == {}
  {
  }

  /** After a scale-down from the listed StatefulSets to `m`, fewer than `m` stay alive by no more than were already
      terminating when they were listed. */
  lemma EnoughRemain(before: Sets, after: Sets, m: nat)
    requires Shrunk(before, after) && Gone(before, after) <= OfKind(before, false)
    requires |Gone(before, after)| <= |OfKind(before, false)| - m
    ensures |AliveData(after)| >= m - (|OfKind(before, false)| - |AliveData(before)|)
  {
    Remaining(before, after);
  }

  /** A complete scale-down leaves exactly `m` alive if and only if no listed StatefulSet was already terminating. */
  lemma ExactlyRemainIff(before: Sets, after: Sets, m: nat)
    requires Shrunk(before, after) && Gone(before, after) <= OfKind(before, false)
    requires m < |OfKind(before, false)| && |Gone(before, after)| == |OfKind(before, false)| - m
    ensures |AliveData(after)| == m <==> forall n :: n in before && !before[n].arbiter ==> before[n].alive
  {
    Remaining(before, after);
    var data, alive := OfKind(before, false), AliveData(before);
    assert alive <= data;
    if alive != data {
      var n :| n in data && n !in alive;
      SubsetSize(alive, data - {n});
    }
    assert forall n :: n in before && !before[n].arbiter ==> n in data && (n in alive <==> before[n].alive);
  }

  /** The list of StatefulSets is not filtered, so two passes in a row can remove one member too many: here two of
      three are wanted, the first pass removes "c", and while "c" is still terminating the second removes "b". */
  lemma TerminatingIsCounted()
    ensures var first := map["a" := StatefulSet(false, true), "b" := StatefulSet(false, true), "c" := StatefulSet(false, true)];
            var second := first["c" := StatefulSet(false, false)];
            var third := second["b" := StatefulSet(false, false)];
            && |Gone(first, second)| == |OfKind(first, false)| - 2
            && |Gone(second, third)| == |OfKind(second, false)| - 2
            && |AliveData(third)| == 1
  {
    var first := map["a" := StatefulSet(false, true), "b" := StatefulSet(false, true), "c" := StatefulSet(false, true)];
    var second := first["c" := StatefulSet(false, false)];
    var third := second["b" := StatefulSet(false, false)];
    assert OfKind(first, false) == {"a", "b", "c"} && OfKind(second, false) == {"a", "b", "c"};
    assert Gone(first, second) == {"c"} && Gone(second, third) == {"b"};
    assert AliveData(third) == {"a"};
  }

  // ---------------------------------------------------------------- pods of deleted StatefulSets

  /** The pods whose StatefulSet is listed and not terminating, in order. */
  function Surviving(pods: seq<Pod>, sets: Sets): (r: seq<Pod>)
    ensures forall p :: p in r ==> p in pods && Alive(sets, p.owner)
  {
    if pods == [] then []
    else if Alive(sets, pods[0].owner) then [pods[0]] + Surviving(pods[1..], sets)
    else Surviving(pods[1..], sets)
  }

  /** No pod of a living StatefulSet is lost. */
  lemma {:induction false} SurvivingComplete(pods: seq<Pod>, sets: Sets)
    ensures forall p :: p in pods && Alive(sets, p.owner) ==> p in Surviving(pods, sets)
  {
    if pods == [] {
    } else {
      SurvivingComplete(pods[1..], sets);
    }
  }

  /** One pod stays exactly if its StatefulSet does, and two lists are treated one after the other. */
  lemma {:induction false} SurvivingOfSum(a: seq<Pod>, b: seq<Pod>, sets: Sets)
    ensures Surviving(a + b, sets) == Surviving(a, sets) + Surviving(b, sets)
    ensures |a| == 1 ==> Surviving(a, sets) == if a[0].owner in sets && sets[a[0].owner].alive then a else []
  {
    if a == [] {
      assert a + b == b;
    } else {
      SurvivingOfSum(a[1..], b, sets);
      assert (a + b)[1..] == a[1..] + b;
    }
  }

  /** FilterPodsIsDeleted: removing from the list while stepping the index back. */
  method FilterPodsIsDeleted(pods: seq<Pod>, stsList: Sets) returns (allPods: seq<Pod>)
    ensures allPods == Surviving(pods, stsList)
  {
    allPods := pods;
    ghost var seen := 0;
    var podInx := 0;
    while podInx < |allPods|
      invariant 0 <= podInx <= |allPods| && seen + |allPods| - podInx == |pods| && 0 <= seen
      invariant allPods[podInx..] == pods[seen..]
      invariant allPods[..podInx] == Surviving(pods[..seen], stsList)
      decreases |allPods| - podInx
    {
      SurvivingOfSum(pods[..seen], [pods[seen]], stsList);
      assert pods[..seen + 1] == pods[..seen] + [pods[seen]];
      assert allPods[podInx] == allPods[podInx..][0] == pods[seen];
      if !Alive(stsList, allPods[podInx].owner) {
        ghost var rest := allPods[podInx + 1..];
        assert rest == pods[seen + 1..];
        allPods := allPods[..podInx] + allPods[podInx + 1..];
        assert allPods[podInx..] == rest;
        podInx := podInx - 1;
      }
      podInx := podInx + 1;
      seen := seen + 1;
    }
    assert pods[..seen] == pods;
    assert allPods[..podInx] == allPods;
  }
}
