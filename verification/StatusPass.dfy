/** The whole of the status handler, and what its placeholder does to the next scale-down. */
module StatusPass {
  import opened Outcomes
  import opened Text
  import opened Placement
  import opened Cleaner
  import opened ScaleDown
  import opened Federation
  import Aggregation

  datatype State = Health | UnHealth | UnKnown

  /** The result written while fewer clusters have a status than are active: every scheduled cluster, with no member
      and no address. */
  function Placeholder(quotas: seq<Quota>): (r: seq<Topology>)
    ensures |r| == |quotas| && forall i :: 0 <= i < |r| ==> r[i].cluster == quotas[i].cluster && r[i].members == 0 && r[i].addresses == map[]
  {
    seq(|quotas|, i requires 0 <= i < |quotas| => Topology(quotas[i].cluster, 0, map[]))
  }

  /** The status of the instance. */
  class CloudStatus {
    var state: State
    var result: seq<Topology>
    var externalAddr: string

    constructor ()
      ensures state == UnKnown && result == [] && externalAddr == ""
    {
      state, result, externalAddr := UnKnown, [], "";
    }

    /** StatusHandler.Handle, once the resource binding has been read. */
    method Handle(items: seq<Aggregation.Item>, active: seq<string>, quotas: seq<Quota>, vips: map<string, string>, arbiters: map<string, nat>)
      returns (outcome: Outcome)
      modifies this
      ensures |items| < |Dedup(active)| ==>
                outcome == Done && state == UnKnown && result == Placeholder(quotas) && externalAddr == old(externalAddr)
      ensures |items| >= |Dedup(active)| ==>
                outcome == if !Aggregation.Aligned(items[..Aggregation.Decodable(items)], vips, arbiters) then Panicked
                           else if Aggregation.Decodable(items) < |items| then Failed else Done
      ensures |items| >= |Dedup(active)| && outcome != Panicked ==>
                && result == Aggregation.Entries(items[..Aggregation.Decodable(items)], vips, arbiters)
                && externalAddr == (if outcome.Done? then Join(Aggregation.AllHosts(items, vips), ",") else "")
                && (state == UnKnown <==> outcome == Failed)
      ensures outcome != Panicked ==>
                (state == Health <==> && |items| >= |Dedup(active)| && outcome.Done?
                                      && forall x :: x in items ==> x.status.Some? && x.status.value.running)
    {
      state := UnKnown;
      var clusters := RemoveDuplicates(active);
      if |items| < |clusters| {
        result := [];
        var i := 0;
        while i < |quotas|
          invariant 0 <= i <= |quotas| && result == Placeholder(quotas[..i])
          invariant state == UnKnown && externalAddr == old(externalAddr)
        {
          assert Placeholder(quotas[..i + 1]) == Placeholder(quotas[..i]) + [Topology(quotas[i].cluster, 0, map[])];
          result := result + [Topology(quotas[i].cluster, 0, map[])];
          i := i + 1;
        }
        assert quotas[..i] == quotas;
        return Done;
      }
      var entries, healthy, addr;
      outcome, entries, healthy, addr := Aggregation.Aggregate(items, vips, arbiters);
      result, externalAddr := entries, addr;
      if outcome.Done? {
        state := if healthy then Health else UnHealth;
      }
    }
  }

  /** On a placeholder the planner takes a scale-down for finished if and only if every shrinking cluster among its
      entries shrinks to nothing. */
  lemma PlaceholderReadyIff(quotas: seq<Quota>, down: map<string, int>)
    ensures ReadyToShrink(Placeholder(quotas), down)
       <==> forall q :: q in quotas && q.cluster in down ==> down[q.cluster] == 0
  {
    var result := Placeholder(quotas);
    if ReadyToShrink(result, down) {
      forall q | q in quotas && q.cluster in down
        ensures down[q.cluster] == 0
      {
        var i :| 0 <= i < |quotas| && quotas[i] == q;
        assert result[i] in result;
      }
    }
  }

  lemma NothingLive(quotas: seq<Quota>, list: seq<Service>)
    ensures LiveAnywhere(Placeholder(quotas), list) == {}
    ensures forall c :: LiveIn(LiveByCluster(Placeholder(quotas), list), c) == {}
  {
    var entries := Entries(Placeholder(quotas), list);
    forall i | 0 <= i < |entries|
      ensures entries[i].live == {}
    {
    }
    NothingInUnion(entries);
    NothingInTable(entries);
  }

  lemma {:induction false} NothingInUnion(entries: seq<Entry>)
    requires forall i :: 0 <= i < |entries| ==> entries[i].live == {}
    ensures UnionOf(entries) == {}
  {
    if entries == [] {
    } else {
      NothingInUnion(entries[..|entries| - 1]);
    }
  }

  lemma {:induction false} NothingInTable(entries: seq<Entry>)
    requires forall i :: 0 <= i < |entries| ==> entries[i].live == {}
    ensures forall c :: c in TableOf(entries) ==> TableOf(entries)[c] == {}
  {
    if entries == [] {
    } else {
      NothingInTable(entries[..|entries| - 1]);
    }
  }

  /** A cleaning that starts from a placeholder and succeeds deletes every service of every cluster and leaves no
      policy with a cluster, although only some clusters were to shrink. */
  lemma PlaceholderCleansAll(quotas: seq<Quota>, list: seq<Service>, services: map<string, nat>, policies: map<string, Policy>,
                             services': map<string, nat>, policies': map<string, Policy>)
    requires CleaningStep(services, policies, services', policies', Placeholder(quotas), list, Done)
    ensures services' == map[]
    ensures forall name :: name in policies' ==> policies'[name].clusters == []
  {
    NothingLive(quotas, list);
    var byCluster := LiveByCluster(Placeholder(quotas), list);
    forall name | name in policies'
      ensures policies'[name].clusters == []
    {
      NothingKept(policies[name], byCluster);
    }
  }

  lemma {:induction false} NothingKept(policy: Policy, byCluster: map<string, set<string>>)
    requires forall c :: LiveIn(byCluster, c) == {}
    ensures Kept(policy, byCluster) == []
    decreases |policy.clusters|
  {
    if policy.clusters == [] {
    } else {
      var n := |policy.clusters| - 1;
      NothingKept(policy.(clusters := policy.clusters[..n]), byCluster);
      assert LiveIn(byCluster, policy.clusters[n]) == {};
    }
  }

  /** A live service that is lost: "b" shrinks to nothing while "a" keeps its member, and from a placeholder a complete
      cleaning deletes the service both of them use. */
  lemma {:induction false} PlaceholderDeletesLive(s: string, port: nat)
    ensures var quotas := [Quota("a", 1, false), Quota("b", 0, false)];
            var services, policies := map[s := port], map["p" := Policy([s], ["a", "b"])];
            var list := [Service(s, port)];
            && ListsServices(list, services)
            && DownTargets(quotas, Some(map["a" := 1, "b" := 1])) == map["b" := 0]
            && ReadyToShrink(Placeholder(quotas), map["b" := 0])
            && CleaningStep(services, policies, map[], CleanedAll(policies, LiveByCluster(Placeholder(quotas), list)),
                            Placeholder(quotas), list, Done)
  {
    var quotas := [Quota("a", 1, false), Quota("b", 0, false)];
    var services, policies := map[s := port], map["p" := Policy([s], ["a", "b"])];
    var list := [Service(s, port)];
    var byCluster := LiveByCluster(Placeholder(quotas), list);
    NothingLive(quotas, list);
    NothingKept(policies["p"], byCluster);
    CleanedIsPartly(policies, byCluster, policies.Keys);
    PlaceholderReadyIff(quotas, map["b" := 0]);
    assert list[0] in list;
    assert quotas[..1] == [quotas[0]] && quotas[..1][..0] == [];
    assert LiveServices(services, {}) == map[];
  }
}
