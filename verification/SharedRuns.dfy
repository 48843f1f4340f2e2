/** Runs of the shared configuration: any interleaving of the steps of any number of clusters. */
module SharedRuns {
  import opened Membership
  import opened SharedConfig

  /** A run: the configurations before, between and after the steps of all clusters, in the order they took effect. */
  ghost predicate IsRun(states: seq<Conf>, actions: seq<Action>) {
    && |states| == |actions| + 1
    && forall k :: 0 <= k < |actions| ==> Stepped(states[k], actions[k], states[k + 1])
  }

  function Confs(start: Conf, history: seq<Step>): (states: seq<Conf>)
    ensures |states| == |history| + 1
  {
    [start] + seq(|history|, k requires 0 <= k < |history| => history[k].after)
  }

  function Actions(history: seq<Step>): (actions: seq<Action>)
    ensures |actions| == |history|
  {
    seq(|history|, k requires 0 <= k < |history| => history[k].action)
  }

  /** The history that the shared document keeps is a run. */
  lemma {:induction false} HistoryIsRun(start: Conf, history: seq<Step>)
    requires Chained(start, history) && Lawful(history)
    ensures IsRun(Confs(start, history), Actions(history))
    ensures Confs(start, history)[|history|] == EndOf(start, history)
  {
    forall k | 0 <= k < |history|
      ensures Stepped(Confs(start, history)[k], Actions(history)[k], Confs(start, history)[k + 1])
    {
      BeganWhereEnded(start, history, k);
    }
  }

  lemma {:induction false} BeganWhereEnded(start: Conf, history: seq<Step>, k: nat)
    requires Chained(start, history) && k < |history|
    ensures Confs(start, history)[k] == history[k].before
  {
    if k > 0 {
      assert history[k - 1].after == history[k].before;
    }
  }

  lemma {:induction false} RunIsSound(states: seq<Conf>, actions: seq<Action>)
    requires IsRun(states, actions) && Sound(states[0])
    ensures forall k :: 0 <= k < |states| ==> Sound(states[k])
  {
    if actions == [] {
    } else {
      var n := |actions| - 1;
      RunIsSound(states[..n + 1], actions[..n]);
      StepKeeps(states[n], actions[n], states[n + 1]);
    }
  }

  /** A member that is never removed keeps its whole record, its id included, through any run. */
  lemma {:induction false} SurvivorUnchanged(states: seq<Conf>, actions: seq<Action>, m: Member)
    requires IsRun(states, actions) && Sound(states[0]) && m in states[0].members
    requires forall k :: 0 <= k < |states| ==> m.host in Hosts(states[k].members)
    ensures m in states[|actions|].members
  {
    if actions == [] {
    } else {
      var n := |actions| - 1;
      SurvivorUnchanged(states[..n + 1], actions[..n], m);
      RunIsSound(states, actions);
      StepKeeps(states[n], actions[n], states[n + 1]);
    }
  }

  /** The hosts the steps ask for, taken one after the other. */
  function HostsAfterAll(hosts: set<string>, actions: seq<Action>): set<string> {
    if actions == [] then hosts
    else HostsAfter(HostsAfterAll(hosts, actions[..|actions| - 1]), actions[|actions| - 1])
  }

  /** How many of the steps changed the hosts. */
  function Changes(hosts: set<string>, actions: seq<Action>): nat {
    if actions == [] then 0
    else
      var before := HostsAfterAll(hosts, actions[..|actions| - 1]);
      Changes(hosts, actions[..|actions| - 1]) + if HostsAfter(before, actions[|actions| - 1]) == before then 0 else 1
  }

  /** No step is lost: after any interleaving the hosts are those the steps ask for, and the version counts the
      steps that changed them. */
  lemma {:induction false} RunAddsUp(states: seq<Conf>, actions: seq<Action>)
    requires IsRun(states, actions) && Sound(states[0])
    ensures Hosts(states[|actions|].members) == HostsAfterAll(Hosts(states[0].members), actions)
    ensures states[|actions|].version == states[0].version + Changes(Hosts(states[0].members), actions)
  {
    if actions == [] {
    } else {
      var n := |actions| - 1;
      RunAddsUp(states[..n + 1], actions[..n]);
      RunIsSound(states, actions);
      StepKeeps(states[n], actions[n], states[n + 1]);
    }
  }

  lemma TwoMembers(a: Member, b: Member)
    requires a.host != b.host
    ensures Hosts([a, b]) == {a.host, b.host}
    ensures ByHost([a, b]) == map[a.host := a, b.host := b]
  {
    OneMember(a);
    HostsAppend([a], b);
    ByHostAppend([a], b);
    assert [a] + [b] == [a, b];
  }

  lemma LastLeaves(a: Member, b: Member)
    requires a.host != b.host
    ensures Stepped(Conf([a, b], 1), Remove([b]), Conf([a], 2))
  {
    OneMember(b);
    TwoMembers(a, b);
    assert b.host in Hosts([a, b]) * Hosts([b]);
    assert Without([a, b], {b.host}) == map[a.host := a];
  }

  lemma OneJoins(a: Member, c: Member)
    requires a.id >= 0 && a.host != c.host
    ensures Stepped(Conf([a], 2), Add([c]), Conf([a, c.(id := a.id + 1)], 3))
  {
    var d := c.(id := a.id + 1);
    OneMember(a);
    OneMember(c);
    assert c.host in Hosts([c]);
    assert [a][..0] == [] && MaxId([a]) == a.id;
    assert [c][..0] == [] && Hosts([]) == {} && Fresh({a.host}, [c], a.id) == [d];
    assert [a] + [d] == [a, d];
    TwoMembers(a, d);
  }

  /** Ids are unique in every configuration but not over time: the largest id is given out again after its member leaves. */
  lemma IdsAreReused(a: Member, b: Member, c: Member)
    requires a.id >= 0 && b.id == a.id + 1 && a.host != b.host && a.host != c.host
    ensures Sound(Conf([a, b], 1))
    ensures IsRun([Conf([a, b], 1), Conf([a], 2), Conf([a, c.(id := b.id)], 3)], [Remove([b]), Add([c])])
  {
    LastLeaves(a, b);
    OneJoins(a, c);
  }
}
