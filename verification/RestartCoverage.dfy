/** Which pods a restart has deleted with the new template by the time the new resources count as current. */
module RestartCoverage {
  import opened Outcomes
  import opened Restart
  import opened RestartRuns

  /** The same pod, whatever revision it carries: a deleted pod comes back under its name with another one. */
  predicate SamePod(p: Pod, q: Pod) {
    p.name == q.name && p.owner == q.owner && p.host == q.host
  }

  lemma SameRestart(news: seq<Event>, p: Pod, q: Pod, spec: Resources)
    requires SamePod(p, q)
    ensures RestartedIn(news, p, spec) <==> RestartedIn(news, q, spec)
  {
    if RestartedIn(news, p, spec) {
      var a, b :| 0 <= a < b < |news| && news[a] == Updated(p.owner, spec) && news[b] == Deleted(p.name);
      assert news[a] == Updated(q.owner, spec) && news[b] == Deleted(q.name);
    }
    if RestartedIn(news, q, spec) {
      var a, b :| 0 <= a < b < |news| && news[a] == Updated(q.owner, spec) && news[b] == Deleted(q.name);
      assert news[a] == Updated(p.owner, spec) && news[b] == Deleted(p.name);
    }
  }

  /** Which pods a complete phase restarts with given resources. */
  lemma ScriptRestartsWithIff(v: View, phase: Phase, pod: Pod, spec: Resources)
    requires DistinctNames(v.pods) && pod in v.pods
    ensures RestartedIn(Script(v, phase), pod, spec) <==> v.spec == spec && Chosen(v, phase, pod)
  {
    if v.spec == spec {
      ScriptRestartsIff(v, phase, pod);
    } else {
      NotUpdated(v, phase, pod, spec);
    }
  }

  /** Which pods the two complete phases of a cycle restart with given resources: those that are not the primary in the
      first, if it saw these resources, and the one that is the primary in the second, if that saw them; never a pod
      that carries the new revision already. `p` and `q` are one pod as the two phases see it. */
  lemma CycleRestartsIff(first: View, phase: Phase, p: Pod, second: View, q: Pod, spec: Resources)
    requires Idle(phase) && DistinctNames(first.pods) && DistinctNames(second.pods)
    requires p in first.pods && q in second.pods && SamePod(p, q)
    ensures (RestartedIn(Script(first, phase), p, spec) || RestartedIn(Script(second, SecondaryDeleted), p, spec))
       <==> || (first.spec == spec && p.revision != first.revision && p.host != first.primary)
            || (second.spec == spec && q.revision != second.revision && q.host == second.primary)
  {
    ScriptRestartsWithIff(first, phase, p, spec);
    ScriptRestartsWithIff(second, SecondaryDeleted, q, spec);
    SameRestart(Script(second, SecondaryDeleted), p, q, spec);
  }

  /** Whenever resources become current by a restart: exactly which pods the two complete phases behind it have
      restarted with these resources. */
  lemma AdoptionRestartsIff(statuses: seq<Status>, views: seq<View>, news: seq<seq<Event>>, k: nat) returns (i: nat, j: nat)
    requires IsRun(statuses, views, news) && Idle(statuses[0].phase)
    requires k < |views| && Adopted(statuses[k], views[k], statuses[k + 1])
    requires forall x :: 0 <= x < |views| ==> DistinctNames(views[x].pods)
    ensures i < j < k
    ensures forall p, q :: p in views[i].pods && q in views[j].pods && SamePod(p, q) ==>
              ((RestartedIn(news[i], p, views[k].spec) || RestartedIn(news[j], p, views[k].spec))
               <==> || (views[i].spec == views[k].spec && p.revision != views[i].revision && p.host != views[i].primary)
                    || (views[j].spec == views[k].spec && q.revision != views[j].revision && q.host == views[j].primary))
  {
    i, j := RestartHasBothPhases(statuses, views, news, k);
    forall p, q | p in views[i].pods && q in views[j].pods && SamePod(p, q)
      ensures (RestartedIn(news[i], p, views[k].spec) || RestartedIn(news[j], p, views[k].spec))
         <==> || (views[i].spec == views[k].spec && p.revision != views[i].revision && p.host != views[i].primary)
              || (views[j].spec == views[k].spec && q.revision != views[j].revision && q.host == views[j].primary)
    {
      CycleRestartsIff(views[i], statuses[i].phase, p, views[j], q, views[k].spec);
    }
  }

  lemma HandledIsDeleted(v: View, phase: Phase, m: nat)
    requires m < |v.pods| && Chosen(v, phase, v.pods[m])
    ensures |v.pods| < HandledAt(v, phase, m) <= |Script(v, phase)|
    ensures Script(v, phase)[HandledAt(v, phase, m) - 1] == Deleted(v.pods[m].name)
  {
    UpdatesAt(v.pods, v.spec);
    RemovalsStep(v, phase, m);
    var last := Removal(v, phase, v.pods[m]);
    assert last[|last| - 1] == Deleted(v.pods[m].name);
    var upTo := Removals(v, phase, v.pods[..m + 1]);
    assert upTo[|upTo| - 1] == last[|last| - 1];
    assert Removals(v, phase, v.pods)[|upTo| - 1] == upTo[|upTo| - 1];
  }

  /** The pass saw these resources, its phase is to delete the pod, and it got as far as that pod. */
  ghost predicate Reached(before: Status, v: View, news: seq<Event>, m: nat, spec: Resources)
    requires m < |v.pods|
  {
    v.spec == spec && Chosen(v, before.phase, v.pods[m]) && |news| >= HandledAt(v, before.phase, m)
  }

  /** Which pods a pass restarts, complete or not. */
  lemma PassRestartsIff(before: Status, v: View, news: seq<Event>, after: Status, m: nat, spec: Resources)
    requires Passed(before, v, news, after) && DistinctNames(v.pods) && m < |v.pods|
    ensures RestartedIn(news, v.pods[m], spec) <==> Reached(before, v, news, m, spec)
  {
    assert news <= Script(v, before.phase);
    if Reached(before, v, news, m, spec) {
      ReachedIsRestarted(v, before.phase, news, m);
    }
    if RestartedIn(news, v.pods[m], spec) {
      RestartedIsReached(v, before.phase, news, m, spec);
    }
  }

  lemma {:induction false} ReachedIsRestarted(v: View, phase: Phase, news: seq<Event>, m: nat)
    requires news <= Script(v, phase) && m < |v.pods| && Chosen(v, phase, v.pods[m]) && |news| >= HandledAt(v, phase, m)
    ensures RestartedIn(news, v.pods[m], v.spec)
  {
    UpdatesAt(v.pods, v.spec);
    HandledIsDeleted(v, phase, m);
    var b := HandledAt(v, phase, m) - 1;
    assert news[m] == Script(v, phase)[m] == Updated(v.pods[m].owner, v.spec);
    assert news[b] == Script(v, phase)[b];
  }

  lemma {:induction false} RestartedIsReached(v: View, phase: Phase, news: seq<Event>, m: nat, spec: Resources)
    requires news <= Script(v, phase) && DistinctNames(v.pods) && m < |v.pods| && RestartedIn(news, v.pods[m], spec)
    ensures v.spec == spec && Chosen(v, phase, v.pods[m]) && |news| >= HandledAt(v, phase, m)
  {
    var b :| 0 <= b < |news| && news[b] == Deleted(v.pods[m].name);
    assert Script(v, phase)[b] == news[b];
    DeletedIsChosen(v, phase, m, b);
    if v.spec != spec {
      NotUpdated(v, phase, v.pods[m], spec);
    }
  }

  /** The names of the listed pods determine the StatefulSet and the host. */
  ghost predicate Knows(v: View, p: Pod) {
    DistinctNames(v.pods) && forall q :: q in v.pods && q.name == p.name ==> SamePod(q, p)
  }

  ghost predicate ReachedPod(before: Status, v: View, news: seq<Event>, p: Pod, spec: Resources) {
    exists m :: 0 <= m < |v.pods| && SamePod(v.pods[m], p) && Reached(before, v, news, m, spec)
  }

  lemma PassReachesIff(before: Status, v: View, news: seq<Event>, after: Status, p: Pod, spec: Resources)
    requires Passed(before, v, news, after) && Knows(v, p)
    ensures RestartedIn(news, p, spec) <==> ReachedPod(before, v, news, p, spec)
  {
    if m :| 0 <= m < |v.pods| && SamePod(v.pods[m], p) {
      PassRestartsIff(before, v, news, after, m, spec);
      SameRestart(news, v.pods[m], p, spec);
    } else if RestartedIn(news, p, spec) {
      var b :| 0 <= b < |news| && news[b] == Deleted(p.name);
      EveryDeletion(before, v, news, after, b);
    }
  }

  /** The condition over a whole run: a pod was restarted with given resources between two moments if and only if some
      pass in between, complete or not, saw these resources and got as far as that pod in the phase that deletes it. */
  lemma RunRestartsIff(statuses: seq<Status>, views: seq<View>, news: seq<seq<Event>>, s: nat, k: nat, p: Pod, spec: Resources)
    requires IsRun(statuses, views, news) && s <= k <= |views|
    requires forall x :: s <= x < k ==> Knows(views[x], p)
    ensures (exists x :: s <= x < k && RestartedIn(news[x], p, spec))
       <==> (exists x :: s <= x < k && ReachedPod(statuses[x], views[x], news[x], p, spec))
  {
    forall x | s <= x < k
      ensures RestartedIn(news[x], p, spec) <==> ReachedPod(statuses[x], views[x], news[x], p, spec)
    {
      PassReachesIff(statuses[x], views[x], news[x], statuses[x + 1], p, spec);
    }
  }

  ghost predicate Among(p: Pod, pods: seq<Pod>) {
    exists q :: q in pods && SamePod(q, p)
  }

  /** The pass lists exactly the given pods, in any order and at any revision but the new one. */
  ghost predicate ListsPods(v: View, pods: seq<Pod>) {
    && DistinctNames(v.pods)
    && (forall p :: p in pods ==> Among(p, v.pods))
    && (forall q :: q in v.pods ==> q.revision != v.revision && Among(q, pods))
  }

  /** Spec, pods and primary stay; readiness, order and revisions may change. */
  ghost predicate Steady(views: seq<View>, spec: Resources, pods: seq<Pod>, primary: string) {
    forall k :: 0 <= k < |views| ==> views[k].spec == spec && views[k].primary == primary && ListsPods(views[k], pods)
  }

  lemma {:induction false} ListedIsRestarted(v: View, phase: Phase, pods: seq<Pod>, p: Pod)
    requires ListsPods(v, pods) && p in pods && phase != PrimaryDeleted && (p.host == v.primary <==> phase == SecondaryDeleted)
    ensures RestartedIn(Script(v, phase), p, v.spec)
  {
    var q :| q in v.pods && SamePod(q, p);
    ScriptRestartsIff(v, phase, q);
    SameRestart(Script(v, phase), q, p, v.spec);
  }

  lemma ScriptCovers(v: View, phase: Phase, pods: seq<Pod>)
    requires ListsPods(v, pods) && phase != PrimaryDeleted
    ensures forall p :: p in pods && (p.host == v.primary <==> phase == SecondaryDeleted) ==> RestartedIn(Script(v, phase), p, v.spec)
  {
    forall p | p in pods && (p.host == v.primary <==> phase == SecondaryDeleted)
      ensures RestartedIn(Script(v, phase), p, v.spec)
    {
      ListedIsRestarted(v, phase, pods, p);
    }
  }

  /** With spec, pods and primary unchanged, whenever the new resources become current every pod was deleted after the
      template of its StatefulSet was updated, and the primary in a later pass than all secondaries, begun with as many
      pods ready as the spec wants. */
  lemma {:induction false} RestartCoversEveryPod(statuses: seq<Status>, views: seq<View>, news: seq<seq<Event>>, k: nat,
                                                 spec: Resources, pods: seq<Pod>, primary: string) returns (i: nat, j: nat)
    requires IsRun(statuses, views, news) && Idle(statuses[0].phase)
    requires k < |views| && Adopted(statuses[k], views[k], statuses[k + 1])
    requires Steady(views, spec, pods, primary)
    ensures i < j < k && views[i].ready >= views[i].members && views[j].ready >= views[j].members
    ensures forall p :: p in pods && p.host != primary ==> RestartedIn(news[i], p, spec)
    ensures forall p :: p in pods && p.host == primary ==> RestartedIn(news[j], p, spec)
  {
    i, j := RestartHasBothPhases(statuses, views, news, k);
    ScriptCovers(views[i], statuses[i].phase, pods);
    ScriptCovers(views[j], SecondaryDeleted, pods);
  }

  // ---------------------------------------------------------------- a steady run, and runs that miss a pod

  /** Three complete passes with enough ready pods are a run in which the resources become current. */
  lemma {:induction false} CompleteCycle(previous: Resources, first: View, second: View, third: View)
    requires first.spec == second.spec == third.spec != previous
    requires first.ready >= first.members && second.ready >= second.members && third.ready >= third.members
    ensures var statuses := [Status(NotInProcess, Some(previous)), Status(SecondaryDeleted, Some(previous)),
                             Status(PrimaryDeleted, Some(previous)), Status(NotInProcess, Some(first.spec))];
            && IsRun(statuses, [first, second, third],
                     [Script(first, NotInProcess), Script(second, SecondaryDeleted), Script(third, PrimaryDeleted)])
            && Adopted(statuses[2], third, statuses[3])
  {
  }

  /** The views of a cycle whose deleted pods come back with another revision, listed in another order, are steady. */
  lemma {:induction false} SteadyCycle(first: View, second: View, third: View, a: Pod, b: Pod, s: string)
    requires first.spec == second.spec == third.spec && first.primary == second.primary == third.primary
    requires first.pods == [a, b] && second.pods == [b.(revision := s), a] && third.pods == [b.(revision := s), a.(revision := s)]
    requires a.name != b.name
    requires forall v :: v in [first, second, third] ==> v.revision != a.revision && v.revision != b.revision && v.revision != s
    ensures Steady([first, second, third], first.spec, [a, b], first.primary)
  {
    assert first in [first, second, third] && second in [first, second, third] && third in [first, second, third];
    TwoPodsListed(first, a, b);
    TwoPodsListed(second, a, b);
    TwoPodsListed(third, a, b);
    SteadyThree(first, second, third, [a, b]);
  }

  lemma SteadyThree(first: View, second: View, third: View, pods: seq<Pod>)
    requires first.spec == second.spec == third.spec && first.primary == second.primary == third.primary
    requires ListsPods(first, pods) && ListsPods(second, pods) && ListsPods(third, pods)
    ensures Steady([first, second, third], first.spec, pods, first.primary)
  {
    var views := [first, second, third];
    assert forall k :: 0 <= k < 3 ==> views[k] == first || views[k] == second || views[k] == third;
  }

  lemma TwoPodsListed(v: View, a: Pod, b: Pod)
    requires |v.pods| == 2 && a.name != b.name
    requires (SamePod(v.pods[0], a) && SamePod(v.pods[1], b)) || (SamePod(v.pods[0], b) && SamePod(v.pods[1], a))
    requires v.pods[0].revision != v.revision && v.pods[1].revision != v.revision
    ensures ListsPods(v, [a, b])
  {
    assert v.pods[0] in v.pods && v.pods[1] in v.pods;
    forall q | q in v.pods
      ensures q.revision != v.revision && Among(q, [a, b])
    {
      assert a in [a, b] && b in [a, b];
      assert SamePod(a, q) || SamePod(b, q);
    }
  }

  /** A pod that is the primary in the complete first phase and not in the second may still have been restarted: here
      an earlier pass, which saw another primary, deleted "a" before its phase write failed. */
  lemma {:induction false} MovedYetRestarted(previous: Resources, spec: Resources)
    requires previous != spec
    ensures var a, b := Pod("a-0", "a", "v:1", "r"), Pod("b-0", "b", "v:2", "r");
            var first, second := View(spec, 2, "", [a, b], 2, "v:2"), View(spec, 2, "", [a.(revision := "s"), b], 2, "v:1");
            var statuses := [Status(NotInProcess, Some(previous)), Status(NotInProcess, Some(previous)), Status(SecondaryDeleted, Some(previous)),
                             Status(PrimaryDeleted, Some(previous)), Status(NotInProcess, Some(spec))];
            var third := second.(primary := "v:2");
            var news := [Script(first, NotInProcess), Script(second, NotInProcess), Script(third, SecondaryDeleted), Script(third, PrimaryDeleted)];
            && IsRun(statuses, [first, second, third, third], news)
            && Adopted(statuses[3], third, statuses[4])
            && RestartedIn(news[0], a, spec)
  {
    var a, b := Pod("a-0", "a", "v:1", "r"), Pod("b-0", "b", "v:2", "r");
    var first := View(spec, 2, "", [a, b], 2, "v:2");
    assert a in first.pods;
    ScriptRestartsIff(first, NotInProcess, a);
  }

  /** When the primary changes between the two phases a pod can be missed: here "a" is primary in the first phase and
      "b" in the second, so "b" is deleted twice and "a" never, and yet the new resources become current. */
  lemma PrimaryMoved(previous: Resources, spec: Resources)
    requires previous != spec
    ensures var a, b := Pod("a-0", "a", "v:1", "r"), Pod("b-0", "b", "v:2", "r");
            var first, second := View(spec, 2, "", [a, b], 2, "v:1"), View(spec, 2, "", [a, b.(revision := "s")], 2, "v:2");
            var statuses := [Status(NotInProcess, Some(previous)), Status(SecondaryDeleted, Some(previous)),
                             Status(PrimaryDeleted, Some(previous)), Status(NotInProcess, Some(spec))];
            var news := [Script(first, NotInProcess), Script(second, SecondaryDeleted), Script(second, PrimaryDeleted)];
            && IsRun(statuses, [first, second, second], news)
            && Adopted(statuses[2], second, statuses[3])
            && forall k :: 0 <= k < 3 ==> !RestartedIn(news[k], a, spec)
  {
    var a, b := Pod("a-0", "a", "v:1", "r"), Pod("b-0", "b", "v:2", "r");
    var first, second := View(spec, 2, "", [a, b], 2, "v:1"), View(spec, 2, "", [a, b.(revision := "s")], 2, "v:2");
    assert a in first.pods && a in second.pods;
    ScriptRestartsIff(first, NotInProcess, a);
    ScriptRestartsIff(second, SecondaryDeleted, a);
    ScriptRestartsIff(second, PrimaryDeleted, a);
  }

  /** When the resources are set back in the middle of a cycle the phase stays: the next change starts with the second
      phase, and the secondaries are never restarted with it. */
  lemma RevertedMidCycle(previous: Resources, tried: Resources, spec: Resources)
    requires previous != tried && previous != spec && tried != spec
    ensures var a, b := Pod("a-0", "a", "v:1", "r"), Pod("b-0", "b", "v:2", "r");
            var first, third := View(tried, 2, "", [a, b], 2, "v:1"), View(spec, 2, "", [a, b.(revision := "s")], 2, "v:1");
            var statuses := [Status(NotInProcess, Some(previous)), Status(SecondaryDeleted, Some(previous)),
                             Status(SecondaryDeleted, Some(previous)), Status(PrimaryDeleted, Some(previous)),
                             Status(NotInProcess, Some(spec))];
            var news := [Script(first, NotInProcess), [], Script(third, SecondaryDeleted), Script(third, PrimaryDeleted)];
            && IsRun(statuses, [first, third.(spec := previous), third, third], news)
            && Adopted(statuses[3], third, statuses[4])
            && forall k :: 0 <= k < 4 ==> !RestartedIn(news[k], b, spec)
  {
    var a, b := Pod("a-0", "a", "v:1", "r"), Pod("b-0", "b", "v:2", "r");
    var first, third := View(tried, 2, "", [a, b], 2, "v:1"), View(spec, 2, "", [a, b.(revision := "s")], 2, "v:1");
    var b' := b.(revision := "s");
    assert third.pods[1] == b';
    NotUpdated(first, NotInProcess, b, spec);
    ScriptRestartsIff(third, SecondaryDeleted, b');
    ScriptRestartsIff(third, PrimaryDeleted, b');
    SameRestart(Script(third, SecondaryDeleted), b, b', spec);
    SameRestart(Script(third, PrimaryDeleted), b, b', spec);
  }

  lemma NotUpdated(v: View, phase: Phase, pod: Pod, spec: Resources)
    requires v.spec != spec
    ensures !RestartedIn(Script(v, phase), pod, spec)
  {
    UpdatesAt(v.pods, v.spec);
    NoUpdate(v, phase, v.pods);
    forall a | 0 <= a < |Script(v, phase)|
      ensures Script(v, phase)[a] != Updated(pod.owner, spec)
    {
      if a >= |v.pods| {
        assert Removals(v, phase, v.pods)[a - |v.pods|] == Script(v, phase)[a];
      }
    }
  }

  lemma {:induction false} NoUpdate(v: View, phase: Phase, pods: seq<Pod>)
    ensures forall k :: 0 <= k < |Removals(v, phase, pods)| ==> !Removals(v, phase, pods)[k].Updated?
  {
    if pods == [] {
    } else {
      NoUpdate(v, phase, pods[..|pods| - 1]);
    }
  }
}
