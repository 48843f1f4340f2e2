/** Whole runs of the rolling restart: what has happened to the pods by the time new resources count as current. */
module RestartRuns {
  import opened Outcomes
  import opened Restart

  predicate Idle(phase: Phase) {
    phase == Unset || phase == NotInProcess
  }

  /** A run: the status before, between and after the passes, what each pass saw and what it did. */
  ghost predicate IsRun(statuses: seq<Status>, views: seq<View>, news: seq<seq<Event>>) {
    && |statuses| == |views| + 1 && |news| == |views|
    && forall k :: 0 <= k < |views| ==> Passed(statuses[k], views[k], news[k], statuses[k + 1])
  }

  predicate DistinctNames(pods: seq<Pod>) {
    forall i, j :: 0 <= i < j < |pods| ==> pods[i].name != pods[j].name
  }

  // ---------------------------------------------------------------- one script

  lemma {:induction false} UpdatesAt(pods: seq<Pod>, spec: Resources)
    ensures |Updates(pods, spec)| == |pods|
    ensures forall k :: 0 <= k < |pods| ==> Updates(pods, spec)[k] == Updated(pods[k].owner, spec)
  {
    if pods == [] {
    } else {
      UpdatesAt(pods[..|pods| - 1], spec);
    }
  }

  /** A deletion ends what a phase does to a pod. */
  lemma {:induction false} DeletionEnds(v: View, phase: Phase, pod: Pod, d: nat, name: string)
    requires d < |Removal(v, phase, pod)| && Removal(v, phase, pod)[d] == Deleted(name)
    ensures d + 1 == |Removal(v, phase, pod)| && pod.name == name && Chosen(v, phase, pod)
    ensures phase == SecondaryDeleted ==> d == 1 && Removal(v, phase, pod)[0] == SteppedDown(name)
  {
  }

  /** A deletion in the script of a phase: whose it is, and that a primary has stepped down just before. */
  lemma {:induction false} DeletedAt(v: View, phase: Phase, pods: seq<Pod>, b: nat, name: string) returns (m: nat)
    requires b < |Removals(v, phase, pods)| && Removals(v, phase, pods)[b] == Deleted(name)
    ensures m < |pods| && pods[m].name == name && Chosen(v, phase, pods[m])
    ensures phase == SecondaryDeleted ==> b > 0 && Removals(v, phase, pods)[b - 1] == SteppedDown(name)
    ensures b + 1 == |Removals(v, phase, pods[..m + 1])|
  {
    var n := |pods| - 1;
    var before := Removals(v, phase, pods[..n]);
    if b < |before| {
      m := DeletedAt(v, phase, pods[..n], b, name);
      assert pods[..n][..m + 1] == pods[..m + 1];
    } else {
      m := n;
      assert pods[..m + 1] == pods;
      DeletionEnds(v, phase, pods[n], b - |before|, name);
    }
  }

  lemma {:induction false} DeletionOf(v: View, phase: Phase, pods: seq<Pod>, m: nat) returns (b: nat)
    requires m < |pods| && pods[m].revision != v.revision && phase != PrimaryDeleted
    requires pods[m].host == v.primary <==> phase == SecondaryDeleted
    ensures b < |Removals(v, phase, pods)| && Removals(v, phase, pods)[b] == Deleted(pods[m].name)
  {
    var n := |pods| - 1;
    var before := Removals(v, phase, pods[..n]);
    if m == n {
      var last := Removal(v, phase, pods[n]);
      assert last[|last| - 1] == Deleted(pods[m].name);
      b := |before| + |last| - 1;
    } else {
      b := DeletionOf(v, phase, pods[..n], m);
    }
  }

  /** The pod was deleted after the template of its StatefulSet had been updated. */
  ghost predicate RestartedIn(news: seq<Event>, pod: Pod, spec: Resources) {
    exists a, b :: 0 <= a < b < |news| && news[a] == Updated(pod.owner, spec) && news[b] == Deleted(pod.name)
  }

  /** A phase deletes the primary or the others, and no pod that already carries the new revision. */
  predicate Chosen(v: View, phase: Phase, pod: Pod) {
    pod.revision != v.revision && phase != PrimaryDeleted && (pod.host == v.primary <==> phase == SecondaryDeleted)
  }

  lemma ChosenIsRestarted(v: View, phase: Phase, m: nat)
    requires m < |v.pods| && Chosen(v, phase, v.pods[m])
    ensures RestartedIn(Script(v, phase), v.pods[m], v.spec)
  {
    var script, n := Script(v, phase), |v.pods|;
    UpdatesAt(v.pods, v.spec);
    var b := DeletionOf(v, phase, v.pods, m);
    assert script[m] == Updated(v.pods[m].owner, v.spec);
    assert script[n + b] == Deleted(v.pods[m].name);
  }

  /** How many events a pass has done when it has dealt with pod number `m`. */
  function HandledAt(v: View, phase: Phase, m: nat): nat
    requires m < |v.pods|
  {
    |v.pods| + |Removals(v, phase, v.pods[..m + 1])|
  }

  lemma {:induction false} DeletedIsChosen(v: View, phase: Phase, m: nat, b: nat)
    requires DistinctNames(v.pods) && m < |v.pods|
    requires b < |Script(v, phase)| && Script(v, phase)[b] == Deleted(v.pods[m].name)
    ensures Chosen(v, phase, v.pods[m]) && b + 1 == HandledAt(v, phase, m)
  {
    UpdatesAt(v.pods, v.spec);
    var n := |v.pods|;
    assert b >= n && Removals(v, phase, v.pods)[b - n] == Script(v, phase)[b];
    var w := DeletedAt(v, phase, v.pods, b - n, v.pods[m].name);
    assert v.pods[w].name == v.pods[m].name;
    assert w == m;
  }

  /** Which pods the whole script of a phase restarts. */
  lemma ScriptRestartsIff(v: View, phase: Phase, pod: Pod)
    requires DistinctNames(v.pods) && pod in v.pods
    ensures RestartedIn(Script(v, phase), pod, v.spec) <==> Chosen(v, phase, pod)
  {
    var m :| 0 <= m < |v.pods| && v.pods[m] == pod;
    if Chosen(v, phase, pod) {
      ChosenIsRestarted(v, phase, m);
    } else if RestartedIn(Script(v, phase), pod, v.spec) {
      var a, b :| 0 <= a < b < |Script(v, phase)|
                  && Script(v, phase)[a] == Updated(pod.owner, v.spec) && Script(v, phase)[b] == Deleted(pod.name);
      DeletedIsChosen(v, phase, m, b);
    }
  }

  lemma {:induction false} DeletionInPart(v: View, phase: Phase, news: seq<Event>, b: nat) returns (m: nat)
    requires news <= Script(v, phase) && b < |news| && news[b].Deleted?
    ensures m < |v.pods| && v.pods[m].name == news[b].pod && Chosen(v, phase, v.pods[m])
    ensures m < b && news[m] == Updated(v.pods[m].owner, v.spec)
    ensures phase == SecondaryDeleted ==> b > 0 && news[b - 1] == SteppedDown(news[b].pod)
  {
    var script, n := Script(v, phase), |v.pods|;
    UpdatesAt(v.pods, v.spec);
    assert news[b] == script[b];
    assert b >= n && Removals(v, phase, v.pods)[b - n] == script[b];
    m := DeletedAt(v, phase, v.pods, b - n, news[b].pod);
    assert news[m] == script[m];
    if phase == SecondaryDeleted {
      assert news[b - 1] == script[b - 1] == Removals(v, phase, v.pods)[b - n - 1];
    }
  }

  /** At every moment of every pass, failed or not: a deleted pod's template was updated before, the primary is deleted
      only in the second phase, right after it stepped down, and secondaries only in the first. */
  lemma {:induction false} EveryDeletion(before: Status, v: View, news: seq<Event>, after: Status, b: nat)
    requires Passed(before, v, news, after)
    requires b < |news| && news[b].Deleted?
    ensures exists pod :: pod in v.pods && pod.name == news[b].pod && Updated(pod.owner, v.spec) in news[..b]
                          && (pod.host == v.primary <==> before.phase == SecondaryDeleted)
    ensures before.phase == SecondaryDeleted ==> b > 0 && news[b - 1] == SteppedDown(news[b].pod)
    ensures before.phase != PrimaryDeleted && v.ready >= v.members
  {
    var m := DeletionInPart(v, before.phase, news, b);
    assert news[..b][m] == Updated(v.pods[m].owner, v.spec);
    assert v.pods[m] in v.pods;
  }

  /** A step-down in what a phase does: whose it is, and in which phase. */
  lemma {:induction false} SteppedAt(v: View, phase: Phase, pods: seq<Pod>, b: nat, name: string) returns (m: nat)
    requires b < |Removals(v, phase, pods)| && Removals(v, phase, pods)[b] == SteppedDown(name)
    ensures m < |pods| && pods[m].name == name && pods[m].host == v.primary && phase == SecondaryDeleted
    ensures b == |Removals(v, phase, pods[..m])|
  {
    var n := |pods| - 1;
    if b < |Removals(v, phase, pods[..n])| {
      m := SteppedAt(v, phase, pods[..n], b, name);
      assert pods[..n][..m] == pods[..m];
    } else {
      m := n;
    }
  }

  lemma {:induction false} NoUpdateLater(v: View, phase: Phase, pods: seq<Pod>, b: nat)
    requires b < |Removals(v, phase, pods)|
    ensures !Removals(v, phase, pods)[b].Updated?
  {
    var n := |pods| - 1;
    if b < |Removals(v, phase, pods[..n])| {
      NoUpdateLater(v, phase, pods[..n], b);
    }
  }

  /** A pod is told to step down only in the second phase, and only if it is the primary. */
  lemma {:induction false} EveryStepDown(before: Status, v: View, news: seq<Event>, after: Status, b: nat)
    requires Passed(before, v, news, after)
    requires b < |news| && news[b].SteppedDown?
    ensures before.phase == SecondaryDeleted && v.ready >= v.members
    ensures exists pod :: pod in v.pods && pod.name == news[b].pod && pod.host == v.primary
    ensures DistinctNames(v.pods) ==> forall pod :: pod in v.pods && pod.host != v.primary ==> news[b] != SteppedDown(pod.name)
  {
    var n := |v.pods|;
    UpdatesAt(v.pods, v.spec);
    assert news[b] == Script(v, before.phase)[b];
    assert b >= n && Removals(v, before.phase, v.pods)[b - n] == news[b];
    var m := SteppedAt(v, before.phase, v.pods, b - n, news[b].pod);
    assert v.pods[m] in v.pods;
  }

  lemma {:induction false} SamePlace(v: View, phase: Phase, b: nat, c: nat)
    requires DistinctNames(v.pods) && b < |Removals(v, phase, v.pods)| && c < |Removals(v, phase, v.pods)|
    requires Removals(v, phase, v.pods)[b] == Removals(v, phase, v.pods)[c]
    ensures b == c
  {
    var all := Removals(v, phase, v.pods);
    NoUpdateLater(v, phase, v.pods, b);
    if all[b].Deleted? {
      var i := DeletedAt(v, phase, v.pods, b, all[b].pod);
      var j := DeletedAt(v, phase, v.pods, c, all[b].pod);
      assert v.pods[i].name == v.pods[j].name;
      assert i == j;
    } else {
      var i := SteppedAt(v, phase, v.pods, b, all[b].pod);
      var j := SteppedAt(v, phase, v.pods, c, all[b].pod);
      assert v.pods[i].name == v.pods[j].name;
      assert i == j;
    }
  }

  /** No pod is deleted or told to step down twice in one pass. */
  lemma {:induction false} NothingTwice(before: Status, v: View, news: seq<Event>, after: Status, b: nat, c: nat)
    requires Passed(before, v, news, after) && DistinctNames(v.pods)
    requires b < c < |news| && !news[b].Updated?
    ensures news[b] != news[c]
  {
    var n := |v.pods|;
    UpdatesAt(v.pods, v.spec);
    assert news[b] == Script(v, before.phase)[b] && news[c] == Script(v, before.phase)[c];
    if news[b] == news[c] {
      SamePlace(v, before.phase, b - n, c - n);
    }
  }

  /** A template is only updated to the spec, and all of them are before any pod is touched. */
  lemma {:induction false} UpdatesFirst(before: Status, v: View, news: seq<Event>, after: Status, b: nat)
    requires Passed(before, v, news, after) && b < |news|
    ensures news[b].Updated? ==> exists pod :: pod in v.pods && news[b] == Updated(pod.owner, v.spec)
    ensures !news[b].Updated? ==> forall pod :: pod in v.pods ==> Updated(pod.owner, v.spec) in news[..b]
  {
    var n := |v.pods|;
    UpdatesAt(v.pods, v.spec);
    assert forall k :: 0 <= k < |news| ==> news[k] == Script(v, before.phase)[k];
    if b >= n {
      NoUpdateLater(v, before.phase, v.pods, b - n);
      forall pod | pod in v.pods
        ensures Updated(pod.owner, v.spec) in news[..b]
      {
        var k :| 0 <= k < n && v.pods[k] == pod;
        assert news[..b][k] == Updated(pod.owner, v.spec);
      }
    } else {
      assert news[b] == Updated(v.pods[b].owner, v.spec) && v.pods[b] in v.pods;
    }
  }

  lemma {:induction false} StepDownOf(v: View, pods: seq<Pod>, m: nat)
    requires m < |pods| && pods[m].host == v.primary
    ensures SteppedDown(pods[m].name) in Removals(v, SecondaryDeleted, pods)
  {
    var n := |pods| - 1;
    if m == n {
      var last := Removal(v, SecondaryDeleted, pods[n]);
      assert last[0] == SteppedDown(pods[n].name);
      assert Removals(v, SecondaryDeleted, pods)[|Removals(v, SecondaryDeleted, pods[..n])|] == last[0];
    } else {
      StepDownOf(v, pods[..n], m);
    }
  }

  /** What a pass that moves the phase has done, by the phase it was in: all secondaries not at the new revision are
      restarted in the first; in the second the primary is told to step down, and restarted if it is not at the new revision. */
  lemma {:induction false} CompletePass(before: Status, v: View, news: seq<Event>, after: Status)
    requires Passed(before, v, news, after) && after.phase != before.phase
    ensures v.ready >= v.members
    ensures Idle(before.phase) ==> after.phase == SecondaryDeleted
                                   && forall p :: p in v.pods && p.host != v.primary && p.revision != v.revision ==> RestartedIn(news, p, v.spec)
    ensures before.phase == SecondaryDeleted ==> after.phase == PrimaryDeleted
                                                 && forall p :: p in v.pods && p.host == v.primary ==>
                                                      SteppedDown(p.name) in news && (p.revision != v.revision ==> RestartedIn(news, p, v.spec))
    ensures before.phase == PrimaryDeleted ==> after.phase == NotInProcess
  {
    forall p | p in v.pods
      ensures Chosen(v, before.phase, p) ==> RestartedIn(news, p, v.spec)
      ensures before.phase == SecondaryDeleted && p.host == v.primary ==> SteppedDown(p.name) in news
    {
      var m :| 0 <= m < |v.pods| && v.pods[m] == p;
      if Chosen(v, before.phase, p) {
        ChosenIsRestarted(v, before.phase, m);
      }
      if before.phase == SecondaryDeleted && p.host == v.primary {
        StepDownOf(v, v.pods, m);
      }
    }
  }

  /** A pass does nothing unless recorded resources differ from the spec and enough pods are ready; resources that were
      never recorded are recorded without a restart. */
  lemma {:induction false} QuietPass(before: Status, v: View, news: seq<Event>, after: Status)
    requires Passed(before, v, news, after)
    ensures news != [] || after.phase != before.phase ==>
              before.current.Some? && before.current.value != v.spec && v.ready >= v.members
    ensures before.current == None && Completed(before, v, after) ==> after == Status(before.phase, Some(v.spec))
    ensures after.current != before.current ==>
              after.current == Some(v.spec) && (before.current == None || (before.phase == PrimaryDeleted && after.phase == NotInProcess))
  {
  }

  // ---------------------------------------------------------------- a cycle

  /** Only a complete pass, begun with enough ready pods, moves the phase. */
  lemma {:induction false} PhaseMoved(before: Status, v: View, news: seq<Event>, after: Status)
    requires Passed(before, v, news, after) && after.phase != before.phase
    ensures after.phase == Next(before.phase) && news == Script(v, before.phase) && v.ready >= v.members
  {
  }

  /** The last moment before a run of equal phases. */
  lemma {:induction false} LastChange(statuses: seq<Status>, k: nat) returns (i: nat)
    requires k < |statuses| && statuses[0].phase != statuses[k].phase
    ensures i < k && statuses[i].phase != statuses[k].phase
    ensures forall x :: i < x <= k ==> statuses[x].phase == statuses[k].phase
  {
    if statuses[k - 1].phase == statuses[k].phase {
      i := LastChange(statuses, k - 1);
    } else {
      i := k - 1;
    }
  }

  /** The pass that entered the phase, and that it was complete. */
  lemma {:induction false} Entered(statuses: seq<Status>, views: seq<View>, news: seq<seq<Event>>, k: nat) returns (i: nat)
    requires IsRun(statuses, views, news) && Idle(statuses[0].phase)
    requires k <= |views| && !Idle(statuses[k].phase)
    ensures i < k && Next(statuses[i].phase) == statuses[k].phase
    ensures news[i] == Script(views[i], statuses[i].phase) && views[i].ready >= views[i].members
    ensures forall x :: i < x <= k ==> statuses[x].phase == statuses[k].phase
  {
    i := LastChange(statuses, k);
    PhaseMoved(statuses[i], views[i], news[i], statuses[i + 1]);
  }

  /** In a run no pod is told to step down before the first phase of the cycle was complete: a pass that found enough
      pods ready had restarted every secondary not at the new revision, and no first phase came in between. */
  lemma {:induction false} StepDownAfterSecondaries(statuses: seq<Status>, views: seq<View>, news: seq<seq<Event>>, k: nat, b: nat) returns (i: nat)
    requires IsRun(statuses, views, news) && Idle(statuses[0].phase)
    requires k < |views| && b < |news[k]| && news[k][b].SteppedDown?
    ensures i < k && Idle(statuses[i].phase) && views[i].ready >= views[i].members
    ensures forall p :: p in views[i].pods && p.host != views[i].primary && p.revision != views[i].revision ==>
                          RestartedIn(news[i], p, views[i].spec)
    ensures forall x :: i < x <= k ==> statuses[x].phase == SecondaryDeleted
  {
    EveryStepDown(statuses[k], views[k], news[k], statuses[k + 1], b);
    i := Entered(statuses, views, news, k);
    CompletePass(statuses[i], views[i], news[i], statuses[i + 1]);
  }

  /** New resources become current by a restart. */
  predicate Adopted(before: Status, v: View, after: Status) {
    before.current.Some? && before.current != Some(v.spec) && after.current == Some(v.spec)
  }

  /** Whenever a restart ends, a complete first phase and later a complete second phase came before it, each begun with
      the expected number of pods ready. */
  lemma RestartHasBothPhases(statuses: seq<Status>, views: seq<View>, news: seq<seq<Event>>, k: nat) returns (i: nat, j: nat)
    requires IsRun(statuses, views, news) && Idle(statuses[0].phase)
    requires k < |views| && Adopted(statuses[k], views[k], statuses[k + 1])
    ensures i < j < k
    ensures Idle(statuses[i].phase) && news[i] == Script(views[i], statuses[i].phase) && views[i].ready >= views[i].members
    ensures statuses[j].phase == SecondaryDeleted && news[j] == Script(views[j], SecondaryDeleted) && views[j].ready >= views[j].members
    ensures statuses[k].phase == PrimaryDeleted && views[k].ready >= views[k].members
  {
    assert Passed(statuses[k], views[k], news[k], statuses[k + 1]);
    j := Entered(statuses, views, news, k);
    i := Entered(statuses, views, news, j);
  }

  /** Three passes without errors and with all pods ready are enough. */
  lemma ThreePassesSuffice(a: Status, b: Status, c: Status, d: Status, u: View, v: View, w: View)
    requires Idle(a.phase) && a.current.Some? && a.current != Some(u.spec)
    requires u.spec == v.spec == w.spec
    requires u.ready >= u.members && v.ready >= v.members && w.ready >= w.members
    requires Completed(a, u, b) && Completed(b, v, c) && Completed(c, w, d)
    ensures d == Status(NotInProcess, Some(u.spec))
  {
  }
}
