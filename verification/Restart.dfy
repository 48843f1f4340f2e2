/** The rolling restart of a member cluster after a change of resources: a state machine whose phase survives between
    passes, and whose every write may fail, with or without effect. */
module Restart {
  import opened Outcomes

  /** Status.RestartState; the empty string is Unset. */
  datatype Phase = Unset | NotInProcess | SecondaryDeleted | PrimaryDeleted

  datatype Resources = Resources(cpuLimit: nat, memoryLimit: nat, cpuRequest: nat, memoryRequest: nat)

  /** A listed pod: its StatefulSet, its replica-set host and the hash of its revision. */
  datatype Pod = Pod(name: string, owner: string, host: string, revision: string)

  /** What one pass sees: the spec, the pods, how many of them are ready, the primary's host ("" for none). */
  datatype View = View(
    spec: Resources,
    members: nat,
    revision: string,
    pods: seq<Pod>,
    ready: nat,
    primary: string)

  /** What a pass does to the cluster. */
  datatype Event = Updated(owner: string, resources: Resources) | SteppedDown(pod: string) | Deleted(pod: string)

  datatype Status = Status(phase: Phase, current: Option<Resources>)

  // ---------------------------------------------------------------- the script of a pass

  function Updates(pods: seq<Pod>, spec: Resources): seq<Event> {
    if pods == [] then [] else Updates(pods[..|pods| - 1], spec) + [Updated(pods[|pods| - 1].owner, spec)]
  }

  /** DeletePodInRestart. */
  function Deletion(v: View, pod: Pod): seq<Event> {
    if pod.revision == v.revision then [] else [Deleted(pod.name)]
  }

  /** What a phase does to one pod. */
  function Removal(v: View, phase: Phase, pod: Pod): seq<Event> {
    match phase
    case SecondaryDeleted => if pod.host == v.primary then [SteppedDown(pod.name)] + Deletion(v, pod) else []
    case PrimaryDeleted => []
    case _ => if pod.host == v.primary then [] else Deletion(v, pod)
  }

  function Removals(v: View, phase: Phase, pods: seq<Pod>): seq<Event> {
    if pods == [] then []
    else Removals(v, phase, pods[..|pods| - 1]) + Removal(v, phase, pods[|pods| - 1])
  }

  /** Everything a pass does if nothing fails. */
  function Script(v: View, phase: Phase): seq<Event> {
    Updates(v.pods, v.spec) + Removals(v, phase, v.pods)
  }

  function Next(phase: Phase): Phase {
    match phase
    case SecondaryDeleted => PrimaryDeleted
    case PrimaryDeleted => NotInProcess
    case _ => SecondaryDeleted
  }

  /** One pass of checkRestart. Nothing happens unless the resources differ and enough pods are ready; then a part of
      the script is done, and only the whole script moves the phase; the new resources become current at the end of the
      last phase. Resources that were never recorded are recorded at once. */
  ghost predicate Passed(before: Status, v: View, news: seq<Event>, after: Status) {
    if before.current == Some(v.spec) then
      after == before && news == []
    else if before.current.None? then
      news == [] && after.phase == before.phase && (after.current.None? || after.current == Some(v.spec))
    else if v.ready < v.members then
      after == before && news == []
    else
      && news <= Script(v, before.phase)
      && (after == before ||
          (&& news == Script(v, before.phase)
           && after.phase == Next(before.phase)
           && (after.current == before.current || (before.phase == PrimaryDeleted && after.current == Some(v.spec)))))
  }

  /** Where a pass without errors leads. */
  predicate Completed(before: Status, v: View, after: Status) {
    if before.current == Some(v.spec) then after == before
    else if before.current.None? then after == before.(current := Some(v.spec))
    else if v.ready < v.members then after == before
    else
      && after.phase == Next(before.phase)
      && after.current == if before.phase == PrimaryDeleted then Some(v.spec) else before.current
  }

  lemma {:induction false} UpdatesPrefix(pods: seq<Pod>, i: nat, spec: Resources)
    requires i <= |pods|
    ensures Updates(pods[..i], spec) <= Updates(pods, spec)
    decreases |pods|
  {
    if i == |pods| {
      assert pods[..i] == pods;
    } else {
      assert pods[..|pods| - 1][..i] == pods[..i];
      UpdatesPrefix(pods[..|pods| - 1], i, spec);
    }
  }

  lemma {:induction false} RemovalsPrefix(v: View, phase: Phase, pods: seq<Pod>, i: nat)
    requires i <= |pods|
    ensures Removals(v, phase, pods[..i]) <= Removals(v, phase, pods)
    decreases |pods|
  {
    if i == |pods| {
      assert pods[..i] == pods;
    } else {
      assert pods[..|pods| - 1][..i] == pods[..i];
      RemovalsPrefix(v, phase, pods[..|pods| - 1], i);
    }
  }

  lemma UpdatesStep(v: View, phase: Phase, i: nat)
    requires i < |v.pods|
    ensures Updates(v.pods[..i + 1], v.spec) == Updates(v.pods[..i], v.spec) + [Updated(v.pods[i].owner, v.spec)]
    ensures Updates(v.pods[..i], v.spec) <= Script(v, phase) && Updates(v.pods[..i + 1], v.spec) <= Script(v, phase)
  {
    assert v.pods[..i + 1][..i] == v.pods[..i];
    UpdatesPrefix(v.pods, i, v.spec);
    UpdatesPrefix(v.pods, i + 1, v.spec);
  }

  lemma RemovalsStep(v: View, phase: Phase, i: nat)
    requires i < |v.pods|
    ensures Removals(v, phase, v.pods[..i + 1]) == Removals(v, phase, v.pods[..i]) + Removal(v, phase, v.pods[i])
    ensures Removals(v, phase, v.pods[..i + 1]) <= Removals(v, phase, v.pods)
  {
    assert v.pods[..i + 1][..i] == v.pods[..i];
    RemovalsPrefix(v, phase, v.pods, i + 1);
  }

  /** A part of the script was done between two logs. */
  ghost predicate Grew(before: seq<Event>, after: seq<Event>, script: seq<Event>) {
    before <= after && after[|before|..] <= script
  }

  lemma GrewBy(before: seq<Event>, after: seq<Event>, news: seq<Event>, script: seq<Event>)
    requires after == before + news && news <= script
    ensures Grew(before, after, script)
  {
    assert after[|before|..] == news;
  }

  lemma GrewFurther(start: seq<Event>, mid: seq<Event>, after: seq<Event>, done: seq<Event>, piece: seq<Event>, script: seq<Event>)
    requires mid == start + done && Grew(mid, after, piece) && done + piece <= script
    ensures Grew(start, after, script)
  {
    var part := after[|mid|..];
    assert after == mid + part && after == start + (done + part);
    assert done + part <= done + piece;
    GrewBy(start, after, done + part, script);
  }

  lemma AppendFurther(start: seq<Event>, mid: seq<Event>, after: seq<Event>, done: seq<Event>, piece: seq<Event>)
    requires mid == start + done && after == mid + piece
    ensures after == start + (done + piece)
  {
  }

  // ---------------------------------------------------------------- the operator

  class Instance {
    var phase: Phase
    var current: Option<Resources>
    ghost var log: seq<Event>

    constructor ()
      ensures Current() == Status(Unset, None) && log == []
    {
      phase, current, log := Unset, None, [];
    }

    function Current(): Status
      reads this
    {
      Status(phase, current)
    }

    /** Deleting a pod, unless it already has the new revision. */
    method DeletePodInRestart(v: View, pod: Pod) returns (outcome: Outcome)
      modifies this`log
      ensures log == old(log) + Deletion(v, pod) || (outcome == Failed && log == old(log))
    {
      if pod.revision == v.revision {
        return Done;
      }
      if * {
        return Failed;
      }
      log := log + [Deleted(pod.name)];
      if * {
        return Failed;
      }
      outcome := Done;
    }

    method StepDown(pod: Pod) returns (outcome: Outcome)
      modifies this`log
      ensures log == old(log) + [SteppedDown(pod.name)] || (outcome == Failed && log == old(log))
    {
      if * {
        return Failed;
      }
      log := log + [SteppedDown(pod.name)];
      if * {
        return Failed;
      }
      outcome := Done;
    }

    /** The loop over the StatefulSets. */
    method UpdateTemplates(v: View) returns (outcome: Outcome)
      modifies this`log
      ensures Grew(old(log), log, Script(v, phase))
      ensures outcome.Done? ==> log == old(log) + Updates(v.pods, v.spec)
    {
      var i := 0;
      assert log == old(log) + Updates(v.pods[..0], v.spec);
      while i < |v.pods|
        invariant 0 <= i <= |v.pods| && log == old(log) + Updates(v.pods[..i], v.spec)
      {
        UpdatesStep(v, phase, i);
        // GetSts
        if * {
          GrewBy(old(log), log, Updates(v.pods[..i], v.spec), Script(v, phase));
          return Failed;
        }
        if * {
          GrewBy(old(log), log, Updates(v.pods[..i], v.spec), Script(v, phase));
          return Failed;
        }
        log := log + [Updated(v.pods[i].owner, v.spec)];
        assert log == old(log) + Updates(v.pods[..i + 1], v.spec);
        if * {
          GrewBy(old(log), log, Updates(v.pods[..i + 1], v.spec), Script(v, phase));
          return Failed;
        }
        i := i + 1;
      }
      assert v.pods[..i] == v.pods;
      GrewBy(old(log), log, Updates(v.pods, v.spec), Script(v, phase));
      outcome := Done;
    }

    /** What the current phase does to one pod. */
    method HandlePod(v: View, pod: Pod) returns (outcome: Outcome)
      requires phase != PrimaryDeleted
      modifies this`log
      ensures Grew(old(log), log, Removal(v, phase, pod))
      ensures outcome.Done? ==> log == old(log) + Removal(v, phase, pod)
    {
      ghost var script := Removal(v, phase, pod);
      GrewBy(old(log), log, [], script);
      // judgePodIsPrimary
      if * {
        return Failed;
      }
      var isPrimary := pod.host == v.primary;
      outcome := Done;
      if phase == SecondaryDeleted {
        if isPrimary {
          outcome := StepDown(pod);
          assert script == [SteppedDown(pod.name)] + Deletion(v, pod);
          if outcome != Done {
            return;
          }
          outcome := DeletePodInRestart(v, pod);
        }
      } else {
        if !isPrimary {
          outcome := DeletePodInRestart(v, pod);
        }
      }
    }

    /** The loop over the pods that one phase deletes. */
    method HandlePods(v: View) returns (outcome: Outcome)
      requires phase != PrimaryDeleted
      modifies this`log
      ensures Grew(old(log), log, Removals(v, phase, v.pods))
      ensures outcome.Done? ==> log == old(log) + Removals(v, phase, v.pods)
    {
      ghost var script := Removals(v, phase, v.pods);
      var i := 0;
      assert log == old(log) + Removals(v, phase, v.pods[..0]);
      while i < |v.pods|
        invariant 0 <= i <= |v.pods| && log == old(log) + Removals(v, phase, v.pods[..i])
      {
        RemovalsStep(v, phase, i);
        ghost var before := log;
        outcome := HandlePod(v, v.pods[i]);
        if outcome != Done {
          GrewFurther(old(log), before, log, Removals(v, phase, v.pods[..i]), Removal(v, phase, v.pods[i]), script);
          return;
        }
        AppendFurther(old(log), before, log, Removals(v, phase, v.pods[..i]), Removal(v, phase, v.pods[i]));
        i := i + 1;
      }
      assert v.pods[..i] == v.pods;
      GrewBy(old(log), log, script, script);
      outcome := Done;
    }

    /** UpdateRestartState: an error may hide that the write took effect. */
    method UpdateRestartState(next: Phase) returns (outcome: Outcome)
      modifies this`phase
      ensures phase == next || (outcome == Failed && phase == old(phase))
    {
      if * {
        return Failed;
      }
      phase := next;
      if * {
        return Failed;
      }
      outcome := Done;
    }

    method UpdateCurrentResources(resources: Resources) returns (outcome: Outcome)
      modifies this`current
      ensures current == Some(resources) || (outcome == Failed && current == old(current))
    {
      if * {
        return Failed;
      }
      current := Some(resources);
      if * {
        return Failed;
      }
      outcome := Done;
    }

    /** Restart: whether the restart is over. */
    method Restart(v: View) returns (over: bool, outcome: Outcome)
      modifies this
      ensures current == old(current)
      ensures v.ready < v.members ==> !over && Current() == old(Current()) && log == old(log)
      ensures v.ready >= v.members ==> Grew(old(log), log, Script(v, old(phase)))
      ensures v.ready >= v.members ==>
                phase == old(phase) || (phase == Next(old(phase)) && log == old(log) + Script(v, old(phase)))
      ensures outcome.Done? && v.ready >= v.members ==> phase == Next(old(phase)) && log == old(log) + Script(v, old(phase))
      ensures outcome.Done? ==> (over <==> v.ready >= v.members && old(phase) == PrimaryDeleted)
    {
      over := false;
      ghost var script := Script(v, phase);
      GrewBy(old(log), log, [], script);
      // ListPod
      if * {
        return false, Failed;
      }
      if v.ready < v.members {
        return false, Done;
      }
      // GetPrimaryPod
      if * {
        return false, Failed;
      }
      outcome := UpdateTemplates(v);
      if outcome != Done {
        return;
      }
      if phase == PrimaryDeleted {
        assert Removals(v, PrimaryDeleted, v.pods) == [] by {
          NothingLeft(v, v.pods);
        }
        assert log == old(log) + script;
        GrewBy(old(log), log, script, script);
        outcome := UpdateRestartState(NotInProcess);
        return true, outcome;
      }
      ghost var updated := log;
      outcome := HandlePods(v);
      GrewFurther(old(log), updated, log, Updates(v.pods, v.spec), Removals(v, phase, v.pods), script);
      if outcome != Done {
        return;
      }
      assert log == old(log) + script;
      outcome := UpdateRestartState(Next(phase));
    }

    lemma {:induction false} NothingLeft(v: View, pods: seq<Pod>)
      ensures Removals(v, PrimaryDeleted, pods) == []
    {
      if pods == [] {
      } else {
        NothingLeft(v, pods[..|pods| - 1]);
      }
    }

    /** checkRestart: one pass. */
    method CheckRestart(v: View) returns (outcome: Outcome, ghost news: seq<Event>)
      modifies this
      ensures log == old(log) + news && Passed(old(Current()), v, news, Current())
      ensures outcome.Done? ==> Completed(old(Current()), v, Current())
    {
      news := [];
      if current == Some(v.spec) {
        return Done, [];
      }
      if current.None? {
        outcome := UpdateCurrentResources(v.spec);
        return;
      }
      // UpdateState may fail too, but its error is overwritten by that of Restart.
      var restartOver: bool;
      restartOver, outcome := Restart(v);
      news := log[|old(log)|..];
      assert log == old(log) + news;
      if outcome.Done? && restartOver {
        outcome := UpdateCurrentResources(v.spec);
      }
    }
  }
}
