/** The condition lists of the two planes, and that any sequence of updates makes them behave as keyed maps. */
module Conditions {
  import opened Outcomes

  /** A condition; the time is zero until it is set. */
  datatype Condition = Condition(kind: string, status: string, time: nat, reason: string, message: string)

  /** The control plane keys conditions by type, the data plane by type and message. */
  datatype Plane = ControlPlane | DataPlane

  function Key(plane: Plane, c: Condition): (string, string) {
    match plane
    case ControlPlane => (c.kind, "")
    case DataPlane => (c.kind, c.message)
  }

  /** An update and the time at which it is made. */
  datatype Update = Update(condition: Condition, now: nat)

  /** The condition an update stores under a new key. */
  function Stored(plane: Plane, u: Update): Condition {
    if plane == DataPlane || u.condition.time == 0 then u.condition.(time := u.now) else u.condition
  }

  /** The condition an update makes of the stored one. The control plane keeps the time while the status stays. */
  function Merged(plane: Plane, stored: Condition, u: Update): Condition {
    match plane
    case DataPlane => Stored(plane, u)
    case ControlPlane =>
      Condition(stored.kind, u.condition.status,
                if stored.status == u.condition.status then stored.time else Stored(plane, u).time,
                u.condition.reason, u.condition.message)
  }

  /** Where the key is in the list. */
  function Find(plane: Plane, list: seq<Condition>, key: (string, string)): (r: Option<nat>)
    ensures r.Some? ==> r.value < |list| && Key(plane, list[r.value]) == key
    ensures r.Some? ==> forall k :: 0 <= k < r.value ==> Key(plane, list[k]) != key
    ensures r.None? ==> forall k :: 0 <= k < |list| ==> Key(plane, list[k]) != key
  {
    FindFrom(plane, list, key, 0)
  }

  function FindFrom(plane: Plane, list: seq<Condition>, key: (string, string), i: nat): (r: Option<nat>)
    requires i <= |list| && forall k :: 0 <= k < i ==> Key(plane, list[k]) != key
    ensures r.Some? ==> r.value < |list| && Key(plane, list[r.value]) == key
    ensures r.Some? ==> forall k :: 0 <= k < r.value ==> Key(plane, list[k]) != key
    ensures r.None? ==> forall k :: 0 <= k < |list| ==> Key(plane, list[k]) != key
    decreases |list| - i
  {
    if i == |list| then None
    else if Key(plane, list[i]) == key then Some(i)
    else FindFrom(plane, list, key, i + 1)
  }

  function Put(plane: Plane, list: seq<Condition>, u: Update): seq<Condition> {
    match Find(plane, list, Key(plane, u.condition))
    case None => list + [Stored(plane, u)]
    case Some(i) => list[i := Merged(plane, list[i], u)]
  }

  function PutAll(plane: Plane, us: seq<Update>): seq<Condition> {
    if us == [] then [] else Put(plane, PutAll(plane, us[..|us| - 1]), us[|us| - 1])
  }

  // ---------------------------------------------------------------- the map view

  /** What is stored under a key after a sequence of updates, looking only at the updates with that key. */
  function Entry(plane: Plane, us: seq<Update>, key: (string, string)): Option<Condition> {
    if us == [] then None
    else
      var u, before := us[|us| - 1], Entry(plane, us[..|us| - 1], key);
      if Key(plane, u.condition) != key then before
      else Some(match before case None => Stored(plane, u) case Some(c) => Merged(plane, c, u))
  }

  /** The keys in the order of their first update. */
  function Keys(plane: Plane, us: seq<Update>): seq<(string, string)> {
    if us == [] then []
    else
      var k, before := Key(plane, us[|us| - 1].condition), Keys(plane, us[..|us| - 1]);
      if k in before then before else before + [k]
  }

  /** The list holds one entry per key, in the order of `keys`, each as `entry` says. */
  ghost predicate Represents(plane: Plane, list: seq<Condition>, us: seq<Update>) {
    && |list| == |Keys(plane, us)|
    && forall i :: 0 <= i < |list| ==>
                     Key(plane, list[i]) == Keys(plane, us)[i] && Entry(plane, us, Keys(plane, us)[i]) == Some(list[i])
  }

  lemma {:induction false} KeysDistinct(plane: Plane, us: seq<Update>)
    ensures forall i, j :: 0 <= i < j < |Keys(plane, us)| ==> Keys(plane, us)[i] != Keys(plane, us)[j]
    ensures forall key :: key in Keys(plane, us) <==> Entry(plane, us, key).Some?
  {
    if us == [] {
    } else {
      KeysDistinct(plane, us[..|us| - 1]);
    }
  }

  /** After any sequence of updates the list is a keyed map: one entry per key ever updated, in the order of first
      insertion, holding what the updates with that key alone determine. */
  lemma {:induction false} ListIsMap(plane: Plane, us: seq<Update>)
    ensures Represents(plane, PutAll(plane, us), us)
  {
    if us == [] {
    } else {
      var n := |us| - 1;
      var before, u := us[..n], us[n];
      ListIsMap(plane, before);
      KeysDistinct(plane, before);
      var list, key := PutAll(plane, before), Key(plane, u.condition);
      assert Key(plane, Stored(plane, u)) == key;
      match Find(plane, list, key) {
        case None =>
          forall i | 0 <= i < |list|
            ensures Keys(plane, before)[i] != key
          {
            assert Key(plane, list[i]) != key;
          }
        case Some(i) =>
          assert Keys(plane, before)[i] == key;
      }
    }
  }

  /** The latest update with a key is visible, and nothing before it but, in the control plane, the time. The data plane
      stores the time of the update; the control plane, when the status is new, the time the condition brings, or that of
      the update if it brings none. */
  lemma LatestIsVisible(plane: Plane, us: seq<Update>, u: Update)
    ensures var before, c := Entry(plane, us, Key(plane, u.condition)), Entry(plane, us + [u], Key(plane, u.condition));
            && c.Some?
            && c.value.kind == u.condition.kind && c.value.status == u.condition.status
            && c.value.reason == u.condition.reason && c.value.message == u.condition.message
            && (plane == DataPlane ==> c.value.time == u.now)
            && (plane == ControlPlane && (before.None? || before.value.status != u.condition.status) ==>
                  c.value.time == if u.condition.time == 0 then u.now else u.condition.time)
            && (plane == ControlPlane && before.Some? && before.value.status == u.condition.status ==> c.value.time == before.value.time)
  {
    var key := Key(plane, u.condition);
    assert (us + [u])[..|us|] == us;
    EntryKind(plane, us, key);
  }

  lemma {:induction false} EntryKind(plane: Plane, us: seq<Update>, key: (string, string))
    ensures Entry(plane, us, key).Some? ==> Key(plane, Entry(plane, us, key).value) == key
  {
    if us == [] {
    } else {
      EntryKind(plane, us[..|us| - 1], key);
    }
  }

  /** The update that began the current status of a type: the status has stayed since, and was another one, or none,
      before. Its time is the transition time. */
  ghost predicate Began(us: seq<Update>, key: (string, string), k: nat) {
    && k < |us| && Key(ControlPlane, us[k].condition) == key
    && Entry(ControlPlane, us, key).Some?
    && Entry(ControlPlane, us, key).value.time == (if us[k].condition.time == 0 then us[k].now else us[k].condition.time)
    && (forall x :: k <= x < |us| && Key(ControlPlane, us[x].condition) == key ==>
                      us[x].condition.status == Entry(ControlPlane, us, key).value.status)
    && var before := Entry(ControlPlane, us[..k], key);
       before.Some? ==> before.value.status != us[k].condition.status
  }

  /** In the control plane the transition time changes only when the status does: it is the time of the update that
      began the present run of equal statuses. */
  lemma {:induction false} TimeOfTransition(us: seq<Update>, key: (string, string)) returns (k: nat)
    requires Entry(ControlPlane, us, key).Some?
    ensures Began(us, key, k)
  {
    var n := |us| - 1;
    var front := us[..n];
    var before := Entry(ControlPlane, front, key);
    if Key(ControlPlane, us[n].condition) == key && (before.None? || before.value.status != us[n].condition.status) {
      k := n;
    } else {
      k := TimeOfTransition(front, key);
      assert front[..k] == us[..k];
      assert forall x :: 0 <= x < n ==> front[x] == us[x];
    }
  }

  /** Two conditions of one type that differ in the message share one entry in the control plane and have two in the data
      plane; two of different types never share one. */
  lemma {:induction false} TwoConditions(a: Update, b: Update)
    requires a.condition.message != b.condition.message
    ensures |PutAll(ControlPlane, [a] + [b])| == if a.condition.kind == b.condition.kind then 1 else 2
    ensures |PutAll(DataPlane, [a] + [b])| == 2
  {
    forall plane
      ensures PutAll(plane, [a]) == [Stored(plane, a)]
    {
      assert [a][..0] == [] && PutAll(plane, []) == [];
    }
    assert ([a] + [b])[..1] == [a];
  }

  // ---------------------------------------------------------------- the methods

  class ConditionList {
    var conditions: seq<Condition>

    constructor ()
      ensures conditions == []
    {
      conditions := [];
    }

    /** The search loop of FindStatusCondition and GetCondition. */
    method FindCondition(plane: Plane, key: (string, string)) returns (r: Option<nat>)
      ensures r == Find(plane, conditions, key)
    {
      var i := 0;
      while i < |conditions|
        invariant 0 <= i <= |conditions|
        invariant forall k :: 0 <= k < i ==> Key(plane, conditions[k]) != key
      {
        if Key(plane, conditions[i]) == key {
          return Some(i);
        }
        i := i + 1;
      }
      r := None;
    }

    /** The control plane's update, through a pointer into the list. */
    method SetStatusCondition(newCondition: Condition, now: nat)
      modifies this
      ensures conditions == Put(ControlPlane, old(conditions), Update(newCondition, now))
    {
      var time := if newCondition.time == 0 then now else newCondition.time;
      var existing := FindCondition(ControlPlane, (newCondition.kind, ""));
      match existing {
        case None =>
          conditions := conditions + [newCondition.(time := time)];
        case Some(i) =>
          if conditions[i].status != newCondition.status {
            conditions := conditions[i := conditions[i].(status := newCondition.status, time := time)];
          }
          conditions := conditions[i := conditions[i].(reason := newCondition.reason, message := newCondition.message)];
      }
    }

    /** The data plane's update: the entry is overwritten. */
    method UpdateCondition(condition: Condition, now: nat)
      modifies this
      ensures conditions == Put(DataPlane, old(conditions), Update(condition, now))
    {
      var stamped := condition.(time := now);
      var conditionIndex := FindCondition(DataPlane, (condition.kind, condition.message));
      match conditionIndex {
        case None => conditions := conditions + [stamped];
        case Some(i) => conditions := conditions[i := stamped];
      }
    }
  }
}
