/** Member ids over time: when a run of the shared configuration gives out an id that was in use before. */
module SharedIds {
  import opened Membership
  import opened SharedConfig
  import opened SharedRuns

  /** Some configuration up to number `n` had a member with the id. */
  ghost predicate Used(states: seq<Conf>, n: nat, id: int)
    requires n < |states|
  {
    exists x, m :: 0 <= x <= n && m in states[x].members && m.id == id
  }

  ghost predicate Joins(states: seq<Conf>, n: nat, m: Member)
    requires n + 1 < |states|
  {
    m in states[n + 1].members && m.host !in Hosts(states[n].members)
  }

  /** Step `n` gives out the id. */
  ghost predicate Gives(states: seq<Conf>, n: nat, id: int)
    requires n + 1 < |states|
  {
    exists m :: Joins(states, n, m) && m.id == id
  }

  /** Step `n` gives out only ids that were never in use. */
  ghost predicate GivesUnused(states: seq<Conf>, n: nat)
    requires n + 1 < |states|
  {
    forall id :: Gives(states, n, id) ==> !Used(states, n, id)
  }

  /** Step `n` gives out only ids above all that were ever in use. */
  ghost predicate GivesHigher(states: seq<Conf>, n: nat)
    requires n + 1 < |states|
  {
    forall given, used :: Gives(states, n, given) && Used(states, n, used) ==> used < given
  }

  /** No id ever in use exceeds the largest present one: the highest id ever in use is still in use. */
  ghost predicate TopPresent(states: seq<Conf>, n: nat)
    requires n < |states|
  {
    forall id :: Used(states, n, id) ==> id <= MaxId(states[n].members)
  }

  /** How many different hosts the step asks for that are not present. */
  function Joining(before: Conf, action: Action): nat {
    match action
    case Add(add) => |Hosts(add) - Hosts(before.members)|
    case Remove(_) => 0
    case Fail => 0
  }

  /** None of the ids next in line, one for each joining host, was ever in use. */
  ghost predicate NextAreUnused(states: seq<Conf>, n: nat, action: Action)
    requires n < |states|
  {
    forall id :: Used(states, n, id) ==> !(MaxId(states[n].members) < id <= MaxId(states[n].members) + Joining(states[n], action))
  }

  /** The members that join in an addition are the fresh ones. */
  lemma {:induction false} JoiningAreFresh(before: Conf, add: seq<Member>, after: Conf, m: Member)
    requires Sound(before) && Stepped(before, Add(add), after)
    ensures m in after.members && m.host !in Hosts(before.members)
       <==> m in Fresh(Hosts(before.members), add, MaxId(before.members))
  {
    var present, maxId := Hosts(before.members), MaxId(before.members);
    var news, all := Fresh(present, add, maxId), Added(before.members, add);
    FreshHosts(present, add, maxId);
    HostsExact(news);
    HostsExact(before.members);
    if !(Hosts(add) <= present) {
      AddedIsSound(before.members, add);
      ByHostExact(all);
      assert forall x :: x in all <==> x in before.members || x in news;
      if m in news {
        assert ByHost(all)[m.host] == m;
      }
    }
  }

  /** An addition gives out the ids next in line after the largest present, one for each joining host. */
  lemma {:induction false} AdditionGives(states: seq<Conf>, n: nat, add: seq<Member>, id: int)
    requires n + 1 < |states| && Sound(states[n]) && Stepped(states[n], Add(add), states[n + 1])
    ensures Gives(states, n, id) <==> MaxId(states[n].members) < id <= MaxId(states[n].members) + Joining(states[n], Add(add))
  {
    var before, after := states[n], states[n + 1];
    var present, maxId := Hosts(before.members), MaxId(before.members);
    var news := Fresh(present, add, maxId);
    AddKeeps(before, add, after);
    FreshHosts(present, add, maxId);
    FreshIds(present, add, maxId);
    FreshUnique(present, add, maxId);
    HostCount(news);
    assert Hosts(news) == Hosts(add) - present;
    if maxId < id <= maxId + |news| {
      var m := news[id - maxId - 1];
      JoiningAreFresh(before, add, after, m);
      assert Joins(states, n, m) && m.id == id;
    }
    if Gives(states, n, id) {
      var m :| Joins(states, n, m) && m.id == id;
      JoiningAreFresh(before, add, after, m);
    }
  }

  lemma {:induction false} NoneGiven(states: seq<Conf>, n: nat, id: int)
    requires n + 1 < |states| && Hosts(states[n + 1].members) <= Hosts(states[n].members)
    ensures !Gives(states, n, id)
  {
    HostsExact(states[n + 1].members);
  }

  lemma {:induction false} StepGives(states: seq<Conf>, actions: seq<Action>, n: nat, id: int)
    requires IsRun(states, actions) && n < |actions| && Sound(states[n])
    ensures Gives(states, n, id) <==> MaxId(states[n].members) < id <= MaxId(states[n].members) + Joining(states[n], actions[n])
  {
    if actions[n].Add? {
      AdditionGives(states, n, actions[n].members, id);
    } else {
      StepKeeps(states[n], actions[n], states[n + 1]);
      NoneGiven(states, n, id);
    }
  }

  /** An addition gives out only ids that were never in use if and only if none of those next in line ever was. */
  lemma {:induction false} GivesUnusedIff(states: seq<Conf>, actions: seq<Action>, n: nat)
    requires IsRun(states, actions) && n < |actions| && Sound(states[n])
    ensures GivesUnused(states, n) <==> NextAreUnused(states, n, actions[n])
  {
    forall id
      ensures Gives(states, n, id) <==> MaxId(states[n].members) < id <= MaxId(states[n].members) + Joining(states[n], actions[n])
    {
      StepGives(states, actions, n, id);
    }
  }

  /** It gives out only ids above all former ones if and only if it adds nothing or the highest id ever in use still is. */
  lemma {:induction false} GivesHigherIff(states: seq<Conf>, actions: seq<Action>, n: nat)
    requires IsRun(states, actions) && n < |actions| && Sound(states[n])
    ensures GivesHigher(states, n) <==> Joining(states[n], actions[n]) == 0 || TopPresent(states, n)
  {
    var maxId := MaxId(states[n].members);
    forall id
      ensures Gives(states, n, id) <==> maxId < id <= maxId + Joining(states[n], actions[n])
    {
      StepGives(states, actions, n, id);
    }
    if Joining(states[n], actions[n]) > 0 {
      assert Gives(states, n, maxId + 1);
    }
  }

  /** Over a whole run: no id is ever given out twice if and only if no addition finds a former id next in line; it is
      enough that at every addition the highest id ever in use is still in use. */
  lemma {:induction false} NeverReusedIff(states: seq<Conf>, actions: seq<Action>)
    requires IsRun(states, actions) && Sound(states[0])
    ensures (forall n :: 0 <= n < |actions| ==> GivesUnused(states, n)) <==> (forall n :: 0 <= n < |actions| ==> NextAreUnused(states, n, actions[n]))
    ensures (forall n :: 0 <= n < |actions| ==> GivesHigher(states, n))
       <==> (forall n :: 0 <= n < |actions| ==> Joining(states[n], actions[n]) == 0 || TopPresent(states, n))
    ensures (forall n :: 0 <= n < |actions| ==> GivesHigher(states, n)) ==> forall n :: 0 <= n < |actions| ==> GivesUnused(states, n)
  {
    RunIsSound(states, actions);
    forall n | 0 <= n < |actions|
      ensures GivesUnused(states, n) <==> NextAreUnused(states, n, actions[n])
      ensures GivesHigher(states, n) <==> Joining(states[n], actions[n]) == 0 || TopPresent(states, n)
      ensures GivesHigher(states, n) ==> GivesUnused(states, n)
    {
      GivesUnusedIff(states, actions, n);
      GivesHigherIff(states, actions, n);
    }
  }

  /** Without reuse an id belongs to one host for the whole run. */
  lemma {:induction false} UnusedMeansUnique(states: seq<Conf>, actions: seq<Action>, x: nat, y: nat, a: Member, b: Member)
    requires IsRun(states, actions) && Sound(states[0])
    requires forall n :: 0 <= n < |actions| ==> GivesUnused(states, n)
    requires x <= y < |states| && a in states[x].members && b in states[y].members && a.id == b.id
    ensures a.host == b.host
    decreases y
  {
    RunIsSound(states, actions);
    if x == y {
    } else {
      var n := y - 1;
      assert Used(states, n, a.id);
      assert GivesUnused(states, n);
      HostsExact(states[y].members);
      var b' := StayedAs(states, actions, n, b);
      UnusedMeansUnique(states, actions, x, n, a, b');
    }
  }

  /** A member that did not join was there before, unchanged. */
  lemma {:induction false} StayedAs(states: seq<Conf>, actions: seq<Action>, n: nat, b: Member) returns (m: Member)
    requires IsRun(states, actions) && n < |actions| && Sound(states[n])
    requires b in states[n + 1].members && b.host in Hosts(states[n].members)
    ensures m in states[n].members && m.host == b.host && m.id == b.id
  {
    StepKeeps(states[n], actions[n], states[n + 1]);
    HostsExact(states[n].members);
    HostsExact(states[n + 1].members);
    m :| m in states[n].members && m.host == b.host;
    assert m in states[n + 1].members;
    var i :| 0 <= i < |states[n + 1].members| && states[n + 1].members[i] == m;
    var j :| 0 <= j < |states[n + 1].members| && states[n + 1].members[j] == b;
    assert !(i < j) && !(j < i);
  }
}
