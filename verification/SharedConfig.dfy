/** The configuration document of the replica set, shared by the operators of all member clusters. Each of them changes
    it by reading it, editing the members and writing it back, taken here as one step that may fail. */
module SharedConfig {
  import opened Outcomes
  import opened Membership

  datatype Conf = Conf(members: seq<Member>, version: int)

  /** One step on the configuration: an addition, a removal, or a failure without effect. */
  datatype Action = Add(members: seq<Member>) | Remove(members: seq<Member>) | Fail

  ghost predicate Stepped(before: Conf, action: Action, after: Conf) {
    match action
    case Add(add) =>
      if Hosts(add) <= Hosts(before.members) then after == before
      else Lists(after.members, ByHost(Added(before.members, add))) && after.version == before.version + 1
    case Remove(del) =>
      if Hosts(before.members) * Hosts(del) == {} then after == before
      else Lists(after.members, Without(before.members, Hosts(del))) && after.version == before.version + 1
    case Fail => after == before
  }

  /** What MongoDB demands of a configuration. */
  ghost predicate Sound(conf: Conf) {
    UniqueHosts(conf.members) && UniqueIds(conf.members) && forall m :: m in conf.members ==> m.id >= 0
  }

  /** The hosts after a step. */
  function HostsAfter(hosts: set<string>, action: Action): set<string> {
    match action
    case Add(add) => hosts + Hosts(add)
    case Remove(del) => hosts - Hosts(del)
    case Fail => hosts
  }

  lemma ListedHosts(members: seq<Member>, table: map<string, Member>)
    requires Lists(members, table) && Keyed(table)
    ensures Hosts(members) == table.Keys
  {
    HostsExact(members);
    forall h | h in table
      ensures h in Hosts(members)
    {
      assert table[h] in members;
    }
  }

  /** Old and fresh members together are sound. */
  lemma AddedIsSound(src: seq<Member>, add: seq<Member>)
    requires Sound(Conf(src, 0))
    ensures Sound(Conf(Added(src, add), 0))
    ensures Hosts(Added(src, add)) == Hosts(src) + Hosts(add)
  {
    var present, maxId := Hosts(src), MaxId(src);
    FreshIds(present, add, maxId);
    FreshUnique(present, add, maxId);
    FreshHosts(present, add, maxId);
    HostsOfSum(src, Fresh(present, add, maxId));
    HostsExact(src);
    forall i | 0 <= i < |src|
      ensures src[i].id <= maxId && src[i].host in present
    {
      assert src[i] in src;
    }
  }

  /** Some members of a sound list, each once, are sound. */
  lemma SomeOfSound(all: seq<Member>, some: seq<Member>)
    requires Sound(Conf(all, 0)) && UniqueHosts(some)
    requires forall m :: m in some ==> m in all
    ensures Sound(Conf(some, 0))
  {
    forall i, j | 0 <= i < j < |some|
      ensures some[i].id != some[j].id
    {
      assert some[i] in all && some[j] in all;
    }
  }

  /** Every step keeps the configuration sound, keeps the record of every member that stays, changes the hosts
      as asked, and raises the version exactly when the hosts change; otherwise it changes nothing. */
  lemma {:induction false} StepKeeps(before: Conf, action: Action, after: Conf)
    requires Sound(before) && Stepped(before, action, after)
    ensures Sound(after)
    ensures forall m :: m in before.members && m.host in Hosts(after.members) ==> m in after.members
    ensures Hosts(after.members) == HostsAfter(Hosts(before.members), action)
    ensures after.version == before.version + if Hosts(after.members) == Hosts(before.members) then 0 else 1
    ensures Hosts(after.members) == Hosts(before.members) ==> after == before
  {
    match action {
      case Fail =>
      case Add(add) =>
        AddKeeps(before, add, after);
      case Remove(del) =>
        RemoveKeeps(before, del, after);
    }
  }

  lemma {:induction false} AddKeeps(before: Conf, add: seq<Member>, after: Conf)
    requires Sound(before) && Stepped(before, Add(add), after)
    ensures Sound(after)
    ensures forall m :: m in before.members ==> m in after.members
    ensures Hosts(after.members) == Hosts(before.members) + Hosts(add)
  {
    if !(Hosts(add) <= Hosts(before.members)) {
      AllStay(before.members, add, after.members);
    }
  }

  lemma {:induction false} AllStay(src: seq<Member>, add: seq<Member>, rest: seq<Member>)
    requires Sound(Conf(src, 0)) && Lists(rest, ByHost(Added(src, add)))
    ensures Sound(Conf(rest, 0))
    ensures forall m :: m in src ==> m in rest
    ensures Hosts(rest) == Hosts(src) + Hosts(add)
  {
    var all := Added(src, add);
    AddedIsSound(src, add);
    ByHostExact(all);
    SomeOfSound(all, rest);
    ListedHosts(rest, ByHost(all));
    forall m | m in src
      ensures m in rest
    {
      assert m in all;
      assert ByHost(all)[m.host] == m;
    }
  }

  /** A member that was not there before carries one of the records that were to be added, up to the id. */
  lemma {:induction false} JoinedAs(before: Conf, add: seq<Member>, after: Conf, records: seq<Member>)
    requires Stepped(before, Add(add), after) && forall m :: m in add ==> m.(id := 0) in records
    ensures forall m :: m in after.members ==> m in before.members || m.(id := 0) in records
  {
    FreshRecords(Hosts(before.members), add, MaxId(before.members), records);
    ByHostExact(Added(before.members, add));
  }

  lemma {:induction false} RemoveKeeps(before: Conf, del: seq<Member>, after: Conf)
    requires Sound(before) && Stepped(before, Remove(del), after)
    ensures Sound(after)
    ensures forall m :: m in before.members && m.host !in Hosts(del) ==> m in after.members
    ensures Hosts(after.members) == Hosts(before.members) - Hosts(del)
  {
    if Hosts(before.members) * Hosts(del) != {} {
      SomeStay(before.members, Hosts(del), after.members);
    } else {
      HostsExact(before.members);
    }
  }

  lemma {:induction false} WithoutExact(src: seq<Member>, gone: set<string>)
    requires UniqueHosts(src)
    ensures Keyed(Without(src, gone)) && Without(src, gone).Keys == Hosts(src) - gone
    ensures forall h :: h in Without(src, gone) ==> Without(src, gone)[h] in src
    ensures forall m :: m in src && m.host !in gone ==> m.host in Without(src, gone) && Without(src, gone)[m.host] == m
  {
    ByHostExact(src);
    assert Lists(src, ByHost(src));
  }

  lemma {:induction false} SomeStay(src: seq<Member>, gone: set<string>, rest: seq<Member>)
    requires Sound(Conf(src, 0)) && Lists(rest, Without(src, gone))
    ensures Sound(Conf(rest, 0))
    ensures forall m :: m in src && m.host !in gone ==> m in rest
    ensures Hosts(rest) == Hosts(src) - gone
  {
    WithoutExact(src, gone);
    var table := Without(src, gone);
    ListedHosts(rest, table);
    forall m | m in rest
      ensures m in src
    {
      assert m == table[m.host];
    }
    SomeOfSound(src, rest);
  }

  lemma OneMember(m: Member)
    ensures Hosts([m]) == {m.host} && ByHost([m]) == map[m.host := m]
  {
    assert [m][..0] == [];
  }

  // ---------------------------------------------------------------- who changed what

  /** A step with the cluster that took it. */
  datatype Step = Step(who: string, action: Action, before: Conf, after: Conf)

  /** The configuration after the steps. */
  function EndOf(start: Conf, history: seq<Step>): Conf {
    if history == [] then start else history[|history| - 1].after
  }

  /** One step of `who` was taken, or none. */
  ghost predicate Took(who: string, action: Action, outcome: Outcome, past: seq<Step>, before: Conf, now: seq<Step>, after: Conf) {
    || (now == past + [Step(who, action, before, after)] && Stepped(before, action, after))
    || (outcome == Failed && now == past && after == before)
  }

  /** Each step begins where the one before it ended. */
  ghost predicate Chained(start: Conf, history: seq<Step>) {
    && (history != [] ==> history[0].before == start)
    && (forall j, k :: 0 <= j < k < |history| && k == j + 1 ==> history[j].after == history[k].before)
  }

  /** Each step is what its action makes of the configuration. */
  ghost predicate Lawful(history: seq<Step>) {
    forall k :: 0 <= k < |history| ==> Stepped(history[k].before, history[k].action, history[k].after)
  }

  lemma {:induction false} ChainedOn(start: Conf, history: seq<Step>, s: Step)
    requires Chained(start, history) && s.before == EndOf(start, history)
    ensures Chained(start, history + [s])
  {
    var longer := history + [s];
    assert forall k :: 0 <= k < |history| ==> longer[k] == history[k];
    assert longer[|history|] == s;
  }

  /** No record but those of the hosts is taken out. */
  ghost predicate TakesOnly(s: Step, hosts: set<string>) {
    forall m :: m in s.before.members && m.host !in hosts ==> m in s.after.members
  }

  /** No record but those of the hosts is put in. */
  ghost predicate PutsOnly(s: Step, hosts: set<string>) {
    forall m :: m in s.after.members && m.host !in hosts ==> m in s.before.members
  }

  ghost predicate Spares(s: Step, mine: set<string>) {
    forall m: Member :: m.host in mine ==> (m in s.before.members <==> m in s.after.members)
  }

  /** A step of `who` takes out only records of `out` and puts in only records of `into`, whatever cluster they belong to; a
      step of another leaves the records of `mine` alone. */
  ghost predicate Proper(who: string, mine: set<string>, out: set<string>, into: set<string>, s: Step) {
    if s.who == who then TakesOnly(s, out) && PutsOnly(s, into) else Spares(s, mine)
  }

  /** All steps after those of `before` are of this kind. */
  ghost predicate Acted(who: string, mine: set<string>, out: set<string>, into: set<string>, before: seq<Step>, after: seq<Step>) {
    if |after| <= |before| then after == before
    else
      var n := |after| - 1;
      Proper(who, mine, out, into, after[n]) && Acted(who, mine, out, into, before, after[..n])
  }

  lemma {:induction false} ActedExact(who: string, mine: set<string>, out: set<string>, into: set<string>, before: seq<Step>, after: seq<Step>)
    ensures Acted(who, mine, out, into, before, after)
       <==> before <= after && forall k :: |before| <= k < |after| ==> Proper(who, mine, out, into, after[k])
    decreases |after|
  {
    if |after| > |before| {
      var n := |after| - 1;
      ActedExact(who, mine, out, into, before, after[..n]);
      assert forall k :: 0 <= k < n ==> after[..n][k] == after[k];
    }
  }

  /** What was done in two parts, the first within `out` and `into`, the second within `out'` and `into'`. */
  lemma {:induction false} ActedTwice(who: string, mine: set<string>, out: set<string>, into: set<string>, out': set<string>, into': set<string>,
                                      all: set<string>, allInto: set<string>, a: seq<Step>, b: seq<Step>, c: seq<Step>)
    requires Acted(who, mine, out, into, a, b) && Acted(who, mine, out', into', b, c)
    requires out <= all && out' <= all && into <= allInto && into' <= allInto
    ensures Acted(who, mine, all, allInto, a, c)
  {
    ActedExact(who, mine, out, into, a, b);
    ActedExact(who, mine, out', into', b, c);
    forall k | |a| <= k < |c|
      ensures Proper(who, mine, all, allInto, c[k])
    {
      assert k < |b| ==> b[k] == c[k];
    }
    ActedExact(who, mine, all, allInto, a, c);
  }

  /** A removal takes out the listed hosts and an addition puts in the listed hosts; neither touches another record. */
  lemma {:induction false} StepTouches(s: Step)
    requires Sound(s.before) && Stepped(s.before, s.action, s.after)
    ensures TakesOnly(s, if s.action.Remove? then Hosts(s.action.members) else {})
    ensures PutsOnly(s, if s.action.Add? then Hosts(s.action.members) else {})
  {
    match s.action {
      case Fail =>
      case Add(add) =>
        AddPuts(s.before, add, s.after);
      case Remove(del) =>
        RemoveKeeps(s.before, del, s.after);
        RemoveTakes(s.before, del, s.after);
    }
  }

  lemma {:induction false} AddPuts(before: Conf, add: seq<Member>, after: Conf)
    requires Sound(before) && Stepped(before, Add(add), after)
    ensures forall m :: m in before.members ==> m in after.members
    ensures forall m :: m in after.members && m.host !in Hosts(add) ==> m in before.members
  {
    AddKeeps(before, add, after);
    if !(Hosts(add) <= Hosts(before.members)) {
      ListedIffAdded(before.members, add, after.members);
      FreshHosts(Hosts(before.members), add, MaxId(before.members));
      HostsExact(Fresh(Hosts(before.members), add, MaxId(before.members)));
    }
  }

  lemma {:induction false} RemoveTakes(before: Conf, del: seq<Member>, after: Conf)
    requires Sound(before) && Stepped(before, Remove(del), after)
    ensures forall m :: m in after.members ==> m in before.members
  {
    if Hosts(before.members) * Hosts(del) != {} {
      LeftAre(before.members, Hosts(del), after.members);
    }
  }

  lemma {:induction false} ChainedPrefix(start: Conf, history: seq<Step>, n: nat)
    requires Chained(start, history) && n <= |history|
    ensures Chained(start, history[..n])
  {
  }

  lemma {:induction false} ActedMore(who: string, mine: set<string>, out: set<string>, into: set<string>, out': set<string>, into': set<string>,
                                     before: seq<Step>, after: seq<Step>)
    requires Acted(who, mine, out, into, before, after) && out <= out' && into <= into'
    ensures Acted(who, mine, out', into', before, after)
  {
    ActedExact(who, mine, out, into, before, after);
    ActedExact(who, mine, out', into', before, after);
  }

  /** One step of the cluster itself. */
  lemma {:induction false} OwnStep(who: string, mine: set<string>, action: Action, outcome: Outcome,
                                   past: seq<Step>, before: Conf, now: seq<Step>, after: Conf)
    requires Sound(before) && Took(who, action, outcome, past, before, now, after)
    ensures Acted(who, mine, if action.Remove? then Hosts(action.members) else {}, if action.Add? then Hosts(action.members) else {}, past, now)
  {
    if now != past {
      StepTouches(now[|past|]);
      assert now[..|past|] == past;
    }
  }

  /** One step of another cluster, on other hosts. */
  lemma {:induction false} OthersStep(me: string, who: string, mine: set<string>, action: Action, outcome: Outcome,
                                      past: seq<Step>, before: Conf, now: seq<Step>, after: Conf)
    requires Sound(before) && Took(who, action, outcome, past, before, now, after) && who != me
    requires !action.Fail? ==> Hosts(action.members) !! mine
    ensures Acted(me, mine, {}, {}, past, now)
  {
    if now != past {
      StepTouches(now[|past|]);
      assert now[..|past|] == past;
    }
  }

  /** What these steps leave of a cluster's own records: none but those of `out` is lost, none but those of `into` is new. */
  lemma {:induction false} StillThere(who: string, mine: set<string>, out: set<string>, into: set<string>,
                                      start: Conf, before: seq<Step>, after: seq<Step>, m: Member)
    requires Chained(start, after) && Acted(who, mine, out, into, before, after) && m.host in mine
    ensures m in EndOf(start, before).members && m.host !in out ==> m in EndOf(start, after).members
    ensures m in EndOf(start, after).members && m.host !in into ==> m in EndOf(start, before).members
    decreases |after|
  {
    if |after| > |before| {
      var n := |after| - 1;
      ChainedPrefix(start, after, n);
      StillThere(who, mine, out, into, start, before, after[..n], m);
      assert after[n].before == EndOf(start, after[..n]);
    }
  }

  // ---------------------------------------------------------------- the shared document

  lemma StepOf(before: Conf, action: Action, after: Conf)
    requires Stepped(before, action, after)
    ensures Sound(before) ==> Sound(after) && Hosts(after.members) == HostsAfter(Hosts(before.members), action)
  {
    if Sound(before) {
      StepKeeps(before, action, after);
    }
  }

  class ReplicaSet {
    var members: seq<Member>
    var version: int
    /** What it was at first, and all steps since, with the clusters that took them. */
    ghost const start: Conf
    ghost var history: seq<Step>

    constructor (members: seq<Member>, version: int)
      ensures Current() == Conf(members, version) && Recorded() && Lawful(history) && history == []
    {
      this.members, this.version := members, version;
      start, history := Conf(members, version), [];
    }

    function Current(): Conf
      reads this
    {
      Conf(members, version)
    }

    function HostSet(): set<string>
      reads this
    {
      Hosts(members)
    }

    /** The history explains the present configuration. */
    ghost predicate Recorded()
      reads this
    {
      Chained(start, history) && EndOf(start, history) == Current()
    }

    /** ReadConfig, edit, version++, WriteConfig. The write may take effect although its answer is an error. */
    method AddMembers(add: seq<Member>, ghost who: string) returns (outcome: Outcome)
      modifies this
      ensures outcome != Panicked && Took(who, Add(add), outcome, old(history), old(Current()), history, Current()) && (old(Recorded()) ==> Recorded()) && (old(Lawful(history)) ==> Lawful(history))
      ensures Sound(old(Current())) ==>
                && Sound(Current())
                && (HostSet() == old(HostSet()) + Hosts(add) || (outcome == Failed && HostSet() == old(HostSet())))
    {
      ghost var before := Current();
      if * {
        return Failed;
      }
      var r, changed := Membership.AddMembers(members, add);
      if changed {
        if * {
          return Failed;
        }
        members, version := r, version + 1;
      }
      StepOf(before, Add(add), Current());
      ghost var step := Step(who, Add(add), before, Current());
      if old(Recorded()) {
        ChainedOn(start, history, step);
      }
      history := history + [step];
      if changed {
        if * {
          return Failed;
        }
      }
      outcome := Done;
    }

    method RemoveMembers(del: seq<Member>, ghost who: string) returns (outcome: Outcome)
      modifies this
      ensures outcome != Panicked && Took(who, Remove(del), outcome, old(history), old(Current()), history, Current()) && (old(Recorded()) ==> Recorded()) && (old(Lawful(history)) ==> Lawful(history))
      ensures Sound(old(Current())) ==>
                && Sound(Current())
                && (HostSet() == old(HostSet()) - Hosts(del) || (outcome == Failed && HostSet() == old(HostSet())))
    {
      ghost var before := Current();
      if * {
        return Failed;
      }
      var r, changed := Membership.RemoveMembers(members, del);
      if changed {
        if * {
          return Failed;
        }
        members, version := r, version + 1;
      }
      StepOf(before, Remove(del), Current());
      ghost var step := Step(who, Remove(del), before, Current());
      if old(Recorded()) {
        ChainedOn(start, history, step);
      }
      history := history + [step];
      if changed {
        if * {
          return Failed;
        }
      }
      outcome := Done;
    }
  }
}
