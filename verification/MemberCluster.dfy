/** One member cluster: its StatefulSets, and how a SyncMember pass adds and removes the members it runs, while the
    operators of other clusters change the same replica-set configuration in between. */
module MemberCluster {
  import opened Outcomes
  import opened HostConf
  import opened Membership
  import opened SharedConfig
  import opened ReplSetRecords
  import opened ReplSetJoin
  import opened StatefulSets

  const NO_OPTIONS := Options(0, 0, false, false, false, 0, map[])

  ghost predicate SameWithin(mine: set<string>, before: set<string>, after: set<string>) {
    forall h :: h in mine ==> (h in before <==> h in after)
  }

  ghost predicate NoneAdded(mine: set<string>, before: set<string>, after: set<string>) {
    forall h :: h in mine && h in after ==> h in before
  }

  /** Within `mine`, nothing was removed and nothing but `hosts` was added. */
  ghost predicate OnlyAdded(mine: set<string>, hosts: set<string>, before: set<string>, after: set<string>) {
    forall h :: h in mine ==> (h in before ==> h in after) && (h in after ==> h in before || h in hosts)
  }

  /** One step of another cluster, which concerns other hosts. */
  method OthersTurn(replicas: ReplicaSet, mine: set<string>, me: string)
    requires Sound(replicas.Current()) && replicas.Recorded()
    modifies replicas
    ensures Sound(replicas.Current()) && replicas.Recorded()
    ensures SameWithin(mine, old(replicas.HostSet()), replicas.HostSet())
    ensures Acted(me, mine, {}, {}, old(replicas.history), replicas.history)
  {
    var who: string := *;
    var others: seq<Member> := *;
    if who != me && Hosts(others) !! mine {
      var outcome;
      if * {
        outcome := replicas.AddMembers(others, who);
        OthersStep(me, who, mine, Add(others), outcome, old(replicas.history), old(replicas.Current()), replicas.history, replicas.Current());
      } else {
        outcome := replicas.RemoveMembers(others, who);
        OthersStep(me, who, mine, Remove(others), outcome, old(replicas.history), old(replicas.Current()), replicas.history, replicas.Current());
      }
    }
  }

  /** The steps of the other clusters leave the hosts of this one alone. */
  method Meanwhile(replicas: ReplicaSet, mine: set<string>, me: string)
    requires Sound(replicas.Current()) && replicas.Recorded()
    modifies replicas
    ensures Sound(replicas.Current()) && replicas.Recorded()
    ensures SameWithin(mine, old(replicas.HostSet()), replicas.HostSet())
    ensures Acted(me, mine, {}, {}, old(replicas.history), replicas.history)
  {
    var steps: nat := *;
    while steps > 0
      invariant Sound(replicas.Current()) && replicas.Recorded()
      invariant SameWithin(mine, old(replicas.HostSet()), replicas.HostSet())
      invariant Acted(me, mine, {}, {}, old(replicas.history), replicas.history)
    {
      ghost var before := replicas.history;
      OthersTurn(replicas, mine, me);
      ActedTwice(me, mine, {}, {}, {}, {}, {}, {}, old(replicas.history), before, replicas.history);
      steps := steps - 1;
    }
  }

  class Cluster {
    const vip: string
    /** The node port every service of this cluster has, had or will have. */
    const ports: map<string, nat>
    const replicas: ReplicaSet
    var sets: Sets
    var services: set<string>
    var datas: string
    var arbiters: string
    /** The spec: how many data members, whether an arbiter runs here, whether metrics services are kept. */
    var members: nat
    var arbiter: bool
    var exporter: bool
    /** Whether the cluster-admin user exists; before that the configuration is left alone. */
    var admin: bool
    /** The StatefulSets whose pods have been told to step down, one entry for each time. */
    ghost var steppedDown: seq<string>

    constructor (vip: string, ports: map<string, nat>, replicas: ReplicaSet)
      ensures this.vip == vip && this.ports == ports && this.replicas == replicas && sets == map[]
    {
      this.vip, this.ports, this.replicas := vip, ports, replicas;
      sets, services, datas, arbiters, members := map[], {}, "", "", 0;
      arbiter, exporter, admin, steppedDown := false, false, false, [];
    }

    /** The host under which the members of a StatefulSet are configured. */
    function Host(name: string): string
      requires name in ports
    {
      Address(Endpoint(vip, ports[name]))
    }

    /** The pods belong to StatefulSets of this cluster. */
    predicate Known(pods: seq<Pod>) {
      forall k :: 0 <= k < |pods| ==> pods[k].owner in ports
    }

    function Mine(): set<string> {
      set n | n in ports :: Host(n)
    }

    ghost predicate Valid()
      reads this, replicas
    {
      && Sound(replicas.Current()) && replicas.Recorded()
      && sets.Keys + services <= ports.Keys
      && ':' !in vip
      && forall a, b :: a in ports && b in ports && a != b ==> ports[a] != ports[b]
    }

    /** Distinct node ports give distinct hosts. */
    lemma HostInjective(a: string, b: string)
      requires a in ports && b in ports && ':' !in vip && Host(a) == Host(b)
      ensures ports[a] == ports[b]
    {
      AddressInjective(Endpoint(vip, ports[a]), Endpoint(vip, ports[b]));
    }

    /** Of the records of this cluster none but those of `out` is lost and none but those of `into` is new. */
    ghost predicate RecordsKept(before: seq<Member>, after: seq<Member>, out: set<string>, into: set<string>) {
      forall m: Member :: m.host in Mine() ==> (m in before && m.host !in out ==> m in after) && (m in after && m.host !in into ==> m in before)
    }

    /** What the history says about the records of this cluster. */
    lemma {:induction false} RecordsStay(past: seq<Step>, out: set<string>, into: set<string>)
      requires Valid() && Acted(vip, Mine(), out, into, past, replicas.history)
      ensures RecordsKept(EndOf(replicas.start, past).members, replicas.members, out, into)
    {
      forall m: Member | m.host in Mine()
        ensures m in EndOf(replicas.start, past).members && m.host !in out ==> m in replicas.members
        ensures m in replicas.members && m.host !in into ==> m in EndOf(replicas.start, past).members
      {
        StillThere(vip, Mine(), out, into, replicas.start, past, replicas.history, m);
      }
    }

    /** The same for the hosts. */
    lemma {:induction false} HostsStay(past: seq<Step>, before: seq<Member>, out: set<string>, into: set<string>)
      requires Valid() && Acted(vip, Mine(), out, into, past, replicas.history) && EndOf(replicas.start, past).members == before
      ensures forall h :: h in Mine() && h in Hosts(before) && h !in out ==> h in replicas.HostSet()
      ensures forall h :: h in Mine() && h in replicas.HostSet() && h !in into ==> h in Hosts(before)
    {
      RecordsStay(past, out, into);
      HostsExact(before);
      HostsExact(replicas.members);
    }

    // ------------------------------------------------------------ removing one member

    /** DeleteSts: from the deletion on the StatefulSet is terminating or already gone. */
    method DeleteSts(name: string) returns (outcome: Outcome)
      modifies this`sets
      ensures outcome != Panicked
      ensures Shrunk(old(sets), sets) && Gone(old(sets), sets) <= {name}
      ensures outcome.Done? ==> !Alive(sets, name)
    {
      if * {
        return Failed;
      }
      if name in sets {
        if * {
          sets := sets - {name};
        } else {
          sets := sets[name := sets[name].(alive := false)];
        }
      }
      if * {
        return Failed;
      }
      outcome := Done;
    }

    method MongoRemoveMember(host: string) returns (outcome: Outcome)
      requires Valid()
      modifies replicas
      ensures Valid()
      ensures NoneAdded(Mine(), old(replicas.HostSet()), replicas.HostSet())
      ensures Acted(vip, Mine(), {host}, {}, old(replicas.history), replicas.history)
      ensures RecordsKept(old(replicas.members), replicas.members, {host}, {})
      ensures outcome.Done? && host in Mine() ==> host !in replicas.HostSet()
    {
      var addresses: seq<string>;
      outcome, addresses := ConfigMapToAddress(datas);
      if outcome != Done {
        return;
      }
      // connecting to MongoDB
      if * {
        return Failed;
      }
      Meanwhile(replicas, Mine(), vip);
      ghost var past, before := replicas.history, replicas.Current();
      var member := Member(host, 0, NO_OPTIONS);
      OneMember(member);
      outcome := replicas.RemoveMembers([member], vip);
      OwnStep(vip, Mine(), Remove([member]), outcome, past, before, replicas.history, replicas.Current());
      ActedTwice(vip, Mine(), {}, {}, {host}, {}, {host}, {}, old(replicas.history), past, replicas.history);
      RecordsStay(old(replicas.history), {host}, {});
    }

    /** The member leaves the configuration before its StatefulSet is deleted. */
    method MongoRemoveMemberAndDeleteSts(pod: Pod) returns (outcome: Outcome)
      requires Valid() && pod.owner in ports
      modifies replicas, this`sets
      ensures Valid()
      ensures Shrunk(old(sets), sets) && Gone(old(sets), sets) <= {pod.owner}
      ensures NoneAdded(Mine(), old(replicas.HostSet()), replicas.HostSet())
      ensures Acted(vip, Mine(), {Host(pod.owner)}, {}, old(replicas.history), replicas.history)
      ensures Gone(old(sets), sets) != {} ==> Host(pod.owner) !in replicas.HostSet()
      ensures outcome.Done? ==> !Alive(sets, pod.owner) && Host(pod.owner) !in replicas.HostSet()
    {
      outcome := MongoRemoveMember(Host(pod.owner));
      if outcome != Done {
        return;
      }
      ghost var past := replicas.history;
      outcome := DeleteSts(pod.owner);
      Meanwhile(replicas, Mine(), vip);
      ActedTwice(vip, Mine(), {Host(pod.owner)}, {}, {}, {}, {Host(pod.owner)}, {}, old(replicas.history), past, replicas.history);
      if outcome != Done {
        return;
      }
      if exporter {
        if * {
          return Failed;
        }
      }
    }

    /** Kubernetes finishes some of the deletions that have begun. */
    method Finalize()
      modifies this`sets
      ensures Shrunk(old(sets), sets) && Gone(old(sets), sets) == {}
    {
      var finished: set<string> := *;
      sets := map n | n in sets && (sets[n].alive || n !in finished) :: sets[n];
    }

    // ------------------------------------------------------------ scaling down

    /** The exits of scaleDownDataNode: whatever fails, no more StatefulSets go than asked for, and none whose member
        is still configured. */
    ghost predicate SafelyShrunk(before: Sets, after: Sets, quota: nat, hosts: set<string>)
      requires before.Keys <= ports.Keys
    {
      && Shrunk(before, after)
      && Gone(before, after) <= OfKind(before, false)
      && |Gone(before, after)| <= quota
      && forall n :: n in Gone(before, after) ==> Host(n) !in hosts
    }

    /** Between two turns: deletions finish, and other clusters change the configuration. */
    method Elapse(ghost before: Sets, ghost quota: nat)
      requires Valid() && before.Keys <= ports.Keys && SafelyShrunk(before, sets, quota, replicas.HostSet())
      modifies replicas, this`sets
      ensures Valid() && SafelyShrunk(before, sets, quota, replicas.HostSet())
      ensures Gone(before, sets) == Gone(before, old(sets)) && Shrunk(old(sets), sets)
      ensures SameWithin(Mine(), old(replicas.HostSet()), replicas.HostSet())
      ensures Acted(vip, Mine(), {}, {}, old(replicas.history), replicas.history)
    {
      Finalize();
      ShrunkTwice(before, old(sets), sets);
      Meanwhile(replicas, Mine(), vip);
    }

    /** What the loop of scaleDownDataNode has reached after `i` pods. */
    ghost predicate Through(before: Sets, after: Sets, pods: seq<Pod>, i: nat, hosts: set<string>)
      requires i <= |pods| && before.Keys <= ports.Keys
    {
      && SafelyShrunk(before, after, i, hosts)
      && forall j :: 0 <= j < i ==> !Alive(after, pods[j].owner)
    }

    /** One turn further, complete or not. */
    lemma {:induction false} TurnMade(before: Sets, mid: Sets, now: Sets, pods: seq<Pod>, i: nat, complete: bool, hosts: set<string>, later: set<string>)
      requires before.Keys <= ports.Keys && i < |pods| && pods[i].owner in ports
      requires pods[i].owner in before ==> !before[pods[i].owner].arbiter
      requires Through(before, mid, pods, i, hosts) && NoneAdded(Mine(), hosts, later)
      requires Shrunk(mid, now) && Gone(mid, now) <= {pods[i].owner}
      requires complete ==> !Alive(now, pods[i].owner)
      requires complete || Gone(mid, now) != {} ==> Host(pods[i].owner) !in later
      ensures SafelyShrunk(before, now, i + 1, later)
      ensures Gone(before, now) == Gone(before, mid) + Gone(mid, now)
      ensures complete ==> Through(before, now, pods, i + 1, later)
    {
      OneMoreGone(before, mid, now, pods[i].owner, i);
      NextOwner(pods, i);
      forall n | n in Gone(before, now)
        ensures Host(n) !in later
      {
        assert Host(n) in Mine();
      }
    }

    method StepDown(pod: Pod) returns (outcome: Outcome)
      modifies this`steppedDown
      ensures steppedDown == old(steppedDown) + [pod.owner] || (outcome == Failed && steppedDown == old(steppedDown))
    {
      if * {
        return Failed;
      }
      steppedDown := steppedDown + [pod.owner];
      if * {
        return Failed;
      }
      outcome := Done;
    }

    /** A pod that says whether it is the master. A master that has not been told to step down is left alone, and nobody
        else is told. */
    method AskAndRemove(pod: Pod, isMaster: bool) returns (outcome: Outcome)
      requires Valid() && pod.owner in ports
      modifies replicas, this`sets, this`steppedDown
      ensures Valid()
      ensures Shrunk(old(sets), sets) && Gone(old(sets), sets) <= {pod.owner}
      ensures NoneAdded(Mine(), old(replicas.HostSet()), replicas.HostSet())
      ensures Acted(vip, Mine(), {Host(pod.owner)}, {}, old(replicas.history), replicas.history)
      ensures Gone(old(sets), sets) != {} ==> Host(pod.owner) !in replicas.HostSet()
      ensures outcome.Done? ==> !Alive(sets, pod.owner) && Host(pod.owner) !in replicas.HostSet()
      ensures steppedDown == old(steppedDown) + (if isMaster then [pod.owner] else [])
              || (outcome != Done && steppedDown == old(steppedDown) && sets == old(sets) && replicas.history == old(replicas.history))
    {
      // GetMgoDataNodeInfo
      if * {
        return Failed;
      }
      if isMaster {
        outcome := StepDown(pod);
        if outcome != Done {
          return;
        }
      }
      outcome := MongoRemoveMemberAndDeleteSts(pod);
    }

    /** One turn of the loop. */
    method ScaleDownOne(pods: seq<Pod>, i: nat, isMaster: bool, ghost before: Sets) returns (outcome: Outcome)
      requires Valid() && i < |pods| && pods[i].owner in ports && before.Keys <= ports.Keys
      requires pods[i].owner in before ==> !before[pods[i].owner].arbiter
      requires Through(before, sets, pods, i, replicas.HostSet())
      modifies replicas, this`sets, this`steppedDown
      ensures Valid()
      ensures SafelyShrunk(before, sets, i + 1, replicas.HostSet())
      ensures Gone(before, sets) <= Gone(before, old(sets)) + {pods[i].owner}
      ensures outcome.Done? ==> Through(before, sets, pods, i + 1, replicas.HostSet())
      ensures NoneAdded(Mine(), old(replicas.HostSet()), replicas.HostSet())
      ensures Acted(vip, Mine(), {Host(pods[i].owner)}, {}, old(replicas.history), replicas.history)
      ensures steppedDown == old(steppedDown) + (if isMaster then [pods[i].owner] else [])
              || (&& outcome != Done && steppedDown == old(steppedDown) && Gone(before, sets) == Gone(before, old(sets))
                  && Acted(vip, Mine(), {}, {}, old(replicas.history), replicas.history))
    {
      Elapse(before, i);
      ghost var mid, hosts, past := sets, replicas.HostSet(), replicas.history;
      outcome := AskAndRemove(pods[i], isMaster);
      ActedTwice(vip, Mine(), {}, {}, {Host(pods[i].owner)}, {}, {Host(pods[i].owner)}, {}, old(replicas.history), past, replicas.history);
      TurnMade(before, mid, sets, pods, i, outcome == Done, hosts, replicas.HostSet());
    }

    /** The StatefulSets of the masters among the first `k` pods. */
    function Masters(pods: seq<Pod>, masters: seq<bool>, k: nat): seq<string>
      requires k <= |pods| == |masters|
    {
      if k == 0 then [] else Masters(pods, masters, k - 1) + if masters[k - 1] then [pods[k - 1].owner] else []
    }

    /** Only of the first `k` pods a StatefulSet or a record may be gone, and exactly the masters among them were told. */
    ghost predicate Reached(before: Sets, now: Sets, pods: seq<Pod>, masters: seq<bool>, k: nat,
                            told: seq<string>, stepped: seq<string>, past: seq<Step>, history: seq<Step>)
      requires k <= |pods| == |masters| && Known(pods)
    {
      && Gone(before, now) <= Owners(pods[..k])
      && stepped == told + Masters(pods, masters, k)
      && Acted(vip, Mine(), PodHosts(pods[..k]), {}, past, history)
    }

    lemma {:induction false} OwnersReached(before: Sets, mid: Sets, now: Sets, pods: seq<Pod>, i: nat)
      requires i < |pods| && Gone(before, mid) <= Owners(pods[..i]) && Gone(before, now) <= Gone(before, mid) + {pods[i].owner}
      ensures Gone(before, now) <= Owners(pods[..i + 1])
    {
      NextOwner(pods, i);
    }

    lemma {:induction false} HostsReached(pods: seq<Pod>, i: nat, past: seq<Step>, h: seq<Step>, h': seq<Step>)
      requires Known(pods) && i < |pods|
      requires Acted(vip, Mine(), PodHosts(pods[..i]), {}, past, h) && Acted(vip, Mine(), {Host(pods[i].owner)}, {}, h, h')
      ensures Acted(vip, Mine(), PodHosts(pods[..i + 1]), {}, past, h')
    {
      PodHostsStep(pods, i);
      ActedTwice(vip, Mine(), PodHosts(pods[..i]), {}, {Host(pods[i].owner)}, {}, PodHosts(pods[..i + 1]), {}, past, h, h');
    }

    /** One more pod is reached, unless it is a master that was not told. */
    lemma {:induction false} ReachedOne(before: Sets, mid: Sets, now: Sets, pods: seq<Pod>, masters: seq<bool>, i: nat,
                                        told: seq<string>, stepped: seq<string>, stepped': seq<string>,
                                        past: seq<Step>, h: seq<Step>, h': seq<Step>) returns (k: nat)
      requires Known(pods) && i < |pods| == |masters| && Reached(before, mid, pods, masters, i, told, stepped, past, h)
      requires Gone(before, now) <= Gone(before, mid) + {pods[i].owner}
      requires Acted(vip, Mine(), {Host(pods[i].owner)}, {}, h, h')
      requires stepped' == stepped + (if masters[i] then [pods[i].owner] else [])
               || (stepped' == stepped && Gone(before, now) == Gone(before, mid) && Acted(vip, Mine(), {}, {}, h, h'))
      ensures i <= k <= i + 1 && Reached(before, now, pods, masters, k, told, stepped', past, h')
      ensures stepped' == stepped + (if masters[i] then [pods[i].owner] else []) ==> k == i + 1
    {
      if stepped' == stepped + (if masters[i] then [pods[i].owner] else []) {
        k := i + 1;
        OwnersReached(before, mid, now, pods, i);
        HostsReached(pods, i, past, h, h');
      } else {
        k := i;
        ActedTwice(vip, Mine(), PodHosts(pods[..i]), {}, {}, {}, PodHosts(pods[..i]), {}, past, h, h');
      }
    }

    /** scaleDownDataNode: `found` data StatefulSets were listed and `m` are wanted. `masters` says which of the pods
        report that they are the master when they are asked. At every exit some first pods, no more than asked for, have
        been reached: only of these a StatefulSet or a record may be gone, and exactly the masters among them were told to
        step down. */
    method ScaleDownDataNode(found: nat, m: nat, pods: seq<Pod>, masters: seq<bool>) returns (outcome: Outcome, ghost k: nat)
      requires Valid() && m < found && |masters| == |pods|
      requires Known(pods) && forall p :: p in pods && p.owner in sets ==> !sets[p.owner].arbiter
      modifies replicas, this`sets, this`steppedDown
      ensures Valid()
      ensures SafelyShrunk(old(sets), sets, found - m, replicas.HostSet())
      ensures NoneAdded(Mine(), old(replicas.HostSet()), replicas.HostSet())
      ensures (outcome.Done? && |pods| >= found - m && DistinctOwners(pods) && AllAlive(old(sets), pods)) ==>
                |Gone(old(sets), sets)| == found - m
      ensures k <= |pods| && k <= found - m && Reached(old(sets), sets, pods, masters, k, old(steppedDown), steppedDown,
                                               old(replicas.history), replicas.history)
    {
      // ListPod
      if * {
        return Failed, 0;
      }
      outcome, k := ScaleDownPods(found - m, pods, masters, sets, steppedDown, replicas.history);
      if outcome.Done? && |pods| >= found - m && DistinctOwners(pods) && AllAlive(old(sets), pods) {
        AllGone(old(sets), sets, pods, found - m);
      }
      HostsStay(old(replicas.history), old(replicas.members), PodHosts(pods[..k]), {});
    }

    lemma {:induction false} NothingReached(before: Sets, pods: seq<Pod>, masters: seq<bool>, told: seq<string>, past: seq<Step>, hosts: set<string>)
      requires before.Keys <= ports.Keys && Known(pods) && |pods| == |masters|
      ensures Through(before, before, pods, 0, hosts)
      ensures Reached(before, before, pods, masters, 0, told, told, past, past)
    {
      assert Gone(before, before) == {};
    }

    /** Its loop over the pods. */
    method ScaleDownPods(surplus: nat, pods: seq<Pod>, masters: seq<bool>, ghost before: Sets, ghost told: seq<string>, ghost past: seq<Step>)
      returns (outcome: Outcome, ghost k: nat)
      requires Valid() && surplus > 0 && |masters| == |pods| && before == sets && told == steppedDown && past == replicas.history
      requires Known(pods) && forall p :: p in pods && p.owner in before ==> !before[p.owner].arbiter
      modifies replicas, this`sets, this`steppedDown
      ensures Valid()
      ensures SafelyShrunk(before, sets, surplus, replicas.HostSet())
      ensures outcome.Done? && |pods| >= surplus ==> k == surplus && Through(before, sets, pods, surplus, replicas.HostSet())
      ensures k <= |pods| && k <= surplus && Reached(before, sets, pods, masters, k, told, steppedDown, past, replicas.history)
    {
      k := 0;
      NothingReached(before, pods, masters, told, past, replicas.HostSet());
      var removeMongoAddress: seq<string> := [];
      var i := 0;
      while i < |pods|
        invariant 0 <= i <= |pods| && |removeMongoAddress| == i < surplus
        invariant Valid() && Through(before, sets, pods, i, replicas.HostSet())
        invariant k == i && Reached(before, sets, pods, masters, k, told, steppedDown, past, replicas.history)
      {
        removeMongoAddress := removeMongoAddress + [Host(pods[i].owner)];
        outcome, k := ScaleDownTurn(pods, masters, i, before, told, past);
        if outcome != Done {
          return;
        }
        i := i + 1;
        if surplus == |removeMongoAddress| {
          return;
        }
      }
      outcome := Done;
    }

    /** One turn of its loop, in terms of the pods reached. */
    method ScaleDownTurn(pods: seq<Pod>, masters: seq<bool>, i: nat, ghost before: Sets, ghost told: seq<string>, ghost past: seq<Step>)
      returns (outcome: Outcome, ghost k: nat)
      requires Valid() && Known(pods) && i < |pods| == |masters| && before.Keys <= ports.Keys
      requires pods[i].owner in before ==> !before[pods[i].owner].arbiter
      requires Through(before, sets, pods, i, replicas.HostSet())
      requires Reached(before, sets, pods, masters, i, told, steppedDown, past, replicas.history)
      modifies replicas, this`sets, this`steppedDown
      ensures Valid()
      ensures SafelyShrunk(before, sets, i + 1, replicas.HostSet())
      ensures outcome.Done? ==> k == i + 1 && Through(before, sets, pods, i + 1, replicas.HostSet())
      ensures NoneAdded(Mine(), old(replicas.HostSet()), replicas.HostSet())
      ensures i <= k <= i + 1 && Reached(before, sets, pods, masters, k, told, steppedDown, past, replicas.history)
    {
      ghost var mid, stepped, history := sets, steppedDown, replicas.history;
      outcome := ScaleDownOne(pods, i, masters[i], before);
      k := ReachedOne(before, mid, sets, pods, masters, i, told, stepped, steppedDown, past, history, replicas.history);
    }

    // ------------------------------------------------------------ adding members

    /** The hosts of the pods. */
    function PodHosts(pods: seq<Pod>): set<string>
      requires Known(pods)
    {
      if pods == [] then {} else PodHosts(pods[..|pods| - 1]) + {Host(pods[|pods| - 1].owner)}
    }

    lemma PodHostsStep(pods: seq<Pod>, i: nat)
      requires i < |pods| && Known(pods)
      ensures PodHosts(pods[..i + 1]) == PodHosts(pods[..i]) + {Host(pods[i].owner)}
    {
      assert pods[..i + 1][..i] == pods[..i];
    }

    lemma {:induction false} PodHostsGrow(pods: seq<Pod>, i: nat)
      requires i <= |pods| && Known(pods)
      ensures PodHosts(pods[..i]) <= PodHosts(pods)
    {
      if i == |pods| {
        assert pods[..i] == pods;
      } else {
        PodHostsGrow(pods[..|pods| - 1], i);
        assert pods[..|pods| - 1][..i] == pods[..i];
      }
    }

    lemma {:induction false} NoPodHost(pods: seq<Pod>, host: string)
      requires Known(pods) && forall k :: 0 <= k < |pods| ==> Host(pods[k].owner) != host
      ensures host !in PodHosts(pods)
    {
      if pods == [] {
      } else {
        NoPodHost(pods[..|pods| - 1], host);
      }
    }

    /** What a StatefulSet's pod asks to be added; None for a panic. */
    function Asked(name: string): Option<seq<Member>>
      requires name in ports
      reads this
    {
      RecordsOf(datas, arbiters, arbiter, Host(name))
    }

    /** The member is configured, if the ConfigMap knows it. */
    ghost predicate Confirmed(name: string)
      requires name in ports
      reads this, replicas
    {
      Asked(name).Some? && (Asked(name).value != [] ==> Host(name) in replicas.HostSet())
    }

    /** If the member is configured, its record is the one the ConfigMap gives it, up to the id. */
    ghost predicate JoinsAsRecorded(name: string)
      requires name in ports
      reads this, replicas
    {
      forall m :: m in replicas.members && m.host == Host(name) ==> Asked(name).Some? && m.(id := 0) in Asked(name).value
    }

    /** The end of MongoEnsureMemberConfig: check, then add; other clusters may act between the two. */
    method CheckThenAdd(name: string, member: seq<Member>) returns (outcome: Outcome)
      requires Valid() && name in ports && Asked(name) == Some(member)
      modifies replicas
      ensures Valid()
      ensures OnlyAdded(Mine(), {Host(name)}, old(replicas.HostSet()), replicas.HostSet())
      ensures Acted(vip, Mine(), {}, {Host(name)}, old(replicas.history), replicas.history)
      ensures outcome.Done? ==> Confirmed(name)
      ensures Host(name) !in old(replicas.HostSet()) ==> JoinsAsRecorded(name)
    {
      HostsExact(replicas.members);
      // ReadConfig
      if * {
        return Failed;
      }
      var exist, addMember := MemberExist(replicas.members, member);
      MissingHosts(replicas.members, member);
      RecordsHost(datas, arbiters, arbiter, Host(name));
      MissingRecords(replicas.members, member);
      outcome := Done;
      if !exist {
        outcome := AddToConfig(name, addMember, member);
      }
    }

    method AddToConfig(name: string, addMember: seq<Member>, ghost records: seq<Member>) returns (outcome: Outcome)
      requires Valid() && name in ports && Asked(name) == Some(records)
      requires Hosts(addMember) <= {Host(name)} && forall m :: m in addMember ==> m.(id := 0) in records
      modifies replicas
      ensures Valid()
      ensures OnlyAdded(Mine(), {Host(name)}, old(replicas.HostSet()), replicas.HostSet())
      ensures Acted(vip, Mine(), {}, {Host(name)}, old(replicas.history), replicas.history)
      ensures outcome.Done? ==> forall h :: h in Hosts(addMember) ==> h in replicas.HostSet()
      ensures Host(name) !in old(replicas.HostSet()) ==> JoinsAsRecorded(name)
    {
      assert Host(name) in Mine();
      Meanwhile(replicas, Mine(), vip);
      ghost var past, before := replicas.history, replicas.Current();
      HostsExact(before.members);
      outcome := replicas.AddMembers(addMember, vip);
      OwnStep(vip, Mine(), Add(addMember), outcome, past, before, replicas.history, replicas.Current());
      ActedMore(vip, Mine(), {}, Hosts(addMember), {}, {Host(name)}, past, replicas.history);
      ActedTwice(vip, Mine(), {}, {}, {}, {Host(name)}, {}, {Host(name)}, old(replicas.history), past, replicas.history);
      if Stepped(before, Add(addMember), replicas.Current()) {
        JoinedAs(before, addMember, replicas.Current(), records);
      }
    }

    /** MongoEnsureMemberConfig. */
    method MongoEnsureMemberConfig(pod: Pod) returns (outcome: Outcome)
      requires Valid() && pod.owner in ports
      modifies replicas
      ensures Valid()
      ensures OnlyAdded(Mine(), {Host(pod.owner)}, old(replicas.HostSet()), replicas.HostSet())
      ensures Acted(vip, Mine(), {}, {Host(pod.owner)}, old(replicas.history), replicas.history)
      ensures outcome.Done? && admin ==> Confirmed(pod.owner)
      ensures Host(pod.owner) !in old(replicas.HostSet()) ==> JoinsAsRecorded(pod.owner)
    {
      HostsExact(replicas.members);
      if !admin {
        return Done;
      }
      var addresses: seq<string>;
      outcome, addresses := ConfigMapToAddress(datas);
      if outcome != Done {
        return;
      }
      // connecting to MongoDB and reading the ConfigMap again
      if * {
        return Failed;
      }
      // GetServiceNodePort
      if pod.owner !in services {
        return Failed;
      }
      var member: seq<Member>;
      outcome, member := ConfigMapToMembersByNodePort(datas, arbiters, arbiter, vip, ports[pod.owner]);
      if outcome != Done {
        return;
      }
      outcome := CheckThenAdd(pod.owner, member);
    }

    ghost predicate AllConfirmed(pods: seq<Pod>)
      requires Known(pods)
      reads this, replicas
    {
      forall k :: 0 <= k < |pods| ==> Confirmed(pods[k].owner)
    }

    /** One turn of the second loop of EnsureMembers. */
    method EnsureNext(pods: seq<Pod>, i: nat, ghost past: seq<Step>) returns (outcome: Outcome)
      requires Valid() && i < |pods| && Known(pods)
      requires Acted(vip, Mine(), {}, PodHosts(pods[..i]), past, replicas.history)
      requires admin ==> AllConfirmed(pods[..i])
      modifies replicas
      ensures Valid()
      ensures Acted(vip, Mine(), {}, PodHosts(pods[..i + 1]), past, replicas.history)
      ensures outcome.Done? && admin ==> AllConfirmed(pods[..i + 1])
    {
      PodHostsStep(pods, i);
      ghost var mid := replicas.history;
      outcome := MongoEnsureMemberConfig(pods[i]);
      ActedTwice(vip, Mine(), {}, PodHosts(pods[..i]), {}, {Host(pods[i].owner)}, {}, PodHosts(pods[..i + 1]), past, mid, replicas.history);
      if outcome.Done? && admin {
        forall k | 0 <= k < i + 1
          ensures Confirmed(pods[k].owner)
        {
          assert k < i ==> pods[..i][k] == pods[k];
        }
      }
    }

    lemma {:induction false} PartEnsured(pods: seq<Pod>, i: nat, past: seq<Step>, before: seq<Member>)
      requires Valid() && Known(pods) && i <= |pods| && EndOf(replicas.start, past).members == before
      requires Acted(vip, Mine(), {}, PodHosts(pods[..i]), past, replicas.history)
      ensures Acted(vip, Mine(), {}, PodHosts(pods), past, replicas.history)
      ensures OnlyAdded(Mine(), PodHosts(pods), Hosts(before), replicas.HostSet())
    {
      PodHostsGrow(pods, i);
      ActedMore(vip, Mine(), {}, PodHosts(pods[..i]), {}, PodHosts(pods), past, replicas.history);
      HostsStay(past, before, {}, PodHosts(pods));
    }

    /** EnsureMembers: the metrics services first, then the configuration, pod by pod. */
    method EnsureMembers(pods: seq<Pod>) returns (outcome: Outcome)
      requires Valid() && Known(pods)
      modifies replicas
      ensures Valid()
      ensures OnlyAdded(Mine(), PodHosts(pods), old(replicas.HostSet()), replicas.HostSet())
      ensures Acted(vip, Mine(), {}, PodHosts(pods), old(replicas.history), replicas.history)
      ensures outcome.Done? && admin ==> AllConfirmed(pods)
    {
      if |pods| == 0 {
        return Done;
      }
      if exporter {
        // ensureService for every pod
        if * {
          return Failed;
        }
      }
      var i := 0;
      while i < |pods|
        invariant 0 <= i <= |pods| && Valid()
        invariant Acted(vip, Mine(), {}, PodHosts(pods[..i]), old(replicas.history), replicas.history)
        invariant admin ==> AllConfirmed(pods[..i])
      {
        outcome := EnsureNext(pods, i, old(replicas.history));
        i := i + 1;
        if outcome != Done {
          PartEnsured(pods, i, old(replicas.history), old(replicas.members));
          return;
        }
      }
      assert pods[..i] == pods;
      PartEnsured(pods, i, old(replicas.history), old(replicas.members));
      outcome := Done;
    }

    // ------------------------------------------------------------ the whole pass

    /** EnsureSts: create unless it exists, terminating or not. */
    method EnsureSts(name: string, arbiter: bool) returns (outcome: Outcome)
      modifies this`sets
      ensures sets == old(sets) || (name !in old(sets) && sets == old(sets)[name := StatefulSet(arbiter, true)])
      ensures outcome.Done? ==> name in sets
    {
      if * {
        return Failed;
      }
      if name !in sets {
        if * {
          return Failed;
        }
        sets := sets[name := StatefulSet(arbiter, true)];
        if * {
          return Failed;
        }
      }
      outcome := Done;
    }

    /** Scaling up: one StatefulSet for every service but the arbiter's. */
    method ScaleUp() returns (outcome: Outcome)
      requires Valid()
      modifies this`sets
      ensures Valid()
      ensures Extended(old(sets), sets, services)
      ensures outcome.Done? ==> forall n :: n in services && !IsArbiterName(n) ==> n in sets
    {
      // ListService
      if * {
        return Failed;
      }
      var todo := services;
      while todo != {}
        invariant todo <= services && Valid()
        invariant Extended(old(sets), sets, services)
        invariant forall n :: n in services - todo && !IsArbiterName(n) ==> n in sets
        decreases todo
      {
        var name :| name in todo;
        todo := todo - {name};
        if !IsArbiterName(name) {
          outcome := EnsureSts(name, false);
          if outcome != Done {
            return;
          }
        }
      }
      outcome := Done;
    }

    ghost predicate OutOfConfig(before: Sets, after: Sets)
      requires before.Keys <= ports.Keys
      reads this, replicas
    {
      forall n :: n in Gone(before, after) ==> Host(n) !in replicas.HostSet()
    }

    /** How many data StatefulSets there are beyond the spec. */
    function Surplus(before: Sets): nat
      reads this
    {
      var found := |OfKind(before, false)|;
      if members < found then found - members else 0
    }

    /** StatefulSets keep their kind, and new ones are not the arbiter's. */
    predicate SameKinds(before: Sets, after: Sets)
      reads this
    {
      forall n :: n in after ==> if n in before then after[n].arbiter == before[n].arbiter else n in services && !IsArbiterName(n)
    }

    /** The first part of SyncMember: the data StatefulSets, up or down. */
    method AdjustData(pods: seq<Pod>, masters: seq<bool>) returns (outcome: Outcome, ghost k: nat)
      requires Valid() && |masters| == |pods|
      requires Known(pods) && forall p :: p in pods && p.owner in sets ==> !sets[p.owner].arbiter
      modifies replicas, this`sets, this`steppedDown
      ensures Valid() && OutOfConfig(old(sets), sets)
      ensures var found := |OfKind(old(sets), false)|;
              if members < found then
                && SafelyShrunk(old(sets), sets, found - members, replicas.HostSet())
                && (outcome.Done? && |pods| >= found - members && DistinctOwners(pods) && AllAlive(old(sets), pods) ==>
                      |Gone(old(sets), sets)| == found - members)
              else
                && Extended(old(sets), sets, services) && k == 0
                && (outcome.Done? && members > found ==> forall n :: n in services && !IsArbiterName(n) ==> n in sets)
                && (members <= found ==> sets == old(sets))
      ensures SameKinds(old(sets), sets)
      ensures outcome.Done? && |pods| >= Surplus(old(sets)) && DistinctOwners(pods) && AllAlive(old(sets), pods) && members < |OfKind(old(sets), false)| ==>
                |AliveData(sets)| == |AliveData(old(sets))| - Surplus(old(sets))
      ensures k <= |pods| && k <= Surplus(old(sets)) && Reached(old(sets), sets, pods, masters, k, old(steppedDown), steppedDown,
                                               old(replicas.history), replicas.history)
      ensures RecordsKept(old(replicas.members), replicas.members, PodHosts(pods[..k]), {})
    {
      k := 0;
      // ListSts
      if * {
        return Failed, 0;
      }
      var found := |OfKind(sets, false)|;
      if members != found {
        // UpdateState
        if * {
          return Failed, 0;
        }
      }
      outcome := Done;
      if members > found {
        outcome := ScaleUp();
      }
      if members < found {
        outcome, k := ScaleDownDataNode(found, members, pods, masters);
        Remaining(old(sets), sets);
        RecordsStay(old(replicas.history), PodHosts(pods[..k]), {});
      }
    }

    /** scaleDownArbiterNode. */
    method ScaleDownArbiterNode(pods: seq<Pod>) returns (outcome: Outcome)
      requires Valid() && Known(pods) && forall p :: p in pods && p.owner in sets ==> sets[p.owner].arbiter
      modifies replicas, this`sets
      ensures Valid() && OutOfConfig(old(sets), sets) && AliveData(sets) == AliveData(old(sets))
      ensures NoneAdded(Mine(), old(replicas.HostSet()), replicas.HostSet())
      ensures Acted(vip, Mine(), FirstHost(pods), {}, old(replicas.history), replicas.history)
      ensures RecordsKept(old(replicas.members), replicas.members, FirstHost(pods), {})
      ensures Shrunk(old(sets), sets) && (forall n :: n in Gone(old(sets), sets) ==> pods != [] && n == pods[0].owner)
      ensures outcome.Done? ==> NoArbiter(sets, pods)
      ensures outcome.Done? && OfKind(old(sets), true) != {} ==> pods != [] && Host(pods[0].owner) !in replicas.HostSet()
    {
      // the ConfigMap and the list of arbiter StatefulSets
      if * {
        return Failed;
      }
      if OfKind(sets, true) != {} {
        if |pods| == 0 {
          return Failed;
        }
        // GetMgoArbiterNodeInfo
        if * {
          return Failed;
        }
        outcome := MongoRemoveMemberAndDeleteSts(pods[0]);
        ArbiterOnly(old(sets), sets, pods[0].owner);
        RecordsStay(old(replicas.history), FirstHost(pods), {});
        return;
      }
      outcome := Done;
    }

    /** The host of the first pod, if there is one. */
    function FirstHost(pods: seq<Pod>): set<string>
      requires Known(pods)
    {
      if pods == [] then {} else {Host(pods[0].owner)}
    }

    /** The host that leaves when no arbiter should run here. */
    function ArbiterHost(pods: seq<Pod>): set<string>
      requires Known(pods)
      reads this
    {
      if arbiter then {} else FirstHost(pods)
    }

    /** No arbiter's StatefulSet is listed, or the one of the first arbiter pod is being deleted. */
    predicate NoArbiter(after: Sets, pods: seq<Pod>) {
      OfKind(after, true) == {} || (pods != [] && !Alive(after, pods[0].owner))
    }

    /** The second part of SyncMember: the arbiter this cluster should or should not run. With one nothing is removed and
        its StatefulSet exists; without one the StatefulSet of the listed arbiter pod is gone. */
    method AdjustArbiter(name: string, pods: seq<Pod>) returns (outcome: Outcome)
      requires Valid() && name in ports
      requires Known(pods) && forall p :: p in pods && p.owner in sets ==> sets[p.owner].arbiter
      modifies replicas, this`sets
      ensures Valid() && OutOfConfig(old(sets), sets) && AliveData(sets) == AliveData(old(sets))
      ensures NoneAdded(Mine(), old(replicas.HostSet()), replicas.HostSet())
      ensures Acted(vip, Mine(), ArbiterHost(pods), {}, old(replicas.history), replicas.history)
      ensures arbiter ==> Gone(old(sets), sets) == {} && (outcome.Done? ==> name in sets)
      ensures arbiter && name !in old(sets) && name in sets ==> sets == old(sets)[name := StatefulSet(true, true)]
      ensures !arbiter && outcome.Done? ==> NoArbiter(sets, pods)
    {
      if arbiter {
        outcome := EnsureSts(name, true);
        ArbiterCreated(old(sets), sets, name);
      } else {
        outcome := ScaleDownArbiterNode(pods);
      }
    }

    /** The last part of SyncMember: every listed pod whose StatefulSet stays is a member. */
    method Confirm(pods: seq<Pod>) returns (outcome: Outcome)
      requires Valid() && Known(pods)
      modifies replicas
      ensures Valid()
      ensures OnlyAdded(Mine(), PodHosts(Surviving(pods, sets)), old(replicas.HostSet()), replicas.HostSet())
      ensures Acted(vip, Mine(), {}, PodHosts(Surviving(pods, sets)), old(replicas.history), replicas.history)
      ensures outcome.Done? && admin ==> AllConfirmed(Surviving(pods, sets))
    {
      // InitializationMongoCheck, ListSts and ListPod
      if * {
        return Failed;
      }
      var podList := FilterPodsIsDeleted(pods, sets);
      outcome := EnsureMembers(podList);
    }

    /** The pods that are confirmed do not belong to the StatefulSets that are gone. */
    lemma ConfirmedAreNotGone(before: Sets, after: Sets, pods: seq<Pod>, name: string)
      requires before.Keys <= ports.Keys && name in Gone(before, after)
      requires ':' !in vip && Known(pods)
      requires forall a, b :: a in ports && b in ports && a != b ==> ports[a] != ports[b]
      ensures Host(name) !in PodHosts(Surviving(pods, after))
    {
      var rest := Surviving(pods, after);
      forall k | 0 <= k < |rest|
        ensures rest[k].owner in ports && Host(rest[k].owner) != Host(name)
      {
        assert rest[k] in rest && rest[k] in pods;
        if Host(rest[k].owner) == Host(name) {
          HostInjective(rest[k].owner, name);
        }
      }
      NoPodHost(rest, Host(name));
    }

    /** The records a pass may take out: those of the first `k` data pods, and of the arbiter's pod when none should run. */
    function Leaving(dataPods: seq<Pod>, k: nat, arbiterPods: seq<Pod>): set<string>
      requires k <= |dataPods| && Known(dataPods) && Known(arbiterPods)
      reads this
    {
      PodHosts(dataPods[..k]) + ArbiterHost(arbiterPods)
    }

    /** SyncMember. At every exit, whatever failed and whatever the other clusters did, no member is configured whose
        StatefulSet this pass began to delete, and every other record of this cluster is still there. */
    method SyncMember(dataPods: seq<Pod>, masters: seq<bool>, arbiterName: string, arbiterPods: seq<Pod>, pods: seq<Pod>)
      returns (outcome: Outcome, ghost k: nat)
      requires Valid() && arbiterName in ports && |masters| == |dataPods|
      requires Known(dataPods) && forall p :: p in dataPods && p.owner in sets ==> !sets[p.owner].arbiter
      requires Known(arbiterPods)
      requires forall p :: p in arbiterPods ==> (p.owner in sets ==> sets[p.owner].arbiter)
                                                && (p.owner in services ==> IsArbiterName(p.owner))
      requires Known(pods)
      modifies replicas, this`sets, this`steppedDown
      ensures Valid() && OutOfConfig(old(sets), sets)
      ensures outcome.Done? && admin ==> AllConfirmed(Surviving(pods, sets))
      ensures var found := |OfKind(old(sets), false)|;
              outcome.Done? && members < found && |dataPods| >= found - members && DistinctOwners(dataPods)
              && AllAlive(old(sets), dataPods) ==>
                |AliveData(sets)| == |AliveData(old(sets))| - (found - members)
      ensures k <= |dataPods| && k <= Surplus(old(sets)) && steppedDown == old(steppedDown) + Masters(dataPods, masters, k)
      ensures Acted(vip, Mine(), Leaving(dataPods, k, arbiterPods), PodHosts(Surviving(pods, sets)), old(replicas.history), replicas.history)
      ensures RecordsKept(old(replicas.members), replicas.members, Leaving(dataPods, k, arbiterPods), PodHosts(Surviving(pods, sets)))
      ensures outcome.Done? ==> if arbiter then arbiterName in sets else NoArbiter(sets, arbiterPods)
    {
      outcome, k := SyncSets(dataPods, masters, arbiterName, arbiterPods);
      ghost var out, hosts, past := Leaving(dataPods, k, arbiterPods), replicas.HostSet(), replicas.history;
      ghost var into := PodHosts(Surviving(pods, sets));
      if outcome == Done {
        outcome := Confirm(pods);
        GoneStayOut(old(sets), sets, pods, hosts, replicas.HostSet());
        ActedTwice(vip, Mine(), out, {}, {}, into, out, into, old(replicas.history), past, replicas.history);
      } else {
        ActedMore(vip, Mine(), out, {}, out, into, old(replicas.history), replicas.history);
      }
      RecordsStay(old(replicas.history), out, into);
    }

    /** Confirming adds no member whose StatefulSet is gone. */
    lemma {:induction false} GoneStayOut(before: Sets, after: Sets, pods: seq<Pod>, hosts: set<string>, later: set<string>)
      requires before.Keys <= ports.Keys && ':' !in vip && Known(pods)
      requires forall a, b :: a in ports && b in ports && a != b ==> ports[a] != ports[b]
      requires forall n :: n in Gone(before, after) ==> Host(n) !in hosts
      requires OnlyAdded(Mine(), PodHosts(Surviving(pods, after)), hosts, later)
      ensures forall n :: n in Gone(before, after) ==> Host(n) !in later
    {
      forall n | n in Gone(before, after)
        ensures Host(n) !in later
      {
        ConfirmedAreNotGone(before, after, pods, n);
        assert Host(n) in Mine();
      }
    }

    /** The part of SyncMember that changes StatefulSets. */
    method SyncSets(dataPods: seq<Pod>, masters: seq<bool>, arbiterName: string, arbiterPods: seq<Pod>)
      returns (outcome: Outcome, ghost k: nat)
      requires Valid() && arbiterName in ports && |masters| == |dataPods|
      requires Known(dataPods) && forall p :: p in dataPods && p.owner in sets ==> !sets[p.owner].arbiter
      requires Known(arbiterPods)
      requires forall p :: p in arbiterPods ==> (p.owner in sets ==> sets[p.owner].arbiter)
                                                && (p.owner in services ==> IsArbiterName(p.owner))
      modifies replicas, this`sets, this`steppedDown
      ensures Valid() && OutOfConfig(old(sets), sets)
      ensures var found := |OfKind(old(sets), false)|;
              outcome.Done? && members < found && |dataPods| >= Surplus(old(sets)) && DistinctOwners(dataPods)
              && AllAlive(old(sets), dataPods) ==>
                |AliveData(sets)| == |AliveData(old(sets))| - Surplus(old(sets))
      ensures k <= |dataPods| && k <= Surplus(old(sets)) && steppedDown == old(steppedDown) + Masters(dataPods, masters, k)
      ensures Acted(vip, Mine(), Leaving(dataPods, k, arbiterPods), {}, old(replicas.history), replicas.history)
      ensures outcome.Done? ==> if arbiter then arbiterName in sets else NoArbiter(sets, arbiterPods)
    {
      outcome, k := AdjustData(dataPods, masters);
      ghost var first := PodHosts(dataPods[..k]);
      if outcome != Done {
        ActedMore(vip, Mine(), first, {}, Leaving(dataPods, k, arbiterPods), {}, old(replicas.history), replicas.history);
        return;
      }
      ArbitersStay(old(sets), sets, arbiterPods);
      outcome := SyncArbiter(arbiterName, arbiterPods, old(sets), first, old(replicas.history));
    }

    /** The arbiter's part, after the records of `first` have left. */
    method SyncArbiter(name: string, pods: seq<Pod>, ghost before: Sets, ghost first: set<string>, ghost past: seq<Step>) returns (outcome: Outcome)
      requires Valid() && name in ports && before.Keys <= ports.Keys && OutOfConfig(before, sets)
      requires Known(pods) && forall p :: p in pods && p.owner in sets ==> sets[p.owner].arbiter
      requires Acted(vip, Mine(), first, {}, past, replicas.history)
      modifies replicas, this`sets
      ensures Valid() && OutOfConfig(before, sets) && AliveData(sets) == AliveData(old(sets))
      ensures Acted(vip, Mine(), first + ArbiterHost(pods), {}, past, replicas.history)
      ensures outcome.Done? ==> if arbiter then name in sets else NoArbiter(sets, pods)
    {
      ghost var mid, hosts, history := sets, replicas.HostSet(), replicas.history;
      outcome := AdjustArbiter(name, pods);
      ActedTwice(vip, Mine(), first, {}, ArbiterHost(pods), {}, first + ArbiterHost(pods), {}, past, history, replicas.history);
      BothOut(before, mid, sets, hosts, replicas.HostSet());
    }

    lemma {:induction false} ArbitersStay(before: Sets, after: Sets, arbiterPods: seq<Pod>)
      requires SameKinds(before, after)
      requires forall p :: p in arbiterPods ==> (p.owner in before ==> before[p.owner].arbiter)
                                                && (p.owner in services ==> IsArbiterName(p.owner))
      ensures forall p :: p in arbiterPods && p.owner in after ==> after[p.owner].arbiter
    {
    }

    /** What was out after the first part stays out in the second. */
    lemma {:induction false} BothOut(before: Sets, mid: Sets, after: Sets, hosts: set<string>, later: set<string>)
      requires before.Keys <= ports.Keys && mid.Keys <= ports.Keys
      requires forall n :: n in Gone(before, mid) ==> Host(n) !in hosts
      requires forall n :: n in Gone(mid, after) ==> Host(n) !in later
      requires NoneAdded(Mine(), hosts, later)
      ensures forall n :: n in Gone(before, after) ==> Host(n) !in later
    {
      forall n | n in Gone(before, after)
        ensures Host(n) !in later
      {
        assert n in Gone(before, mid) || n in Gone(mid, after);
        assert Host(n) in Mine();
      }
    }
  }
}
