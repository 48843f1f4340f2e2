/** What the roles in the reported status decide: which services and placements a scale-down keeps. */
module ReportedServices {
  import opened Outcomes
  import opened Text
  import opened HostConf
  import opened Cleaner
  import opened ScaleDown
  import opened Federation
  import opened Settling

  /** The entry names an address of the service, in any cluster, with a role. */
  ghost predicate NamesAs(t: Topology, addr: string, role: string) {
    addr in t.addresses && t.addresses[addr] == role
  }

  lemma {:induction false} ReportedIsLive(result: seq<Topology>, list: seq<Service>, services: map<string, nat>,
                                          t: Topology, vip: string, role: string, s: string)
    requires ListsServices(list, services) && GoodPorts(services) && OneEntryEach(result)
    requires t in result && s in services && ':' !in vip
    requires NamesAs(t, Address(Endpoint(vip, services[s])), role) && role != "ARBITER"
    ensures s in LiveAnywhere(result, list)
    ensures t.cluster in LiveByCluster(result, list) && s in LiveByCluster(result, list)[t.cluster]
  {
    var addr := Address(Endpoint(vip, services[s]));
    assert Service(s, services[s]) in list;
    ResolveAddress(Endpoint(vip, services[s]), list, s);
    LiveAnywhereExact(result, list, s);
    LiveByClusterExact(result, list);
    assert IsDataAddress(t, addr) && s in LiveOf(t, list);
  }

  /** A reported address with any role but "ARBITER" keeps its service, with its port, and every placement of it on the
      cluster that reports it, at every exit of the cleaning. */
  lemma {:induction false} ReportedStays(result: seq<Topology>, list: seq<Service>, services: map<string, nat>, policies: map<string, Policy>,
                                         services': map<string, nat>, policies': map<string, Policy>, outcome: Outcome,
                                         t: Topology, vip: string, role: string, s: string)
    requires ListsServices(list, services) && GoodPorts(services) && OneEntryEach(result)
    requires CleaningStep(services, policies, services', policies', result, list, outcome)
    requires t in result && s in services && ':' !in vip
    requires NamesAs(t, Address(Endpoint(vip, services[s])), role) && role != "ARBITER"
    ensures s in services' && services'[s] == services[s]
    ensures forall name :: name in policies && s in policies[name].selectors && t.cluster in policies[name].clusters ==>
                             name in policies' && t.cluster in policies'[name].clusters
  {
    ReportedIsLive(result, list, services, t, vip, role, s);
    var table := LiveByCluster(result, list);
    forall name | name in policies && s in policies[name].selectors && t.cluster in policies[name].clusters
      ensures name in policies' && t.cluster in policies'[name].clusters
    {
      KeptExact(policies[name], table);
      assert KeepsCluster(policies[name], table, t.cluster);
    }
  }

  /** A complete cleaning keeps a service if and only if some address that refers to it has another role than "ARBITER". */
  lemma {:induction false} RoleDecides(result: seq<Topology>, list: seq<Service>, services: map<string, nat>, policies: map<string, Policy>,
                                       services': map<string, nat>, policies': map<string, Policy>, s: string)
    requires CleaningStep(services, policies, services', policies', result, list, Done)
    ensures s in services'
       <==> s in services && exists t, addr :: t in result && addr in t.addresses && t.addresses[addr] != "ARBITER" && Resolve(addr, list) == Some(s)
  {
    LiveAnywhereExact(result, list, s);
    if t, addr :| t in result && IsDataAddress(t, addr) && Resolve(addr, list) == Some(s) {
      assert addr in t.addresses && t.addresses[addr] != "ARBITER";
    }
  }

  /** An address with another role than "ARBITER" that refers to no service stops the cleaning before anything is deleted. */
  lemma {:induction false} BadAddressStops(result: seq<Topology>, list: seq<Service>, services: map<string, nat>, policies: map<string, Policy>,
                                           services': map<string, nat>, policies': map<string, Policy>, outcome: Outcome, t: Topology, addr: string)
    requires CleaningStep(services, policies, services', policies', result, list, outcome)
    requires t in result && addr in t.addresses && t.addresses[addr] != "ARBITER" && Resolve(addr, list).None?
    ensures outcome != Done && services' == services && policies' == policies
  {
    assert !Resolvable(t, list);
  }

  /** The services of two reported members, by their roles. */
  lemma {:induction false} LiveOfTwo(t: Topology, a: string, b: string, x: string, y: string, list: seq<Service>)
    requires a != b && t.addresses.Keys == {a, b} && Resolve(a, list) == Some(x) && Resolve(b, list) == Some(y)
    ensures LiveOf(t, list) == (if t.addresses[a] == "ARBITER" then {} else {x}) + (if t.addresses[b] == "ARBITER" then {} else {y})
  {
    assert IsDataAddress(t, a) <==> t.addresses[a] != "ARBITER";
    assert IsDataAddress(t, b) <==> t.addresses[b] != "ARBITER";
  }

  const TWO := [Service("s0", 30000)] + [Service("s1", 30001)]

  lemma {:induction false} TwoResolve(vip: string)
    requires ':' !in vip
    ensures Resolve(Address(Endpoint(vip, 30000)), TWO) == Some("s0") && Resolve(Address(Endpoint(vip, 30001)), TWO) == Some("s1")
  {
    assert TWO[0] in TWO && TWO[1] in TWO;
    ResolveAddress(Endpoint(vip, 30000), TWO, "s0");
    ResolveAddress(Endpoint(vip, 30001), TWO, "s1");
  }

  /** The services of a primary and a secondary are both live; that of an arbiter is not. */
  lemma {:induction false} LiveRoles(vip: string)
    requires ':' !in vip
    ensures var a, b := Address(Endpoint(vip, 30000)), Address(Endpoint(vip, 30001));
            && LiveOf(Topology("a", 2, map[a := "PRIMARY", b := "SECONDARY"]), TWO) == {"s0"} + {"s1"}
            && LiveOf(Topology("a", 2, map[a := "PRIMARY", b := "ARBITER"]), TWO) == {"s0"}
  {
    var a, b := Address(Endpoint(vip, 30000)), Address(Endpoint(vip, 30001));
    TwoAddresses(vip);
    TwoResolve(vip);
    var p, q := Topology("a", 2, map[a := "PRIMARY", b := "SECONDARY"]), Topology("a", 2, map[a := "PRIMARY", b := "ARBITER"]);
    assert p.addresses.Keys == {a, b} && p.addresses[a] == "PRIMARY" && p.addresses[b] == "SECONDARY";
    assert q.addresses.Keys == {a, b} && q.addresses[a] == "PRIMARY" && q.addresses[b] == "ARBITER";
    LiveOfTwo(p, a, b, "s0", "s1", TWO);
    LiveOfTwo(q, a, b, "s0", "s1", TWO);
  }

  lemma TwoAddresses(vip: string)
    requires ':' !in vip
    ensures Address(Endpoint(vip, 30000)) != Address(Endpoint(vip, 30001))
  {
    if Address(Endpoint(vip, 30000)) == Address(Endpoint(vip, 30001)) {
      AddressInjective(Endpoint(vip, 30000), Endpoint(vip, 30001));
    }
  }
}
