/** The plan of ScaleDownCleaner: from the addresses the member clusters report, which services are still live
    and which clusters each service policy keeps. */
module Cleaner {
  import opened Outcomes
  import opened Text
  import opened HostConf

  /** A NodePort service as listed. */
  datatype Service = Service(name: string, nodePort: int)

  /** A propagation policy: the names of the resources it selects and the clusters they go to. */
  datatype Policy = Policy(selectors: seq<string>, clusters: seq<string>)

  /** One entry of status.result: a cluster, its reported member count and its addresses with their roles. */
  datatype Topology = Topology(cluster: string, members: int, addresses: map<string, string>)

  const ARBITER := "ARBITER"

  // ---------------------------------------------------------------- live services

  /** The first listed service with the node port. */
  function ServiceAt(list: seq<Service>, port: int): Option<string> {
    if list == [] then None
    else if list[0].nodePort == port then Some(list[0].name)
    else ServiceAt(list[1..], port)
  }

  /** It is the first one if several have the port, and there is none only if none has. */
  lemma {:induction false} ServiceAtFirst(list: seq<Service>, port: int) returns (i: nat)
    ensures i <= |list| && forall k :: 0 <= k < i ==> list[k].nodePort != port
    ensures if i == |list| then ServiceAt(list, port) == None else list[i].nodePort == port && ServiceAt(list, port) == Some(list[i].name)
  {
    if list == [] || list[0].nodePort == port {
      i := 0;
    } else {
      i := ServiceAtFirst(list[1..], port);
      i := i + 1;
    }
  }

  method GetServiceByNodePort(port: int, list: seq<Service>) returns (found: Option<string>)
    ensures found == ServiceAt(list, port)
  {
    var i := 0;
    while i < |list|
      invariant 0 <= i <= |list|
      invariant ServiceAt(list, port) == ServiceAt(list[i..], port)
    {
      if list[i].nodePort == port {
        return Some(list[i].name);
      }
      i := i + 1;
    }
    found := None;
  }

  /** The port text of an address; None where the Go code indexes past the end of the split. */
  function PortText(addr: string): Option<string> {
    var parts := Split(addr, ":");
    if |parts| < 2 then None else Some(parts[1])
  }

  /** The service an address refers to. The parsed port is narrowed to 32 bits before the look-up. */
  function Resolve(addr: string, list: seq<Service>): Option<string> {
    match PortText(addr)
    case None => None
    case Some(text) =>
      match Atoi(text)
      case None => None
      case Some(port) => ServiceAt(list, Int32(port))
  }

  predicate IsDataAddress(t: Topology, addr: string) {
    addr in t.addresses && t.addresses[addr] != ARBITER
  }

  /** Every data address of the entry refers to a listed service. */
  predicate Resolvable(t: Topology, list: seq<Service>) {
    forall addr :: addr in t.addresses && IsDataAddress(t, addr) ==> Resolve(addr, list).Some?
  }

  /** The services the data addresses of one entry refer to. */
  function LiveOf(t: Topology, list: seq<Service>): set<string> {
    set addr | addr in t.addresses && IsDataAddress(t, addr) && Resolve(addr, list).Some? :: Resolve(addr, list).value
  }

  /** A reported cluster with its live services. */
  datatype Entry = Entry(cluster: string, live: set<string>)

  function Entries(result: seq<Topology>, list: seq<Service>): (entries: seq<Entry>)
    ensures |entries| == |result|
  {
    seq(|result|, i requires 0 <= i < |result| => Entry(result[i].cluster, LiveOf(result[i], list)))
  }

  function UnionOf(entries: seq<Entry>): set<string> {
    if entries == [] then {} else UnionOf(entries[..|entries| - 1]) + entries[|entries| - 1].live
  }

  /** A later entry for the same cluster replaces an earlier one. */
  function TableOf(entries: seq<Entry>): map<string, set<string>> {
    if entries == [] then map[]
    else
      var last := entries[|entries| - 1];
      TableOf(entries[..|entries| - 1])[last.cluster := last.live]
  }

  /** allEffectService: the services live anywhere. */
  function LiveAnywhere(result: seq<Topology>, list: seq<Service>): set<string> {
    UnionOf(Entries(result, list))
  }

  /** serviceWithCluster: the services live in each reported cluster. */
  function LiveByCluster(result: seq<Topology>, list: seq<Service>): map<string, set<string>> {
    TableOf(Entries(result, list))
  }

  ghost predicate DistinctEntries(entries: seq<Entry>) {
    forall i, j :: 0 <= i < j < |entries| ==> entries[i].cluster != entries[j].cluster
  }

  lemma {:induction false} UnionExact(entries: seq<Entry>, s: string)
    ensures s in UnionOf(entries) <==> exists i :: 0 <= i < |entries| && s in entries[i].live
  {
    if entries == [] {
    } else {
      UnionExact(entries[..|entries| - 1], s);
    }
  }

  lemma {:induction false} TableExact(entries: seq<Entry>)
    requires DistinctEntries(entries)
    ensures forall i :: 0 <= i < |entries| ==> entries[i].cluster in TableOf(entries) && TableOf(entries)[entries[i].cluster] == entries[i].live
    ensures forall c :: c in TableOf(entries) ==> exists i :: 0 <= i < |entries| && entries[i].cluster == c
  {
    if entries == [] {
    } else {
      TableExact(entries[..|entries| - 1]);
    }
  }

  /** The service is live in some cluster of the table. */
  predicate LiveSomewhere(table: map<string, set<string>>, s: string) {
    exists c :: c in table && s in table[c]
  }

  /** The set of all live services agrees with the table. */
  lemma UnionIffTable(entries: seq<Entry>, s: string)
    requires DistinctEntries(entries)
    ensures s in UnionOf(entries) <==> LiveSomewhere(TableOf(entries), s)
  {
    UnionExact(entries, s);
    TableExact(entries);
    if i :| 0 <= i < |entries| && s in entries[i].live {
      assert s in TableOf(entries)[entries[i].cluster];
    }
    if c :| c in TableOf(entries) && s in TableOf(entries)[c] {
      var i :| 0 <= i < |entries| && entries[i].cluster == c;
      assert s in entries[i].live;
    }
  }

  lemma UnionIsTable(entries: seq<Entry>, known: set<string>)
    requires DistinctEntries(entries)
    requires forall c, s :: c in TableOf(entries) && s in TableOf(entries)[c] ==> s in known
    ensures forall s :: s in UnionOf(entries) <==> LiveSomewhere(TableOf(entries), s)
    ensures UnionOf(entries) <= known
  {
    forall s
      ensures s in UnionOf(entries) <==> LiveSomewhere(TableOf(entries), s)
    {
      UnionIffTable(entries, s);
    }
  }

  /** Collects the live services of one entry. Go visits the addresses in an unspecified order, so with several
      bad addresses either an error or a panic may come first. */
  method CollectEntry(t: Topology, list: seq<Service>) returns (outcome: Outcome, live: set<string>)
    ensures outcome.Done? <==> Resolvable(t, list)
    ensures outcome.Done? ==> live == LiveOf(t, list)
    ensures outcome.Panicked? ==> exists addr :: IsDataAddress(t, addr) && PortText(addr).None?
  {
    live := {};
    var todo := t.addresses.Keys;
    while todo != {}
      invariant todo <= t.addresses.Keys
      invariant forall addr :: addr in t.addresses && addr !in todo && IsDataAddress(t, addr) ==> Resolve(addr, list).Some?
      invariant live == set addr | addr in t.addresses && addr !in todo && IsDataAddress(t, addr) && Resolve(addr, list).Some?
                            :: Resolve(addr, list).value
      decreases todo
    {
      var addr :| addr in todo;
      todo := todo - {addr};
      if t.addresses[addr] != ARBITER {
        var text := PortText(addr);
        if text.None? {
          return Panicked, {};
        }
        var port := Atoi(text.value);
        if port.None? {
          return Failed, {};
        }
        var found := GetServiceByNodePort(Int32(port.value), list);
        if found.None? {
          return Failed, {};
        }
        live := live + {found.value};
      }
    }
    outcome := Done;
  }

  /** The first loop of ScaleDownCleaner. */
  method CollectLive(result: seq<Topology>, list: seq<Service>)
    returns (outcome: Outcome, anywhere: set<string>, byCluster: map<string, set<string>>)
    ensures outcome.Done? <==> forall t :: t in result ==> Resolvable(t, list)
    ensures outcome.Done? ==> anywhere == LiveAnywhere(result, list) && byCluster == LiveByCluster(result, list)
  {
    anywhere, byCluster := {}, map[];
    var i := 0;
    while i < |result|
      invariant 0 <= i <= |result|
      invariant forall k :: 0 <= k < i ==> Resolvable(result[k], list)
      invariant anywhere == LiveAnywhere(result[..i], list)
      invariant byCluster == LiveByCluster(result[..i], list)
    {
      assert Entries(result[..i + 1], list) == Entries(result[..i], list) + [Entry(result[i].cluster, LiveOf(result[i], list))];
      var live;
      outcome, live := CollectEntry(result[i], list);
      if !outcome.Done? {
        return;
      }
      anywhere := anywhere + live;
      byCluster := byCluster[result[i].cluster := live];
      i := i + 1;
    }
    assert result[..i] == result;
    outcome := Done;
  }

  /** A service is live anywhere exactly when some data address refers to it. */
  lemma LiveAnywhereExact(result: seq<Topology>, list: seq<Service>, name: string)
    ensures name in LiveAnywhere(result, list)
       <==> exists t, addr :: t in result && IsDataAddress(t, addr) && Resolve(addr, list) == Some(name)
  {
    var entries := Entries(result, list);
    UnionExact(entries, name);
    if i :| 0 <= i < |entries| && name in entries[i].live {
      assert result[i] in result && name in LiveOf(result[i], list);
    }
    if t, addr :| t in result && IsDataAddress(t, addr) && Resolve(addr, list) == Some(name) {
      var i :| 0 <= i < |result| && result[i] == t;
      assert name in entries[i].live;
    }
  }

  /** With one entry per cluster, the table gives each reported cluster the services of its own entry. */
  lemma LiveByClusterExact(result: seq<Topology>, list: seq<Service>)
    requires forall i, j :: 0 <= i < j < |result| ==> result[i].cluster != result[j].cluster
    ensures DistinctEntries(Entries(result, list))
    ensures forall t :: t in result ==> t.cluster in LiveByCluster(result, list) && LiveByCluster(result, list)[t.cluster] == LiveOf(t, list)
    ensures forall c :: c in LiveByCluster(result, list) ==> exists t :: t in result && t.cluster == c
  {
    var entries := Entries(result, list);
    TableExact(entries);
    forall t | t in result
      ensures t.cluster in LiveByCluster(result, list) && LiveByCluster(result, list)[t.cluster] == LiveOf(t, list)
    {
      var i :| 0 <= i < |result| && result[i] == t;
      assert entries[i] == Entry(t.cluster, LiveOf(t, list));
    }
    forall c | c in LiveByCluster(result, list)
      ensures exists t :: t in result && t.cluster == c
    {
      var i :| 0 <= i < |entries| && entries[i].cluster == c;
      assert result[i] in result;
    }
  }

  predicate DistinctPorts(list: seq<Service>) {
    forall i, j :: 0 <= i < j < |list| ==> list[i].nodePort != list[j].nodePort
  }

  lemma {:induction false} ServiceAtExact(list: seq<Service>, s: Service)
    requires DistinctPorts(list) && s in list
    ensures ServiceAt(list, s.nodePort) == Some(s.name)
  {
    if list[0] != s {
      var i :| 0 <= i < |list| && list[i] == s;
      assert list[1..][i - 1] == s;
      ServiceAtExact(list[1..], s);
    }
  }

  lemma AddressPort(e: Endpoint)
    requires ':' !in e.vip
    ensures PortText(Address(e)) == Some(Itoa(e.port))
  {
    FirstColon(e);
    NoDigit(Itoa(e.port), ':');
    NoOccurrence(Itoa(e.port), ':');
    SplitAt(e.vip, ":", Itoa(e.port));
  }

  /** The address a service has in a cluster refers back to that service. */
  lemma ResolveAddress(e: Endpoint, list: seq<Service>, name: string)
    requires ':' !in e.vip && e.port <= INT32_MAX
    requires DistinctPorts(list) && Service(name, e.port) in list
    ensures Resolve(Address(e), list) == Some(name)
  {
    AddressPort(e);
    AtoiItoa(e.port);
    ServiceAtExact(list, Service(name, e.port));
  }

  /** Only the low 32 bits of a port count: another port with the same ones refers to the same service. */
  lemma PortWraps(vip: string, port: nat, list: seq<Service>, name: string)
    requires ':' !in vip && port < 0x8000_0000
    requires DistinctPorts(list) && Service(name, port) in list
    ensures Resolve(Address(Endpoint(vip, port + 0x1_0000_0000)), list) == Some(name)
  {
    AddressPort(Endpoint(vip, port + 0x1_0000_0000));
    AtoiItoa(port + 0x1_0000_0000);
    Int32Wraps(port);
    ServiceAtExact(list, Service(name, port));
  }

  /** An address whose port no listed service has refers to none. */
  lemma UnknownPort(vip: string, port: nat, list: seq<Service>)
    requires ':' !in vip && port < 0x8000_0000
    requires forall s :: s in list ==> s.nodePort != port
    ensures Resolve(Address(Endpoint(vip, port)), list) == None
  {
    AddressPort(Endpoint(vip, port));
    AtoiItoa(port);
    var i := ServiceAtFirst(list, port);
  }

  // ---------------------------------------------------------------- lists without duplicates

  /** Appends an element unless it is there already. */
  function AddOnce(list: seq<string>, x: string): seq<string> {
    if x in list then list else list + [x]
  }

  /** The first occurrences of a list, in order. */
  function Dedup(list: seq<string>): (r: seq<string>)
    ensures forall x :: x in r <==> x in list
    ensures forall i, j :: 0 <= i < j < |r| ==> r[i] != r[j]
  {
    if list == [] then []
    else
      assert list == list[..|list| - 1] + [list[|list| - 1]];
      AddOnce(Dedup(list[..|list| - 1]), list[|list| - 1])
  }

  lemma DedupAppend(list: seq<string>, x: string)
    ensures Dedup(list + [x]) == AddOnce(Dedup(list), x)
  {
    assert (list + [x])[..|list|] == list;
  }

  /** removeDuplicates, and the loop of the same shape in ScaleDownCleaner. */
  method RemoveDuplicates(list: seq<string>) returns (r: seq<string>)
    ensures r == Dedup(list)
  {
    r := [];
    var keys: set<string> := {};
    var i := 0;
    while i < |list|
      invariant 0 <= i <= |list|
      invariant forall x :: x in keys <==> x in r
      invariant r == Dedup(list[..i])
    {
      assert list[..i + 1] == list[..i] + [list[i]];
      DedupAppend(list[..i], list[i]);
      if list[i] !in keys {
        keys := keys + {list[i]};
        r := r + [list[i]];
      }
      i := i + 1;
    }
    assert list[..i] == list;
  }

  function FirstIndex(list: seq<string>, x: string): (i: nat)
    requires x in list
    ensures i < |list| && list[i] == x
    ensures forall k :: 0 <= k < i ==> list[k] != x
  {
    if list[0] == x then 0 else FirstIndex(list[1..], x) + 1
  }

  // ---------------------------------------------------------------- the clusters a policy keeps

  /** A service the policy selects is live in the cluster. */
  predicate KeepsCluster(policy: Policy, byCluster: map<string, set<string>>, cluster: string) {
    cluster in byCluster && Selects(policy.selectors, byCluster[cluster])
  }

  /** The clusters a policy keeps: its live clusters, each once, in order of first occurrence. */
  function Kept(policy: Policy, byCluster: map<string, set<string>>): seq<string>
    decreases |policy.clusters|
  {
    if policy.clusters == [] then []
    else
      var n := |policy.clusters| - 1;
      var before := Kept(policy.(clusters := policy.clusters[..n]), byCluster);
      if KeepsCluster(policy, byCluster, policy.clusters[n]) then AddOnce(before, policy.clusters[n]) else before
  }

  lemma {:induction false} KeptExact(policy: Policy, byCluster: map<string, set<string>>)
    ensures forall c :: c in Kept(policy, byCluster) <==> c in policy.clusters && KeepsCluster(policy, byCluster, c)
    ensures forall i, j :: 0 <= i < j < |Kept(policy, byCluster)| ==>
              Kept(policy, byCluster)[i] != Kept(policy, byCluster)[j]
    decreases |policy.clusters|
  {
    if policy.clusters == [] {
    } else {
      var n := |policy.clusters| - 1;
      var before := policy.(clusters := policy.clusters[..n]);
      KeptExact(before, byCluster);
      assert forall c :: KeepsCluster(before, byCluster, c) == KeepsCluster(policy, byCluster, c);
      assert forall c :: c in policy.clusters <==> c in before.clusters || c == policy.clusters[n];
    }
  }

  /** Kept clusters stay in the order in which they first appear in the policy. */
  lemma {:induction false} KeptInOrder(policy: Policy, byCluster: map<string, set<string>>, i: nat, j: nat)
    requires i < j < |Kept(policy, byCluster)|
    ensures Kept(policy, byCluster)[i] in policy.clusters && Kept(policy, byCluster)[j] in policy.clusters
    ensures FirstIndex(policy.clusters, Kept(policy, byCluster)[i]) < FirstIndex(policy.clusters, Kept(policy, byCluster)[j])
    decreases |policy.clusters|
  {
    KeptExact(policy, byCluster);
    var n := |policy.clusters| - 1;
    var before := policy.(clusters := policy.clusters[..n]);
    KeptExact(before, byCluster);
    var kept := Kept(policy, byCluster);
    FirstIndexInPrefix(policy.clusters, n, kept[i]);
    if j < |Kept(before, byCluster)| {
      KeptInOrder(before, byCluster, i, j);
      FirstIndexInPrefix(policy.clusters, n, kept[j]);
    } else {
      assert kept[j] == policy.clusters[n] && kept[j] !in Kept(before, byCluster);
      assert KeepsCluster(before, byCluster, kept[j]);
      assert kept[j] !in before.clusters;
    }
  }

  lemma FirstIndexInPrefix(list: seq<string>, n: nat, x: string)
    requires n <= |list| && x in list
    ensures x in list[..n] ==> FirstIndex(list, x) == FirstIndex(list[..n], x)
    ensures x !in list[..n] ==> FirstIndex(list, x) >= n
  {
    if x in list[..n] {
      var k := FirstIndex(list[..n], x);
      assert list[k] == x;
    } else {
      assert forall k :: 0 <= k < n ==> list[..n][k] != x;
    }
  }

  /** The policy list as servicePPMap holds it: a policy that keeps no cluster has no entry. */
  function PolicyPlan(policies: map<string, Policy>, byCluster: map<string, set<string>>): map<string, seq<string>> {
    map name | name in policies && Kept(policies[name], byCluster) != [] :: Kept(policies[name], byCluster)
  }

  /** The innermost loop: one append for every selector equal to the service's name. */
  method AppendForService(list: seq<string>, cluster: string, selectors: seq<string>, name: string)
    returns (after: seq<string>)
    ensures Dedup(after) == if name in selectors then AddOnce(Dedup(list), cluster) else Dedup(list)
  {
    after := list;
    ghost var matched := false;
    var i := 0;
    while i < |selectors|
      invariant 0 <= i <= |selectors|
      invariant matched <==> exists k :: 0 <= k < i && selectors[k] == name
      invariant Dedup(after) == if matched then AddOnce(Dedup(list), cluster) else Dedup(list)
    {
      if selectors[i] == name {
        DedupAppend(after, cluster);
        after := after + [cluster];
        matched := true;
      }
      i := i + 1;
    }
  }

  predicate Selects(selectors: seq<string>, live: set<string>) {
    exists s :: s in selectors && s in live
  }

  /** The loop over the services live in a cluster, in an unspecified order. */
  method AppendMatches(list: seq<string>, cluster: string, selectors: seq<string>, live: set<string>)
    returns (after: seq<string>)
    ensures Dedup(after) == if Selects(selectors, live) then AddOnce(Dedup(list), cluster) else Dedup(list)
  {
    after := list;
    var todo := live;
    while todo != {}
      invariant todo <= live
      invariant Dedup(after) == if Selects(selectors, live - todo) then AddOnce(Dedup(list), cluster) else Dedup(list)
      decreases todo
    {
      var name :| name in todo;
      assert live - (todo - {name}) == live - todo + {name};
      assert Selects(selectors, live - todo + {name}) == (Selects(selectors, live - todo) || name in selectors);
      todo := todo - {name};
      after := AppendForService(after, cluster, selectors, name);
    }
    assert live - todo == live;
  }

  /** The clusters collected for one policy, duplicates removed. */
  method KeptClusters(policy: Policy, byCluster: map<string, set<string>>) returns (kept: seq<string>)
    ensures kept == Kept(policy, byCluster)
  {
    var collected: seq<string> := [];
    var i := 0;
    while i < |policy.clusters|
      invariant 0 <= i <= |policy.clusters|
      invariant Dedup(collected) == Kept(policy.(clusters := policy.clusters[..i]), byCluster)
    {
      assert policy.clusters[..i + 1][..i] == policy.clusters[..i];
      var cluster := policy.clusters[i];
      var live := if cluster in byCluster then byCluster[cluster] else {};
      collected := AppendMatches(collected, cluster, policy.selectors, live);
      i := i + 1;
    }
    assert policy.(clusters := policy.clusters[..i]) == policy;
    kept := RemoveDuplicates(collected);
  }
}
