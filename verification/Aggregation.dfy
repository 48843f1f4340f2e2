/** How the control plane gathers the status of the member clusters: which addresses it attributes to which cluster. */
module Aggregation {
  import opened Outcomes
  import opened Text
  import opened HostConf
  import opened Cleaner
  import Convergence

  /** A member of the replica set as a cluster reports it. */
  datatype Reported = Reported(host: string, state: string)

  datatype MongoStatus = MongoStatus(members: int, running: bool, replSet: seq<Reported>)

  /** One item of the aggregated status; None for a cluster that has not reported. A garbled report does not decode. */
  datatype Item = Item(cluster: string, status: Option<MongoStatus>, garbled: bool) {
    /** A cluster that has not reported is skipped before anything is decoded. */
    predicate Undecodable() {
      status.Some? && garbled
    }
  }

  /** How many items come before the first that does not decode. */
  function Decodable(items: seq<Item>): (d: nat)
    ensures d <= |items| && (d < |items| ==> items[d].Undecodable())
    ensures forall i :: 0 <= i < d ==> !items[i].Undecodable()
  {
    if items == [] || items[0].Undecodable() then 0 else Decodable(items[1..]) + 1
  }

  /** Only a report can fail to decode: a cluster without one is passed over, whatever else is said of it. */
  lemma OnlyReportsDecode(c: string, s: MongoStatus, garbled: bool)
    ensures Decodable([Item(c, None, garbled)]) == 1
    ensures Decodable([Item(c, Some(s), garbled)]) == if garbled then 0 else 1
  {
    assert [Item(c, None, garbled)][1..] == [] && [Item(c, Some(s), garbled)][1..] == [];
  }

  /** strings.Contains */
  function Contains(s: string, sub: string): bool {
    sub == "" || Index(s, sub).Some?
  }

  lemma ContainsIff(s: string, sub: string)
    ensures Contains(s, sub) <==> exists k :: OccursAt(s, sub, k)
  {
    if sub == "" {
      assert OccursAt(s, sub, 0);
    }
  }

  /** net.JoinHostPort */
  function JoinHostPort(host: string, port: nat): string {
    if ':' in host then "[" + host + "]:" + Itoa(port) else host + ":" + Itoa(port)
  }

  /** The entry of the arbiter a cluster runs. */
  function ArbiterEntry(vip: string, arbiter: Option<nat>): map<string, string> {
    match arbiter
    case None => map[]
    case Some(port) => map[JoinHostPort(vip, port) := ARBITER]
  }

  /** The addresses attributed to a cluster: every reported host whose text contains the virtual IP. */
  function Attributed(vip: string, arbiter: Option<nat>, replSet: seq<Reported>): map<string, string> {
    if replSet == [] then ArbiterEntry(vip, arbiter)
    else
      var before, last := Attributed(vip, arbiter, replSet[..|replSet| - 1]), replSet[|replSet| - 1];
      if Contains(last.host, vip) then before[last.host := last.state] else before
  }

  /** The hosts that contribute to the external address. */
  function ExternalHosts(vip: string, replSet: seq<Reported>): seq<string> {
    if replSet == [] then []
    else
      var last := replSet[|replSet| - 1];
      ExternalHosts(vip, replSet[..|replSet| - 1]) + if Contains(last.host, vip) then [last.host] else []
  }

  function ArbiterOf(arbiters: map<string, nat>, cluster: string): Option<nat> {
    if cluster in arbiters then Some(arbiters[cluster]) else None
  }

  function AddressesOf(item: Item, vips: map<string, string>, arbiters: map<string, nat>): map<string, string>
    requires item.status.Some?
  {
    Attributed(Convergence.Vip(vips, item.cluster), ArbiterOf(arbiters, item.cluster), item.status.value.replSet)
  }

  function EntryOf(item: Item, vips: map<string, string>, arbiters: map<string, nat>): seq<Topology> {
    if item.status.None? then []
    else [Topology(item.cluster, item.status.value.members, AddressesOf(item, vips, arbiters))]
  }

  /** The entries of status.result: one for every cluster that has reported, in order. */
  function Entries(items: seq<Item>, vips: map<string, string>, arbiters: map<string, nat>): seq<Topology> {
    if items == [] then []
    else
      Entries(items[..|items| - 1], vips, arbiters) + EntryOf(items[|items| - 1], vips, arbiters)
  }

  predicate AllReported(items: seq<Item>) {
    forall i :: 0 <= i < |items| ==> items[i].status.Some?
  }

  /** No cluster with addresses comes after one that has not reported. */
  predicate Aligned(items: seq<Item>, vips: map<string, string>, arbiters: map<string, nat>) {
    forall i :: 0 <= i < |items| && items[i].status.Some? && !AllReported(items[..i]) ==> AddressesOf(items[i], vips, arbiters) == map[]
  }

  function Running(items: seq<Item>): nat {
    if items == [] then 0
    else
      var last := items[|items| - 1];
      Running(items[..|items| - 1]) + if last.status.Some? && last.status.value.running then 1 else 0
  }

  function HostsOfItem(item: Item, vips: map<string, string>): seq<string> {
    if item.status.None? then [] else ExternalHosts(Convergence.Vip(vips, item.cluster), item.status.value.replSet)
  }

  function AllHosts(items: seq<Item>, vips: map<string, string>): seq<string> {
    if items == [] then []
    else
      AllHosts(items[..|items| - 1], vips) + HostsOfItem(items[|items| - 1], vips)
  }

  /** The service is healthy exactly when every cluster reports that it runs. */
  lemma {:induction false} HealthyIff(items: seq<Item>)
    ensures Running(items) <= |items|
    ensures Running(items) == |items| <==> forall x :: x in items ==> x.status.Some? && x.status.value.running
  {
    if items == [] {
    } else {
      var n := |items| - 1;
      HealthyIff(items[..n]);
      assert items == items[..n] + [items[n]];
    }
  }

  // ---------------------------------------------------------------- the loop

  /** The part of the loop body that writes through Result[i]; beyond the end of the result it panics at the first write. */
  method Attribute(before: seq<Topology>, i: nat, vip: string, arbiter: Option<nat>, replSet: seq<Reported>)
    returns (outcome: Outcome, result: seq<Topology>, hosts: seq<string>)
    requires i < |before| ==> before[i].addresses == map[]
    ensures var addresses := Attributed(vip, arbiter, replSet);
            if i < |before| then outcome == Done && result == before[i := before[i].(addresses := addresses)]
            else outcome == (if addresses == map[] then Done else Panicked) && (outcome == Done ==> result == before)
    ensures outcome == Done ==> hosts == ExternalHosts(vip, replSet)
  {
    result, hosts := before, [];
    if arbiter.Some? {
      if i >= |result| {
        KeptKeys(vip, arbiter, replSet, 0);
        assert JoinHostPort(vip, arbiter.value) in Attributed(vip, arbiter, replSet[..0]).Keys;
        return Panicked, [], [];
      }
      result := result[i := result[i].(addresses := map[JoinHostPort(vip, arbiter.value) := ARBITER])];
    }
    var j := 0;
    while j < |replSet|
      invariant 0 <= j <= |replSet|
      invariant i < |before| ==> result == before[i := before[i].(addresses := Attributed(vip, arbiter, replSet[..j]))]
      invariant i >= |before| ==> result == before && Attributed(vip, arbiter, replSet[..j]) == map[]
      invariant hosts == ExternalHosts(vip, replSet[..j])
    {
      assert replSet[..j + 1][..j] == replSet[..j];
      var rs := replSet[j];
      if Contains(rs.host, vip) {
        if i >= |result| {
          KeptKeys(vip, arbiter, replSet, j + 1);
          assert rs.host in Attributed(vip, arbiter, replSet[..j + 1]).Keys;
          return Panicked, [], [];
        }
        result := result[i := result[i].(addresses := result[i].addresses[rs.host := rs.state])];
        hosts := hosts + [rs.host];
      }
      j := j + 1;
    }
    assert replSet[..j] == replSet;
    outcome := Done;
  }

  lemma {:induction false} KeptKeys(vip: string, arbiter: Option<nat>, replSet: seq<Reported>, j: nat)
    requires j <= |replSet|
    ensures Attributed(vip, arbiter, replSet[..j]).Keys <= Attributed(vip, arbiter, replSet).Keys
    decreases |replSet|
  {
    if j == |replSet| {
      assert replSet[..j] == replSet;
    } else {
      assert replSet[..|replSet| - 1][..j] == replSet[..j];
      KeptKeys(vip, arbiter, replSet[..|replSet| - 1], j);
    }
  }

  lemma AggregateStep(items: seq<Item>, i: nat, vips: map<string, string>, arbiters: map<string, nat>)
    requires i < |items|
    ensures Entries(items[..i + 1], vips, arbiters) == Entries(items[..i], vips, arbiters) + EntryOf(items[i], vips, arbiters)
    ensures AllHosts(items[..i + 1], vips) == AllHosts(items[..i], vips) + HostsOfItem(items[i], vips)
    ensures Running(items[..i + 1]) == Running(items[..i]) + if items[i].status.Some? && items[i].status.value.running then 1 else 0
  {
    assert items[..i + 1][..i] == items[..i];
  }

  lemma AlignedStep(items: seq<Item>, i: nat, vips: map<string, string>, arbiters: map<string, nat>)
    requires i < |items| && Aligned(items[..i], vips, arbiters)
    ensures Aligned(items[..i + 1], vips, arbiters)
       <==> (items[i].status.Some? && !AllReported(items[..i]) ==> AddressesOf(items[i], vips, arbiters) == map[])
  {
    var upTo := items[..i + 1];
    assert upTo[..i] == items[..i] && upTo[i] == items[i];
    if items[i].status.Some? && !AllReported(items[..i]) ==> AddressesOf(items[i], vips, arbiters) == map[] {
      forall k | 0 <= k < |upTo| && upTo[k].status.Some? && !AllReported(upTo[..k])
        ensures AddressesOf(upTo[k], vips, arbiters) == map[]
      {
        if k < i {
          assert items[..i][..k] == upTo[..k] && items[..i][k] == upTo[k];
        }
      }
    }
  }

  /** The result is as long as the loop has come exactly while every cluster has reported. */
  lemma {:induction false} EntryCount(items: seq<Item>, vips: map<string, string>, arbiters: map<string, nat>)
    ensures |Entries(items, vips, arbiters)| <= |items|
    ensures |Entries(items, vips, arbiters)| == |items| <==> AllReported(items)
  {
    if items == [] {
    } else {
      var n := |items| - 1;
      EntryCount(items[..n], vips, arbiters);
      assert AllReported(items) <==> AllReported(items[..n]) && items[n].status.Some? by {
        assert forall k :: 0 <= k < n ==> items[..n][k] == items[k];
      }
    }
  }

  /** The loop body, for an item that decodes. */
  method AggregateOne(before: seq<Topology>, items: seq<Item>, i: nat, vips: map<string, string>, arbiters: map<string, nat>)
    returns (outcome: Outcome, result: seq<Topology>, hosts: seq<string>)
    requires i < |items| && before == Entries(items[..i], vips, arbiters) && Aligned(items[..i], vips, arbiters)
    ensures outcome == if Aligned(items[..i + 1], vips, arbiters) then Done else Panicked
    ensures outcome == Done ==> result == before + EntryOf(items[i], vips, arbiters) && hosts == HostsOfItem(items[i], vips)
  {
    EntryCount(items[..i], vips, arbiters);
    AlignedStep(items, i, vips, arbiters);
    if items[i].status.None? {
      return Done, before, [];
    }
    var status, vip := items[i].status.value, Convergence.Vip(vips, items[i].cluster);
    var entry := Topology(items[i].cluster, status.members, map[]);
    outcome, result, hosts := Attribute(before + [entry], i, vip, ArbiterOf(arbiters, items[i].cluster), status.replSet);
  }

  /** The loop of StatusHandler over the aggregated status. It ends with an error at the first report that does not
      decode, keeping the entries made so far. */
  method Aggregate(items: seq<Item>, vips: map<string, string>, arbiters: map<string, nat>)
    returns (outcome: Outcome, result: seq<Topology>, healthy: bool, externalAddr: string)
    ensures outcome == if !Aligned(items[..Decodable(items)], vips, arbiters) then Panicked
                       else if Decodable(items) < |items| then Failed else Done
    ensures outcome != Panicked ==> result == Entries(items[..Decodable(items)], vips, arbiters)
    ensures externalAddr == if outcome.Done? then Join(AllHosts(items, vips), ",") else ""
    ensures outcome.Done? ==> (healthy <==> forall x :: x in items ==> x.status.Some? && x.status.value.running)
  {
    result, healthy, externalAddr := [], false, "";
    var hosts: seq<string>, health := [], 0;
    ghost var d := Decodable(items);
    var i := 0;
    while i < |items|
      invariant 0 <= i <= d && Aligned(items[..i], vips, arbiters)
      invariant result == Entries(items[..i], vips, arbiters)
      invariant health == Running(items[..i]) && hosts == AllHosts(items[..i], vips)
    {
      if items[i].Undecodable() {
        return Failed, result, false, "";
      }
      assert i < d;
      AggregateStep(items, i, vips, arbiters);
      var found: seq<string>;
      outcome, result, found := AggregateOne(result, items, i, vips, arbiters);
      if outcome != Done {
        StaysMisaligned(items, i + 1, d, vips, arbiters);
        return;
      }
      hosts := hosts + found;
      if items[i].status.Some? && items[i].status.value.running {
        health := health + 1;
      }
      i := i + 1;
    }
    assert items[..i] == items;
    HealthyIff(items);
    WrittenIsJoin(hosts);
    outcome, healthy, externalAddr := Done, health == |items|, TrimSuffix(Written(hosts), ",");
  }

  lemma {:induction false} StaysMisaligned(items: seq<Item>, i: nat, d: nat, vips: map<string, string>, arbiters: map<string, nat>)
    requires i <= d <= |items| && !Aligned(items[..i], vips, arbiters)
    ensures !Aligned(items[..d], vips, arbiters)
  {
    var k :| 0 <= k < i && items[..i][k].status.Some? && !AllReported(items[..i][..k]) && AddressesOf(items[..i][k], vips, arbiters) != map[];
    assert items[..i][..k] == items[..d][..k] && items[..i][k] == items[..d][k];
  }

  /** What the buffer holds: every host with a comma after it. */
  function Written(hosts: seq<string>): string {
    if hosts == [] then "" else hosts[0] + "," + Written(hosts[1..])
  }

  lemma {:induction false} WrittenIsJoin(hosts: seq<string>)
    ensures hosts == [] ==> Written(hosts) == Join(hosts, ",")
    ensures hosts != [] ==> Written(hosts) == Join(hosts, ",") + ","
    ensures TrimSuffix(Written(hosts), ",") == Join(hosts, ",")
  {
    if |hosts| > 1 {
      WrittenIsJoin(hosts[1..]);
    } else if |hosts| == 1 {
      assert Written(hosts[1..]) == "";
    }
  }

  // ---------------------------------------------------------------- whose addresses

  /** Exactly the reported hosts that contain the virtual IP are attributed, and the entry of the arbiter. */
  lemma {:induction false} AttributedExact(vip: string, arbiter: Option<nat>, replSet: seq<Reported>, host: string)
    ensures host in Attributed(vip, arbiter, replSet)
       <==> host in ArbiterEntry(vip, arbiter) || (Contains(host, vip) && exists k :: 0 <= k < |replSet| && replSet[k].host == host)
  {
    if replSet == [] {
    } else {
      var n := |replSet| - 1;
      AttributedExact(vip, arbiter, replSet[..n], host);
    }
  }

  /** The last reported member at the address. */
  ghost predicate LastAt(replSet: seq<Reported>, k: nat, host: string) {
    k < |replSet| && replSet[k].host == host && forall j :: k < j < |replSet| ==> replSet[j].host != host
  }

  /** The role stored with an address is the state of the last reported member at that address. */
  lemma {:induction false} AttributedRole(vip: string, arbiter: Option<nat>, replSet: seq<Reported>, k: nat)
    requires k < |replSet| && LastAt(replSet, k, replSet[k].host) && Contains(replSet[k].host, vip)
    ensures var host := replSet[k].host;
            host in Attributed(vip, arbiter, replSet) && Attributed(vip, arbiter, replSet)[host] == replSet[k].state
  {
    var n := |replSet| - 1;
    if k < n {
      assert replSet[n].host != replSet[k].host;
      assert LastAt(replSet[..n], k, replSet[k].host);
      AttributedRole(vip, arbiter, replSet[..n], k);
    }
  }

  /** The arbiter's own address keeps its role unless a member is reported there. */
  lemma {:induction false} ArbiterRole(vip: string, port: nat, replSet: seq<Reported>)
    requires forall k :: 0 <= k < |replSet| ==> replSet[k].host != JoinHostPort(vip, port)
    ensures JoinHostPort(vip, port) in Attributed(vip, Some(port), replSet)
    ensures Attributed(vip, Some(port), replSet)[JoinHostPort(vip, port)] == "ARBITER"
  {
    if replSet == [] {
    } else {
      assert replSet[|replSet| - 1].host != JoinHostPort(vip, port);
      ArbiterRole(vip, port, replSet[..|replSet| - 1]);
    }
  }

  /** The external address lists the hosts that contain the virtual IP, in the order they are reported: for one member,
      and for two lists one after the other. */
  lemma {:induction false} ExternalExact(vip: string, r: Reported, a: seq<Reported>, b: seq<Reported>)
    ensures ExternalHosts(vip, [r]) == if Contains(r.host, vip) then [r.host] else []
    ensures ExternalHosts(vip, a + b) == ExternalHosts(vip, a) + ExternalHosts(vip, b)
  {
    assert [r][..0] == [] && ExternalHosts(vip, []) == [];
    if b == [] {
      assert a + b == a;
    } else {
      var n := |b| - 1;
      ExternalExact(vip, r, a, b[..n]);
      assert (a + b)[..|a + b| - 1] == a + b[..n];
    }
  }

  /** Each cluster that has reported adds one entry at the end, with the member count it reports; one that has not adds none. */
  lemma {:induction false} EntriesExact(items: seq<Item>, item: Item, vips: map<string, string>, arbiters: map<string, nat>)
    ensures Entries([], vips, arbiters) == []
    ensures item.status.None? ==> Entries(items + [item], vips, arbiters) == Entries(items, vips, arbiters)
    ensures item.status.Some? ==>
              var addresses := Attributed(if item.cluster in vips then vips[item.cluster] else "",
                                          if item.cluster in arbiters then Some(arbiters[item.cluster]) else None, item.status.value.replSet);
              Entries(items + [item], vips, arbiters) == Entries(items, vips, arbiters) + [Topology(item.cluster, item.status.value.members, addresses)]
  {
    assert (items + [item])[..|items|] == items;
  }

  /** The hosts of the external address are gathered item by item. */
  lemma {:induction false} HostsInOrder(items: seq<Item>, item: Item, vips: map<string, string>)
    ensures AllHosts([], vips) == []
    ensures AllHosts(items + [item], vips)
         == AllHosts(items, vips) + match item.status
                                    case None => []
                                    case Some(s) => ExternalHosts(if item.cluster in vips then vips[item.cluster] else "", s.replSet)
  {
    assert (items + [item])[..|items|] == items;
  }

  /** The arbiter's address is that of its service; a virtual IP of version 6 stands in brackets. */
  lemma ArbiterAddress(vip: string, port: nat)
    ensures ':' !in vip ==> JoinHostPort(vip, port) == Address(Endpoint(vip, port))
    ensures ':' in vip ==> JoinHostPort(vip, port) == "[" + vip + "]:" + Itoa(port)
    ensures Attributed(vip, Some(port), []) == map[JoinHostPort(vip, port) := "ARBITER"] && Attributed(vip, None, []) == map[]
  {
  }

  /** A cluster is attributed exactly the addresses at its own virtual IP if and only if its virtual IP does not occur
      in the text of another cluster's address. */
  lemma {:induction false} OwnAddressesIff(vip: string, es: seq<Endpoint>, replSet: seq<Reported>)
    requires ':' !in vip && forall e :: e in es ==> ':' !in e.vip
    requires |replSet| == |es| && forall k :: 0 <= k < |es| ==> replSet[k].host == Address(es[k])
    ensures (forall k :: 0 <= k < |es| ==> (Address(es[k]) in Attributed(vip, None, replSet) <==> es[k].vip == vip))
       <==> (forall k :: 0 <= k < |es| && es[k].vip != vip ==> !Contains(Address(es[k]), vip))
  {
    forall k | 0 <= k < |es|
      ensures Address(es[k]) in Attributed(vip, None, replSet) <==> Contains(Address(es[k]), vip)
      ensures es[k].vip == vip ==> Contains(Address(es[k]), vip)
    {
      AttributedExact(vip, None, replSet, Address(es[k]));
      assert replSet[k].host == Address(es[k]);
    }
  }

  /** A virtual IP that begins like another one collects the other cluster's addresses too. */
  lemma PrefixIsAttributed(port: nat, state: string)
    ensures Address(Endpoint("10.0.0.11", port)) in Attributed("10.0.0.1", None, [Reported(Address(Endpoint("10.0.0.11", port)), state)])
  {
    var host := Address(Endpoint("10.0.0.11", port));
    assert host[0..8] == "10.0.0.1";
    assert OccursAt(host, "10.0.0.1", 0);
    ContainsIff(host, "10.0.0.1");
    AttributedExact("10.0.0.1", None, [Reported(host, state)], host);
    assert [Reported(host, state)][0].host == host;
  }

  /** A cluster without a report before one with an address makes the handler panic. */
  lemma {:induction false} SilentClusterPanics(host: string)
    requires Contains(host, "v")
    ensures !Aligned([Item("a", None, false), Item("b", Some(MongoStatus(1, true, [Reported(host, "PRIMARY")])), false)], map["b" := "v"], map[])
  {
    var replSet := [Reported(host, "PRIMARY")];
    var items := [Item("a", None, false), Item("b", Some(MongoStatus(1, true, replSet)), false)];
    AttributedExact("v", None, replSet, host);
    assert replSet[0].host == host;
    assert host in AddressesOf(items[1], map["b" := "v"], map[]).Keys;
    assert items[..1][0] == items[0];
  }
}
