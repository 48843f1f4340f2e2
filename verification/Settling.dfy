/** A scale-down pass seen whole: from the addresses the member clusters report to what the next pass reads. */
module Settling {
  import opened Outcomes
  import opened Text
  import opened HostConf
  import opened Placement
  import opened Cleaner
  import opened Convergence
  import opened ScaleDown
  import opened Federation
  import opened Passes

  ghost predicate OneEntryEach(result: seq<Topology>) {
    forall i, j :: 0 <= i < j < |result| ==> result[i].cluster != result[j].cluster
  }

  function DataAddresses(t: Topology): set<string> {
    set addr | addr in t.addresses && IsDataAddress(t, addr)
  }

  /** The address of a service in a cluster. */
  predicate IsServiceAddress(addr: string, services: map<string, nat>, vips: map<string, string>, cluster: string, s: string) {
    s in services && addr == Address(Endpoint(Vip(vips, cluster), services[s]))
  }

  /** The clusters report only addresses of existing services at their own virtual IP, and each of these
      services is placed where it is reported. */
  ghost predicate Reports(result: seq<Topology>, services: map<string, nat>, policies: map<string, Policy>, vips: map<string, string>) {
    && OneEntryEach(result)
    && (forall t :: t in result ==> t.cluster in vips)
    && (forall t, addr :: t in result && addr in DataAddresses(t) ==>
          exists s, name :: IsServiceAddress(addr, services, vips, t.cluster, s) && name in policies && Places(policies[name], s, t.cluster))
  }

  /** The stored services have distinct node ports in the 32-bit range. */
  ghost predicate GoodPorts(services: map<string, nat>) {
    DistinctNodePorts(services) && forall s :: s in services ==> services[s] <= INT32_MAX
  }

  /** The address of a service resolves to it. */
  lemma ServiceAddressResolves(addr: string, list: seq<Service>, services: map<string, nat>, vips: map<string, string>, cluster: string, s: string)
    requires ListsServices(list, services) && GoodPorts(services)
    requires cluster in vips && ':' !in vips[cluster]
    requires IsServiceAddress(addr, services, vips, cluster, s)
    ensures Resolve(addr, list) == Some(s)
  {
    assert Service(s, services[s]) in list;
    ResolveAddress(Endpoint(vips[cluster], services[s]), list, s);
  }

  /** The live services of a reporting cluster are those whose address it reports, one for each address. */
  lemma LiveOfReported(t: Topology, result: seq<Topology>, list: seq<Service>, services: map<string, nat>,
                       policies: map<string, Policy>, vips: map<string, string>)
    requires ListsServices(list, services) && GoodPorts(services) && GoodVips(vips)
    requires Reports(result, services, policies, vips) && t in result
    ensures Resolvable(t, list)
    ensures forall s :: s in LiveOf(t, list) <==> exists addr :: addr in DataAddresses(t) && IsServiceAddress(addr, services, vips, t.cluster, s)
    ensures |LiveOf(t, list)| == |DataAddresses(t)|
  {
    forall addr | addr in DataAddresses(t)
      ensures Resolve(addr, list).Some? && IsServiceAddress(addr, services, vips, t.cluster, Resolve(addr, list).value)
    {
      var s, name :| IsServiceAddress(addr, services, vips, t.cluster, s) && name in policies && Places(policies[name], s, t.cluster);
      ServiceAddressResolves(addr, list, services, vips, t.cluster, s);
    }
    forall s, addr | addr in DataAddresses(t) && IsServiceAddress(addr, services, vips, t.cluster, s)
      ensures Resolve(addr, list) == Some(s)
    {
      ServiceAddressResolves(addr, list, services, vips, t.cluster, s);
    }
    var resolved: map<string, string> := map addr | addr in DataAddresses(t) :: Resolve(addr, list).value;
    forall a, b | a in DataAddresses(t) && b in DataAddresses(t) && resolved[a] == resolved[b]
      ensures a == b
    {
      assert IsServiceAddress(a, services, vips, t.cluster, resolved[a]);
      assert IsServiceAddress(b, services, vips, t.cluster, resolved[b]);
    }
    forall s
      ensures s in LiveOf(t, list) <==> exists addr :: addr in DataAddresses(t) && resolved[addr] == s
    {
      if s in LiveOf(t, list) {
        var addr :| addr in DataAddresses(t) && IsServiceAddress(addr, services, vips, t.cluster, s);
        assert resolved[addr] == s;
      }
    }
    InjectiveImageSize(DataAddresses(t), resolved, LiveOf(t, list));
  }

  lemma LiveServicePlaced(t: Topology, s: string, result: seq<Topology>, list: seq<Service>, services: map<string, nat>,
                          policies: map<string, Policy>, vips: map<string, string>)
    requires ListsServices(list, services) && GoodPorts(services) && GoodVips(vips)
    requires Reports(result, services, policies, vips) && t in result && s in LiveOf(t, list)
    ensures s in services
    ensures PlacedOn(policies, s, t.cluster)
  {
    LiveOfReported(t, result, list, services, policies, vips);
    var addr :| addr in DataAddresses(t) && IsServiceAddress(addr, services, vips, t.cluster, s);
    var s', name :| IsServiceAddress(addr, services, vips, t.cluster, s') && name in policies && Places(policies[name], s', t.cluster);
    ServiceAddressResolves(addr, list, services, vips, t.cluster, s);
    ServiceAddressResolves(addr, list, services, vips, t.cluster, s');
  }

  lemma TableIsPlaced(c: string, s: string, result: seq<Topology>, list: seq<Service>, services: map<string, nat>,
                      policies: map<string, Policy>, vips: map<string, string>)
    requires ListsServices(list, services) && GoodPorts(services) && GoodVips(vips)
    requires Reports(result, services, policies, vips)
    requires c in LiveByCluster(result, list) && s in LiveByCluster(result, list)[c]
    ensures s in services
    ensures PlacedOn(policies, s, c)
  {
    LiveByClusterExact(result, list);
    var t :| t in result && t.cluster == c;
    LiveServicePlaced(t, s, result, list, services, policies, vips);
  }

  lemma TableIsPlacedAndKnown(result: seq<Topology>, list: seq<Service>, services: map<string, nat>, policies: map<string, Policy>, vips: map<string, string>)
    requires ListsServices(list, services) && GoodPorts(services) && GoodVips(vips)
    requires Reports(result, services, policies, vips)
    ensures LiveIsPlaced(policies, LiveByCluster(result, list))
    ensures forall c, s :: c in LiveByCluster(result, list) && s in LiveByCluster(result, list)[c] ==> s in services
  {
    var byCluster := LiveByCluster(result, list);
    forall c, s | c in byCluster && s in byCluster[c]
      ensures s in services && PlacedOn(policies, s, c)
    {
      TableIsPlaced(c, s, result, list, services, policies, vips);
    }
  }

  /** Reported services are placed, and the table of live services agrees with the set of all live ones. */
  lemma ReportedIsPlaced(result: seq<Topology>, list: seq<Service>, services: map<string, nat>, policies: map<string, Policy>, vips: map<string, string>)
    requires ListsServices(list, services) && GoodPorts(services) && GoodVips(vips)
    requires Reports(result, services, policies, vips)
    ensures LiveIsPlaced(policies, LiveByCluster(result, list))
    ensures LiveAnywhere(result, list) <= services.Keys
    ensures forall s :: s in LiveAnywhere(result, list) <==> LiveSomewhere(LiveByCluster(result, list), s)
  {
    LiveByClusterExact(result, list);
    TableIsPlacedAndKnown(result, list, services, policies, vips);
    UnionIsTable(Entries(result, list), services.Keys);
  }

  /** The data addresses a cluster reports; none when it has no entry. */
  ghost function ReportedBy(result: seq<Topology>, cluster: string): set<string> {
    if exists t :: t in result && t.cluster == cluster then
      (var t :| t in result && t.cluster == cluster; DataAddresses(t))
    else {}
  }

  lemma ReportedCount(result: seq<Topology>, list: seq<Service>, services: map<string, nat>, policies: map<string, Policy>,
                      vips: map<string, string>, c: string)
    requires ListsServices(list, services) && GoodPorts(services) && GoodVips(vips)
    requires Reports(result, services, policies, vips)
    ensures |LiveIn(LiveByCluster(result, list), c)| == |ReportedBy(result, c)|
  {
    LiveByClusterExact(result, list);
    if exists t :: t in result && t.cluster == c {
      var t :| t in result && t.cluster == c && ReportedBy(result, c) == DataAddresses(t);
      LiveOfReported(t, result, list, services, policies, vips);
    }
  }

  /** A scale-down whose cleaning and printing both succeed settles: the next pass finds nothing to do if and only if
      every scheduled cluster reports exactly its target number of data addresses. */
  lemma {:induction false} ShrinkSettlesIff(quotas: seq<Quota>, vips: map<string, string>, result: seq<Topology>, list: seq<Service>,
                         services: map<string, nat>, policies: map<string, Policy>,
                         services': map<string, nat>, policies': map<string, Policy>, order: seq<string>, text: string)
    requires DistinctClusters(quotas) && GoodVips(vips) && GoodPorts(services)
    requires OneServiceEach(policies) && forall name, c :: name in policies && c in policies[name].clusters ==> c in vips
    requires Reports(result, services, policies, vips)
    requires exists t :: t in result && DataAddresses(t) != {}
    requires ListsServices(list, services)
    requires CleaningStep(services, policies, services', policies', result, list, Done)
    requires PrintedFrom(text, order, policies', services', vips)
    ensures ReadSizes(Some(text), vips).Some?
    ensures var read := ReadSizes(Some(text), vips).value;
            (UpTargets(quotas, read) == map[] && DownTargets(quotas, read) == map[])
            <==> (forall q :: q in quotas ==> |ReportedBy(result, q.cluster)| == Max(0, q.replicas))
  {
    var byCluster := LiveByCluster(result, list);
    ReportedIsPlaced(result, list, services, policies, vips);
    var t :| t in result && DataAddresses(t) != {};
    LiveOfReported(t, result, list, services, policies, vips);
    LiveByClusterExact(result, list);
    assert |LiveIn(byCluster, t.cluster)| > 0;
    CleanedIsQuietIff(policies, byCluster, services', vips, quotas, order, text, t.cluster);
    forall q | q in quotas
      ensures |LiveIn(byCluster, q.cluster)| == |ReportedBy(result, q.cluster)|
    {
      ReportedCount(result, list, services, policies, vips, q.cluster);
    }
  }

  /** Each printed address is reported. */
  lemma PrintedIsReported(vips: map<string, string>, result: seq<Topology>, list: seq<Service>,
                          services: map<string, nat>, policies: map<string, Policy>, e: Endpoint, c: string, s: string)
    requires GoodVips(vips) && GoodPorts(services) && ListsServices(list, services)
    requires Reports(result, services, policies, vips)
    requires IsLiveEndpoint(e, LiveByCluster(result, list), services, vips, c, s)
    ensures exists t :: t in result && Address(e) in DataAddresses(t)
  {
    LiveByClusterExact(result, list);
    var t :| t in result && t.cluster == c;
    LiveOfReported(t, result, list, services, policies, vips);
    var a :| a in DataAddresses(t) && IsServiceAddress(a, services, vips, c, s);
    assert a == Address(e);
  }

  /** Each reported data address is that of a live service. */
  lemma ReportedIsLive(vips: map<string, string>, result: seq<Topology>, list: seq<Service>,
                       services: map<string, nat>, policies: map<string, Policy>, t: Topology, addr: string) returns (e: Endpoint)
    requires GoodVips(vips) && GoodPorts(services) && ListsServices(list, services)
    requires Reports(result, services, policies, vips)
    requires t in result && addr in DataAddresses(t)
    ensures addr == Address(e)
    ensures exists c, s :: IsLiveEndpoint(e, LiveByCluster(result, list), services, vips, c, s)
  {
    LiveByClusterExact(result, list);
    var s, name :| IsServiceAddress(addr, services, vips, t.cluster, s) && name in policies && Places(policies[name], s, t.cluster);
    LiveOfReported(t, result, list, services, policies, vips);
    e := Endpoint(Vip(vips, t.cluster), services[s]);
    assert IsLiveEndpoint(e, LiveByCluster(result, list), services, vips, t.cluster, s);
  }

  /** Cleaning keeps a live service with its port, so the live endpoints are the same before and after. */
  lemma StillLive(result: seq<Topology>, list: seq<Service>, services: map<string, nat>, policies: map<string, Policy>,
                  services': map<string, nat>, policies': map<string, Policy>, vips: map<string, string>, e: Endpoint, c: string, s: string)
    requires GoodVips(vips) && GoodPorts(services) && ListsServices(list, services)
    requires Reports(result, services, policies, vips)
    requires CleaningStep(services, policies, services', policies', result, list, Done)
    ensures IsLiveEndpoint(e, LiveByCluster(result, list), services', vips, c, s)
       <==> IsLiveEndpoint(e, LiveByCluster(result, list), services, vips, c, s)
  {
    ReportedIsPlaced(result, list, services, policies, vips);
    var byCluster := LiveByCluster(result, list);
    assert c in byCluster && s in byCluster[c] ==> LiveSomewhere(byCluster, s);
  }

  /** The addresses printed after a scale-down are exactly the reported data addresses. */
  lemma {:induction false} PrintedAreReported(vips: map<string, string>, result: seq<Topology>, list: seq<Service>,
                                              services: map<string, nat>, policies: map<string, Policy>,
                                              services': map<string, nat>, policies': map<string, Policy>, order: seq<string>, addr: string)
    requires GoodVips(vips) && GoodPorts(services) && OneServiceEach(policies)
    requires Reports(result, services, policies, vips)
    requires ListsServices(list, services)
    requires CleaningStep(services, policies, services', policies', result, list, Done)
    requires Enumerates(order, policies'.Keys) && AllPrintable(order, policies', services')
    ensures addr in Addresses(Endpoints(order, policies', services', vips)) <==> exists t :: t in result && addr in DataAddresses(t)
  {
    var byCluster := LiveByCluster(result, list);
    ReportedIsPlaced(result, list, services, policies, vips);
    var es := Endpoints(order, policies', services', vips);
    if addr in Addresses(es) {
      var i :| 0 <= i < |es| && Addresses(es)[i] == addr;
      assert es[i] in es;
      PrintedAreLive(policies, byCluster, services', vips, order, es[i]);
      var c, s :| IsLiveEndpoint(es[i], byCluster, services', vips, c, s);
      StillLive(result, list, services, policies, services', policies', vips, es[i], c, s);
      PrintedIsReported(vips, result, list, services, policies, es[i], c, s);
    }
    if t :| t in result && addr in DataAddresses(t) {
      var e := ReportedIsLive(vips, result, list, services, policies, t, addr);
      var c, s :| IsLiveEndpoint(e, byCluster, services, vips, c, s);
      StillLive(result, list, services, policies, services', policies', vips, e, c, s);
      PrintedAreLive(policies, byCluster, services', vips, order, e);
      var i :| 0 <= i < |es| && es[i] == e;
      assert Addresses(es)[i] == addr;
    }
  }
}
