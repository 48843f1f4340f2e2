/** Why scaling down settles: what ScaleDownCleaner leaves in the policies, what is printed from it, and what
    the next pass reads. */
module ScaleDown {
  import opened Outcomes
  import opened Text
  import opened HostConf
  import opened Placement
  import opened Cleaner
  import opened Convergence

  /** The policies after the last loop of ScaleDownCleaner has handled those in `done`. A policy that keeps no
      cluster is deleted, and then created again with an empty list unless its list was empty already. */
  function Cleaned(policies: map<string, Policy>, byCluster: map<string, set<string>>, done: set<string>): map<string, Policy> {
    map name | name in policies && !(name in done && policies[name].clusters == []) ::
      if name in done then policies[name].(clusters := Kept(policies[name], byCluster)) else policies[name]
  }

  function CleanedAll(policies: map<string, Policy>, byCluster: map<string, set<string>>): map<string, Policy> {
    Cleaned(policies, byCluster, policies.Keys)
  }

  /** The services live in a cluster. */
  function LiveIn(byCluster: map<string, set<string>>, cluster: string): set<string> {
    if cluster in byCluster then byCluster[cluster] else {}
  }

  /** Each policy selects one service and no two policies select the same one. */
  ghost predicate OneServiceEach(policies: map<string, Policy>) {
    && (forall name :: name in policies ==> |policies[name].selectors| == 1)
    && (forall m, n :: m in policies && n in policies && policies[m].selectors == policies[n].selectors ==> m == n)
  }

  /** The service is placed on the cluster by the policy. */
  predicate Places(policy: Policy, service: string, cluster: string) {
    policy.selectors == [service] && cluster in policy.clusters
  }

  /** Some policy places the service on the cluster. */
  ghost predicate PlacedOn(policies: map<string, Policy>, service: string, cluster: string) {
    exists name :: name in policies && Places(policies[name], service, cluster)
  }

  /** Every live service is placed where it is live. */
  ghost predicate LiveIsPlaced(policies: map<string, Policy>, byCluster: map<string, set<string>>) {
    forall c, s :: c in byCluster && s in byCluster[c] ==> PlacedOn(policies, s, c)
  }

  lemma {:induction false} InjectiveImageSize(domain: set<string>, m: map<string, string>, image: set<string>)
    requires domain <= m.Keys
    requires forall x, y :: x in domain && y in domain && m[x] == m[y] ==> x == y
    requires forall v :: v in image <==> exists x :: x in domain && m[x] == v
    ensures |image| == |domain|
    decreases domain
  {
    if domain == {} {
      assert image == {};
    } else {
      var x :| x in domain;
      assert m[x] in image;
      InjectiveImageSize(domain - {x}, m, image - {m[x]});
    }
  }

  /** A policy keeps a cluster exactly when it places a service that is live there. */
  lemma KeptIffLive(policies: map<string, Policy>, byCluster: map<string, set<string>>, name: string, c: string)
    requires OneServiceEach(policies) && name in policies
    ensures c in Kept(policies[name], byCluster)
       <==> c in policies[name].clusters && policies[name].selectors[0] in LiveIn(byCluster, c)
  {
    KeptExact(policies[name], byCluster);
    var s := policies[name].selectors[0];
    assert policies[name].selectors == [s];
    assert c in byCluster ==> (Selects([s], byCluster[c]) <==> s in byCluster[c]);
  }

  lemma NamingIffKept(policies: map<string, Policy>, byCluster: map<string, set<string>>, name: string, c: string)
    ensures name in PoliciesNaming(CleanedAll(policies, byCluster), c)
       <==> name in policies && c in Kept(policies[name], byCluster)
  {
    if name in policies {
      KeptExact(policies[name], byCluster);
    }
  }

  /** After cleaning, a cluster is named by as many policies as it has live services. */
  lemma CleanedCounts(policies: map<string, Policy>, byCluster: map<string, set<string>>, c: string)
    requires OneServiceEach(policies) && LiveIsPlaced(policies, byCluster)
    ensures |PoliciesNaming(CleanedAll(policies, byCluster), c)| == |LiveIn(byCluster, c)|
  {
    var naming := PoliciesNaming(CleanedAll(policies, byCluster), c);
    var service: map<string, string> := map name | name in policies :: policies[name].selectors[0];
    forall name
      ensures name in naming <==> name in policies && c in policies[name].clusters && service[name] in LiveIn(byCluster, c)
    {
      NamingIffKept(policies, byCluster, name, c);
      if name in policies {
        KeptIffLive(policies, byCluster, name, c);
      }
    }
    forall m, n | m in naming && n in naming && service[m] == service[n]
      ensures m == n
    {
      assert policies[m].selectors == [service[m]] == policies[n].selectors;
    }
    forall s | s in LiveIn(byCluster, c)
      ensures exists name :: name in naming && service[name] == s
    {
      var name :| name in policies && Places(policies[name], s, c);
      assert name in naming && service[name] == s;
    }
    InjectiveImageSize(naming, service, LiveIn(byCluster, c));
  }

  lemma CleanedIsWellPlaced(policies: map<string, Policy>, byCluster: map<string, set<string>>, vips: map<string, string>, c: string)
    requires OneServiceEach(policies) && LiveIsPlaced(policies, byCluster)
    requires forall name, d :: name in policies && d in policies[name].clusters ==> d in vips
    requires LiveIn(byCluster, c) != {}
    ensures WellPlaced(CleanedAll(policies, byCluster), vips)
  {
    var cleaned := CleanedAll(policies, byCluster);
    forall name | name in cleaned
      ensures NoDuplicates(cleaned[name].clusters)
      ensures forall d :: d in cleaned[name].clusters ==> d in vips
    {
      KeptExact(policies[name], byCluster);
    }
    var s :| s in LiveIn(byCluster, c);
    var name :| name in policies && Places(policies[name], s, c);
    KeptIffLive(policies, byCluster, name, c);
    assert name in cleaned && cleaned[name].clusters != [];
  }

  /** Scale-down settles: once cleaning and printing have both succeeded, the next pass finds nothing to do if
      and only if every scheduled cluster reports exactly its target number of live services. */
  lemma {:induction false} CleanedIsQuietIff(policies: map<string, Policy>, byCluster: map<string, set<string>>, services: map<string, nat>,
                          vips: map<string, string>, quotas: seq<Quota>, order: seq<string>, text: string, c: string)
    requires OneServiceEach(policies) && LiveIsPlaced(policies, byCluster)
    requires GoodVips(vips) && forall name, d :: name in policies && d in policies[name].clusters ==> d in vips
    requires DistinctClusters(quotas)
    requires LiveIn(byCluster, c) != {}
    requires PrintedFrom(text, order, CleanedAll(policies, byCluster), services, vips)
    ensures ReadSizes(Some(text), vips).Some?
    ensures var sizes := ReadSizes(Some(text), vips).value;
            (UpTargets(quotas, sizes) == map[] && DownTargets(quotas, sizes) == map[])
            <==> (forall q :: q in quotas ==> |LiveIn(byCluster, q.cluster)| == Max(0, q.replicas))
  {
    CleanedIsWellPlaced(policies, byCluster, vips, c);
    QuietIff(text, order, CleanedAll(policies, byCluster), services, vips, quotas);
    forall q | q in quotas
      ensures |PoliciesNaming(CleanedAll(policies, byCluster), q.cluster)| == |LiveIn(byCluster, q.cluster)|
    {
      CleanedCounts(policies, byCluster, q.cluster);
    }
  }

  /** The services that survive cleaning. */
  function LiveServices(services: map<string, nat>, anywhere: set<string>): map<string, nat> {
    map name | name in services && name in anywhere :: services[name]
  }

  /** After cleaning, the host ConfigMap can be printed if and only if no policy lost all of its clusters: a policy
      that did comes back with an empty list, but its service is gone, so looking the service up fails. */
  lemma PrintableIffNoneLost(policies: map<string, Policy>, byCluster: map<string, set<string>>,
                             services: map<string, nat>, anywhere: set<string>)
    requires OneServiceEach(policies) && LiveIsPlaced(policies, byCluster)
    requires anywhere <= services.Keys
    requires forall s :: s in anywhere <==> LiveSomewhere(byCluster, s)
    ensures (forall name :: name in CleanedAll(policies, byCluster) ==>
                        Printable(CleanedAll(policies, byCluster)[name], LiveServices(services, anywhere)))
       <==> (forall name :: name in policies && policies[name].clusters != [] ==> Kept(policies[name], byCluster) != [])
  {
    var cleaned := CleanedAll(policies, byCluster);
    forall name | name in policies && policies[name].clusters != []
      ensures name in cleaned
      ensures Printable(cleaned[name], LiveServices(services, anywhere)) <==> Kept(policies[name], byCluster) != []
    {
      var s := policies[name].selectors[0];
      assert policies[name].selectors == [s];
      if s in anywhere {
        var c :| c in byCluster && s in byCluster[c];
        assert PlacedOn(policies, s, c);
        var m :| m in policies && Places(policies[m], s, c);
        KeptIffLive(policies, byCluster, name, c);
      }
      if Kept(policies[name], byCluster) != [] {
        KeptIffLive(policies, byCluster, name, Kept(policies[name], byCluster)[0]);
        assert s in anywhere;
      }
    }
  }

  // ---------------------------------------------------------------- what is printed

  ghost predicate IsLiveEndpoint(e: Endpoint, byCluster: map<string, set<string>>, services: map<string, nat>, vips: map<string, string>,
                                 c: string, s: string) {
    c in byCluster && s in byCluster[c] && s in services && e == Endpoint(Vip(vips, c), services[s])
  }

  lemma {:induction false} EndpointMembers(order: seq<string>, policies: map<string, Policy>, services: map<string, nat>,
                                           vips: map<string, string>, e: Endpoint)
    requires AllPrintable(order, policies, services)
    ensures e in Endpoints(order, policies, services, vips)
       <==> exists name :: name in order && e in PolicyEndpoints(policies[name], services, vips)
  {
    if order == [] {
    } else {
      var n := |order| - 1;
      EndpointMembers(order[..n], policies, services, vips, e);
      assert order == order[..n] + [order[n]];
    }
  }

  lemma PolicyEndpointMembers(policy: Policy, services: map<string, nat>, vips: map<string, string>, e: Endpoint)
    requires Printable(policy, services)
    ensures e in PolicyEndpoints(policy, services, vips)
       <==> exists c :: c in policy.clusters && e == Endpoint(Vip(vips, c), services[policy.selectors[0]])
  {
    var es := PolicyEndpoints(policy, services, vips);
    if c :| c in policy.clusters && e == Endpoint(Vip(vips, c), services[policy.selectors[0]]) {
      var i :| 0 <= i < |policy.clusters| && policy.clusters[i] == c;
      assert es[i] == e;
    }
    if e in es {
      var i :| 0 <= i < |es| && es[i] == e;
      assert policy.clusters[i] in policy.clusters;
    }
  }

  /** What is printed after cleaning is exactly the live services, each at the virtual IP of a cluster where it is live. */
  lemma PrintedAreLive(policies: map<string, Policy>, byCluster: map<string, set<string>>, services: map<string, nat>,
                       vips: map<string, string>, order: seq<string>, e: Endpoint)
    requires OneServiceEach(policies) && LiveIsPlaced(policies, byCluster)
    requires Enumerates(order, CleanedAll(policies, byCluster).Keys)
    requires AllPrintable(order, CleanedAll(policies, byCluster), services)
    ensures e in Endpoints(order, CleanedAll(policies, byCluster), services, vips)
       <==> exists c, s :: IsLiveEndpoint(e, byCluster, services, vips, c, s)
  {
    var cleaned := CleanedAll(policies, byCluster);
    EndpointMembers(order, cleaned, services, vips, e);
    if e in Endpoints(order, cleaned, services, vips) {
      var name :| name in order && e in PolicyEndpoints(cleaned[name], services, vips);
      PolicyEndpointMembers(cleaned[name], services, vips, e);
      var c :| c in cleaned[name].clusters && e == Endpoint(Vip(vips, c), services[cleaned[name].selectors[0]]);
      KeptIffLive(policies, byCluster, name, c);
      assert IsLiveEndpoint(e, byCluster, services, vips, c, policies[name].selectors[0]);
    }
    if c, s :| IsLiveEndpoint(e, byCluster, services, vips, c, s) {
      var name :| name in policies && Places(policies[name], s, c);
      KeptIffLive(policies, byCluster, name, c);
      assert name in cleaned && c in cleaned[name].clusters;
      PolicyEndpointMembers(cleaned[name], services, vips, e);
    }
  }

  lemma {:induction false} OneClusterKept(policy: Policy, s: string, live: string)
    requires policy == Policy([s], ["a"])
    ensures Kept(policy, map["a" := {live}]) == if s == live then ["a"] else []
  {
    var before := policy.(clusters := policy.clusters[..0]);
    assert before.clusters == [] && Kept(before, map["a" := {live}]) == [];
    assert Selects([s], {live}) <==> [s][0] == live;
  }

  /** One cluster going from three members to one loses two policies: they come back empty, and the ConfigMap cannot
      be printed. */
  lemma {:induction false} ThreeToOne(services: map<string, nat>)
    ensures var policies := map["p0" := Policy(["s0"], ["a"]), "p1" := Policy(["s1"], ["a"]), "p2" := Policy(["s2"], ["a"])];
            var cleaned := CleanedAll(policies, map["a" := {"s0"}]);
            && cleaned == map["p0" := Policy(["s0"], ["a"]), "p1" := Policy(["s1"], []), "p2" := Policy(["s2"], [])]
            && !Printable(cleaned["p1"], LiveServices(services, {"s0"}))
            && !Printable(cleaned["p2"], LiveServices(services, {"s0"}))
  {
    OneClusterKept(Policy(["s0"], ["a"]), "s0", "s0");
    OneClusterKept(Policy(["s1"], ["a"]), "s1", "s0");
    OneClusterKept(Policy(["s2"], ["a"]), "s2", "s0");
  }
}
