/** A concrete state from which a scale-down runs: one cluster that goes from two members to one. */
module ShrinkStart {
  import opened Outcomes
  import opened Text
  import opened HostConf
  import opened Placement
  import opened Cleaner
  import opened Convergence
  import opened ScaleDown
  import opened Federation
  import opened Settling
  import opened ShrinkRuns

  const POLICIES := map["p0" := Policy(["s0"], ["a"]), "p1" := Policy(["s1"], ["a"])]
  const SERVICES := map["s0" := 30000, "s1" := 30001]
  const TARGETS := [Quota("a", 1, false)]

  function Printed(vip: string): seq<Endpoint> {
    [Endpoint(vip, 30000)] + [Endpoint(vip, 30001)]
  }

  /** The cluster reports one member, at the first service. */
  function Report(vip: string): seq<Topology> {
    [Topology("a", 1, map[Address(Endpoint(vip, 30000)) := "PRIMARY"])]
  }

  lemma {:induction false} FirstPrinted(vips: map<string, string>)
    ensures AllPrintable(["p0"], POLICIES, SERVICES)
    ensures Endpoints(["p0"], POLICIES, SERVICES, vips) == [Endpoint(Vip(vips, "a"), 30000)]
  {
    assert ["p0"][..0] == [];
    assert PolicyEndpoints(POLICIES["p0"], SERVICES, vips) == [Endpoint(Vip(vips, "a"), 30000)];
  }

  lemma {:induction false} BothPrinted(vips: map<string, string>)
    ensures AllPrintable(["p0", "p1"], POLICIES, SERVICES)
    ensures Endpoints(["p0", "p1"], POLICIES, SERVICES, vips) == Printed(Vip(vips, "a"))
  {
    FirstPrinted(vips);
    assert ["p0", "p1"][..1] == ["p0"];
    assert PolicyEndpoints(POLICIES["p1"], SERVICES, vips) == [Endpoint(Vip(vips, "a"), 30001)];
  }

  lemma {:induction false} TwoShown(vip: string)
    requires PlainVip(vip)
    ensures var read := ReadSizes(Some(PrintHosts(Printed(vip))), map["a" := vip]);
            read.Some? && read.value.Some? && SizeOf(read.value.value, "a") == 2
  {
    BothPrinted(map["a" := vip]);
    assert WellPlaced(POLICIES, map["a" := vip]);
    ReadBack(PrintHosts(Printed(vip)), ["p0", "p1"], POLICIES, SERVICES, map["a" := vip]);
    assert PoliciesNaming(POLICIES, "a") == {"p0", "p1"};
  }

  lemma {:induction false} OneShrinks(sizes: map<string, int>)
    requires SizeOf(sizes, "a") == 2
    ensures DownTargets(TARGETS, Some(sizes)) == map["a" := 1]
  {
    assert TARGETS[..0] == [] && DownTargets([], Some(sizes)) == map[];
  }

  lemma {:induction false} OneReported(vip: string)
    ensures MeetsTargets(Report(vip), TARGETS)
    ensures Reports(Report(vip), SERVICES, POLICIES, map["a" := vip])
  {
    var kept, result := Address(Endpoint(vip, 30000)), Report(vip);
    assert result[0] in result && DataAddresses(result[0]) == {kept};
    assert ReportedBy(result, "a") == {kept};
    assert IsServiceAddress(kept, SERVICES, map["a" := vip], "a", "s0") && Places(POLICIES["p0"], "s0", "a");
  }

  lemma {:induction false} OneDue(vip: string)
    requires PlainVip(vip)
    ensures Due(TARGETS, map["a" := vip], Report(vip), Some(PrintHosts(Printed(vip))))
  {
    TwoShown(vip);
    var read := ReadSizes(Some(PrintHosts(Printed(vip))), map["a" := vip]);
    OneShrinks(read.value.value);
    assert ReadyToShrink(Report(vip), map["a" := 1]);
  }

  lemma {:induction false} DistinctPorts()
    ensures GoodPorts(SERVICES)
  {
    assert SERVICES["s0"] == 30000 && SERVICES["s1"] == 30001;
  }

  lemma {:induction false} DistinctServices()
    ensures OneServiceEach(POLICIES)
  {
    assert POLICIES["p0"].selectors[0] == "s0" && POLICIES["p1"].selectors[0] == "s1";
  }

  lemma {:induction false} OneShrinkable(vip: string)
    requires PlainVip(vip)
    ensures Shrinkable(Report(vip), map["a" := vip], SERVICES, POLICIES)
  {
    OneReported(vip);
    DistinctPorts();
    DistinctServices();
  }

  /** The scale-down of one cluster from two members to one may start, is due, and meets its targets. */
  lemma {:induction false} TwoToOne(vip: string)
    requires PlainVip(vip)
    ensures DistinctClusters(TARGETS) && GoodVips(map["a" := vip]) && MeetsTargets(Report(vip), TARGETS)
    ensures Shrinkable(Report(vip), map["a" := vip], SERVICES, POLICIES)
    ensures Due(TARGETS, map["a" := vip], Report(vip), Some(PrintHosts(Printed(vip))))
  {
    OneReported(vip);
    OneShrinkable(vip);
    OneDue(vip);
  }

  lemma {:induction false} FirstLive(vip: string)
    requires PlainVip(vip)
    ensures LiveTable(Report(vip), SERVICES, map["a" := vip]) == map["a" := {"s0"}]
  {
    var result, vips, kept := Report(vip), map["a" := vip], Address(Endpoint(vip, 30000));
    assert result[0] in result && DataAddresses(result[0]) == {kept};
    assert IsServiceAddress(kept, SERVICES, vips, "a", "s0") && LiveAt(result, SERVICES, vips, "a", "s0");
    if LiveAt(result, SERVICES, vips, "a", "s1") {
      AddressInjective(Endpoint(vip, 30000), Endpoint(vip, 30001));
    }
    var live := set s | s in SERVICES && LiveAt(result, SERVICES, vips, "a", s);
    assert live == {"s0"};
  }

  /** Its second policy loses its only cluster: one pass may end without success although no call fails. */
  lemma {:induction false} OneLost(vip: string)
    requires PlainVip(vip)
    ensures LostSet(POLICIES, LiveTable(Report(vip), SERVICES, map["a" := vip])) == {"p1"}
  {
    FirstLive(vip);
    OneClusterKept(POLICIES["p0"], "s0", "s0");
    OneClusterKept(POLICIES["p1"], "s1", "s0");
  }
}
