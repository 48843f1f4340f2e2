/** From the printer of the control plane to the first configuration of the replica set. */
module FirstConfig {
  import opened Outcomes
  import opened Text
  import opened HostConf
  import opened Membership
  import opened ReplSetRecords
  import opened ReplSetLimits
  import SharedConfig

  function Min(a: nat, b: nat): nat {
    if a < b then a else b
  }

  /** The records of printed endpoints. */
  function Expected(es: seq<Endpoint>, first: nat, arbiter: bool): (r: seq<Member>)
    ensures |r| == Min(|es|, MAX_MEMBERS)
  {
    seq(Min(|es|, MAX_MEMBERS), i requires 0 <= i < |es| => Record(Address(es[i]), i, first + i, arbiter))
  }

  lemma {:induction false} RecordsOfPrinted(es: seq<Endpoint>, first: nat, arbiter: bool)
    requires forall e :: e in es ==> PlainVip(e.vip)
    ensures Records(HostLines(es), first, arbiter) == Some(Expected(es, first, arbiter))
  {
    if es == [] {
      assert HostLines(es) == [] && Expected(es, first, arbiter) == [];
      assert Records([], first, arbiter) == Some([]);
    } else {
      var n := |es| - 1;
      RecordsOfPrinted(es[..n], first, arbiter);
      LinesFront(es);
      LineRead(es[n], n, first, arbiter, Expected(es[..n], first, arbiter));
      ExpectedStep(es, first, arbiter);
    }
  }

  lemma LineRead(e: Endpoint, n: nat, first: nat, arbiter: bool, before: seq<Member>)
    requires PlainVip(e.vip)
    ensures Extend(Some(before), HostLine(e), n, first, arbiter)
         == Some(before + if n < MAX_MEMBERS then [Record(Address(e), n, first + |before|, arbiter)] else [])
  {
    LineCharacters(e);
    HostOfLine(e);
    assert before + [] == before;
  }

  lemma ExpectedStep(es: seq<Endpoint>, first: nat, arbiter: bool)
    requires es != []
    ensures var n := |es| - 1;
            Expected(es, first, arbiter) ==
            if n < MAX_MEMBERS then Expected(es[..n], first, arbiter) + [Record(Address(es[n]), n, first + n, arbiter)]
            else Expected(es[..n], first, arbiter)
  {
  }

  lemma RecordsOfText(es: seq<Endpoint>, first: nat, arbiter: bool)
    requires forall e :: e in es ==> PlainVip(e.vip)
    ensures Records(Split(PrintHosts(es), "\n"), first, arbiter) == Some(Expected(es, first, arbiter))
  {
    PrintedLines(es);
    if es == [] {
      NoLines(PrintHosts(es), first, arbiter);
    } else {
      RecordsOfPrinted(es, first, arbiter);
    }
  }

  lemma {:induction false} VotersOfExpected(es: seq<Endpoint>, first: nat, arbiter: bool)
    ensures Voters(Expected(es, first, arbiter)) == Min(|es|, MAX_VOTERS)
  {
    if es == [] {
      assert Expected(es, first, arbiter) == [];
    } else {
      var n := |es| - 1;
      VotersOfExpected(es[..n], first, arbiter);
      ExpectedStep(es, first, arbiter);
      if n < MAX_MEMBERS {
        VotersOfSum(Expected(es[..n], first, arbiter), [Record(Address(es[n]), n, first + n, arbiter)]);
        OneVoter(Record(Address(es[n]), n, first + n, arbiter));
      }
    }
  }

  predicate NoRepeat(es: seq<Endpoint>) {
    forall i, j :: 0 <= i < j < |es| ==> es[i] != es[j]
  }

  /** Where the endpoint of a record stands in the two lists taken together. */
  function Origin(k: nat, data: nat, d: nat): nat {
    if k < d then k else data + (k - d)
  }

  lemma ExpectedHost(es: seq<Endpoint>, arbiters: seq<Endpoint>, k: nat)
    requires k < Min(|es|, MAX_MEMBERS) + Min(|arbiters|, MAX_MEMBERS)
    ensures var d := Min(|es|, MAX_MEMBERS);
            && Origin(k, |es|, d) < |es + arbiters|
            && (Expected(es, 0, false) + Expected(arbiters, d, true))[k].host == Address((es + arbiters)[Origin(k, |es|, d)])
  {
  }

  lemma DistinctExpected(es: seq<Endpoint>, arbiters: seq<Endpoint>)
    requires forall e :: e in es + arbiters ==> PlainVip(e.vip)
    requires NoRepeat(es + arbiters)
    ensures UniqueHosts(Expected(es, 0, false) + Expected(arbiters, Min(|es|, MAX_MEMBERS), true))
  {
    var d, both := Min(|es|, MAX_MEMBERS), es + arbiters;
    var all := Expected(es, 0, false) + Expected(arbiters, d, true);
    forall i, j | 0 <= i < j < |all|
      ensures all[i].host != all[j].host
    {
      ExpectedHost(es, arbiters, i);
      ExpectedHost(es, arbiters, j);
      DistinctAddresses(both, Origin(i, |es|, d), Origin(j, |es|, d));
    }
  }

  lemma DistinctAddresses(es: seq<Endpoint>, x: nat, y: nat)
    requires forall e :: e in es ==> PlainVip(e.vip)
    requires NoRepeat(es) && x < y < |es|
    ensures Address(es[x]) != Address(es[y])
  {
    if Address(es[x]) == Address(es[y]) {
      AddressInjective(es[x], es[y]);
    }
  }

  lemma PlainParts(es: seq<Endpoint>, arbiters: seq<Endpoint>)
    requires forall e :: e in es + arbiters ==> PlainVip(e.vip)
    ensures forall e :: e in es ==> PlainVip(e.vip)
    ensures forall e :: e in arbiters ==> PlainVip(e.vip)
  {
    assert forall e :: e in es ==> e in es + arbiters;
    assert forall e :: e in arbiters ==> e in es + arbiters;
  }

  /** What the control plane prints gives a sound first configuration: the first fifty data hosts and the first fifty
      arbiters, in order, with the ids 0, 1, 2, ... */
  lemma {:induction false} PrintedRecords(es: seq<Endpoint>, arbiters: seq<Endpoint>, version: int)
    requires forall e :: e in es + arbiters ==> PlainVip(e.vip)
    requires NoRepeat(es + arbiters)
    ensures var all := Expected(es, 0, false) + Expected(arbiters, Min(|es|, MAX_MEMBERS), true);
            && AllRecords(PrintHosts(es), PrintHosts(arbiters)) == Some(all)
            && Contiguous(all)
            && SharedConfig.Sound(SharedConfig.Conf(all, version))
  {
    PlainParts(es, arbiters);
    RecordsOfText(es, 0, false);
    RecordsOfText(arbiters, Min(|es|, MAX_MEMBERS), true);
    DistinctExpected(es, arbiters);
    ExpectedIds(es, arbiters);
  }

  lemma ExpectedIds(es: seq<Endpoint>, arbiters: seq<Endpoint>)
    ensures Contiguous(Expected(es, 0, false) + Expected(arbiters, Min(|es|, MAX_MEMBERS), true))
  {
  }

  /** How many members and voters a printed configuration has. */
  lemma PrintedSizes(es: seq<Endpoint>, arbiters: seq<Endpoint>)
    requires forall e :: e in es + arbiters ==> PlainVip(e.vip)
    ensures var all := AllRecords(PrintHosts(es), PrintHosts(arbiters));
            && all.Some?
            && Voters(all.value) == Min(|es|, MAX_VOTERS) + Min(|arbiters|, MAX_VOTERS)
            && |all.value| == Min(|es|, MAX_MEMBERS) + Min(|arbiters|, MAX_MEMBERS)
  {
    PlainParts(es, arbiters);
    var d := Min(|es|, MAX_MEMBERS);
    RecordsOfText(es, 0, false);
    RecordsOfText(arbiters, d, true);
    VotersOfExpected(es, 0, false);
    VotersOfExpected(arbiters, d, true);
    VotersOfSum(Expected(es, 0, false), Expected(arbiters, d, true));
  }

  /** The voters of a printed configuration, and when MongoDB's limits hold: seven votes are exceeded exactly when the
      data hosts and the arbiters, each capped at seven, add up to more; fifty members likewise. */
  lemma PrintedLimitsIff(es: seq<Endpoint>, arbiters: seq<Endpoint>)
    requires forall e :: e in es + arbiters ==> PlainVip(e.vip)
    ensures var all := AllRecords(PrintHosts(es), PrintHosts(arbiters));
            && all.Some?
            && (Voters(all.value) <= MAX_VOTERS <==> Min(|es|, MAX_VOTERS) + Min(|arbiters|, MAX_VOTERS) <= MAX_VOTERS)
            && (|all.value| <= MAX_MEMBERS <==> Min(|es|, MAX_MEMBERS) + Min(|arbiters|, MAX_MEMBERS) <= MAX_MEMBERS)
  {
    PrintedSizes(es, arbiters);
  }

  /** The fifty-first printed data host is left out. */
  lemma {:induction false} FiftyMembers(vip: string, port: nat)
    requires PlainVip(vip)
    ensures var es := seq(51, i requires 0 <= i < 51 => Endpoint(vip, port + i));
            var all := AllRecords(PrintHosts(es), PrintHosts([]));
            all.Some? && |all.value| == 50 && Voters(all.value) == 7
  {
    var es := seq(51, i requires 0 <= i < 51 => Endpoint(vip, port + i));
    PrintedSizes(es, []);
  }

  /** Seven data hosts and one arbiter, at the ports from `port` on, are printed as eight voters. */
  lemma {:induction false} EightVoters(vip: string, port: nat)
    requires PlainVip(vip)
    ensures var es := seq(7, i requires 0 <= i < 7 => Endpoint(vip, port + i));
            var all := AllRecords(PrintHosts(es), PrintHosts([Endpoint(vip, port + 7)]));
            NoRepeat(es + [Endpoint(vip, port + 7)]) && all.Some? && Voters(all.value) == 8 > MAX_VOTERS
  {
    var es := seq(7, i requires 0 <= i < 7 => Endpoint(vip, port + i));
    PrintedSizes(es, [Endpoint(vip, port + 7)]);
  }
}
