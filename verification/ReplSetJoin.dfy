/** How a cluster finds the record of one of its own members, and that it is the record of the first configuration. */
module ReplSetJoin {
  import opened Outcomes
  import opened Text
  import opened HostConf
  import opened Membership
  import opened ReplSetRecords

  datatype Search = NotYet | Found(member: Member) | Broken

  function Look(before: Search, line: string, n: nat, host: string, arbiter: bool): Search {
    if before != NotYet || !Kept(line, n) then before
    else match HostOf(line)
         case None => Broken
         case Some(h) => if h == host then Found(Member(h, 0, OptionsAt(n, arbiter))) else NotYet
  }

  /** The first line with the host, unless an unreadable line comes before it. The id is left at zero. */
  function Scan(lines: seq<string>, host: string, arbiter: bool): Search {
    if lines == [] then NotYet
    else
      var n := |lines| - 1;
      Look(Scan(lines[..n], host, arbiter), lines[n], n, host, arbiter)
  }

  lemma ScanStep(lines: seq<string>, i: nat, host: string, arbiter: bool)
    requires i < |lines|
    ensures Scan(lines[..i + 1], host, arbiter) == Look(Scan(lines[..i], host, arbiter), lines[i], i, host, arbiter)
  {
    assert lines[..i + 1][..i] == lines[..i];
  }

  lemma {:induction false} ScanStays(lines: seq<string>, i: nat, host: string, arbiter: bool)
    requires i <= |lines| && (Scan(lines[..i], host, arbiter) != NotYet || i >= MAX_MEMBERS)
    ensures Scan(lines, host, arbiter) == Scan(lines[..i], host, arbiter)
    decreases |lines|
  {
    if i == |lines| {
      assert lines[..i] == lines;
    } else {
      assert lines[..|lines| - 1][..i] == lines[..i];
      ScanStays(lines[..|lines| - 1], i, host, arbiter);
    }
  }

  lemma ScanDecides(lines: seq<string>, i: nat, host: string, arbiter: bool)
    requires i < |lines| && Scan(lines[..i], host, arbiter) == NotYet
    ensures var r := Look(NotYet, lines[i], i, host, arbiter);
            if r == NotYet then Scan(lines[..i + 1], host, arbiter) == NotYet else Scan(lines, host, arbiter) == r
    ensures i >= MAX_MEMBERS ==> Scan(lines, host, arbiter) == NotYet
  {
    ScanStep(lines, i, host, arbiter);
    if i >= MAX_MEMBERS {
      ScanStays(lines, i, host, arbiter);
    }
    if Scan(lines[..i + 1], host, arbiter) != NotYet {
      ScanStays(lines, i + 1, host, arbiter);
    }
  }

  /** One of the two loops of ConfigMapToMembersByNodePort. */
  method FindRecord(text: string, myHost: string, arbiter: bool) returns (r: Search)
    ensures r == Scan(Split(text, "\n"), myHost, arbiter)
  {
    var lines := Split(text, "\n");
    var i := 0;
    while i < |lines|
      invariant 0 <= i <= |lines|
      invariant Scan(lines[..i], myHost, arbiter) == NotYet
    {
      ScanDecides(lines, i, myHost, arbiter);
      if lines[i] != "" {
        if i > MAX_MEMBERS - 1 {
          return NotYet;
        }
        match HostOf(lines[i]) {
          case None =>
            return Broken;
          case Some(host) =>
            if host == myHost {
              return Found(Member(host, 0, OptionsAt(i, arbiter)));
            }
        }
      }
      i := i + 1;
    }
    assert lines[..i] == lines;
    r := NotYet;
  }

  function Listed(r: Search): seq<Member> {
    if r.Found? then [r.member] else []
  }

  /** The members a cluster asks to add for one of its pods; None for a panic. */
  function RecordsOf(datas: string, arbiters: string, specArbiter: bool, myHost: string): Option<seq<Member>> {
    var data := Scan(Split(datas, "\n"), myHost, false);
    if data == Broken then None
    else if !specArbiter then Some(Listed(data))
    else
      var other := Scan(Split(arbiters, "\n"), myHost, true);
      if other == Broken then None else Some(Listed(data) + Listed(other))
  }

  lemma {:induction false} ScanHost(lines: seq<string>, host: string, arbiter: bool)
    ensures Scan(lines, host, arbiter).Found? ==>
              Scan(lines, host, arbiter).member.host == host && Scan(lines, host, arbiter).member.id == 0
  {
    if lines == [] {
    } else {
      ScanHost(lines[..|lines| - 1], host, arbiter);
    }
  }

  /** Whatever the text, only the host that was asked for is found. */
  lemma RecordsHost(datas: string, arbiters: string, specArbiter: bool, host: string)
    ensures var found := RecordsOf(datas, arbiters, specArbiter, host);
            found.Some? ==> Hosts(found.value) == (if found.value == [] then {} else {host}) && forall m :: m in found.value ==> m.id == 0
  {
    var a, b := Scan(Split(datas, "\n"), host, false), Scan(Split(arbiters, "\n"), host, true);
    ScanHost(Split(datas, "\n"), host, false);
    ScanHost(Split(arbiters, "\n"), host, true);
    ListedHost(a, host);
    ListedHost(b, host);
    HostsOfSum(Listed(a), Listed(b));
  }

  lemma ListedHost(r: Search, host: string)
    requires r.Found? ==> r.member.host == host
    ensures Hosts(Listed(r)) == if r.Found? then {host} else {}
  {
    if r.Found? {
      assert [r.member][..0] == [];
    }
  }

  method ConfigMapToMembersByNodePort(datas: string, arbiters: string, specArbiter: bool, vip: string, nodePort: nat)
    returns (outcome: Outcome, members: seq<Member>)
    ensures outcome == if RecordsOf(datas, arbiters, specArbiter, Address(Endpoint(vip, nodePort))).Some? then Done else Panicked
    ensures outcome.Done? ==> Some(members) == RecordsOf(datas, arbiters, specArbiter, Address(Endpoint(vip, nodePort)))
  {
    var myHost := vip + ":" + Itoa(nodePort);
    var found := FindRecord(datas, myHost, false);
    members := Listed(found);
    if found == Broken {
      return Panicked, [];
    }
    if !specArbiter {
      return Done, members;
    }
    if arbiters == "" {
      NoneThere(arbiters, myHost);
      assert members + [] == members;
      return Done, members;
    }
    found := FindRecord(arbiters, myHost, true);
    if found == Broken {
      return Panicked, [];
    }
    outcome, members := Done, members + Listed(found);
  }

  lemma NoneThere(text: string, host: string)
    requires text == ""
    ensures Scan(Split(text, "\n"), host, true) == NotYet
  {
    assert Split("", "\n") == [""];
    ScanStep([""], 0, host, true);
    assert [""][..0] == [] && [""][..1] == [""];
  }

  /** A search result is the only record with that host, up to its id. */
  ghost predicate Agrees(r: Search, records: seq<Member>, host: string) {
    match r
    case Broken => false
    case NotYet => forall m :: m in records ==> m.host != host
    case Found(found) => forall m :: m in records && m.host == host ==> m.(id := 0) == found
  }

  lemma {:induction false} ScanAgrees(lines: seq<string>, first: nat, arbiter: bool, host: string)
    requires Records(lines, first, arbiter).Some? && UniqueHosts(Records(lines, first, arbiter).value)
    ensures Agrees(Scan(lines, host, arbiter), Records(lines, first, arbiter).value, host)
    ensures Scan(lines, host, arbiter).Found? ==> host in Hosts(Records(lines, first, arbiter).value)
  {
    if lines == [] {
    } else {
      var n := |lines| - 1;
      var before := Records(lines[..n], first, arbiter).value;
      if !Kept(lines[n], n) {
        ScanAgrees(lines[..n], first, arbiter, host);
      } else {
        var m := Record(HostOf(lines[n]).value, n, first + |before|, arbiter);
        UniqueParts(before, [m]);
        ScanAgrees(lines[..n], first, arbiter, host);
        AgreesStep(Scan(lines[..n], host, arbiter), before, m, n, arbiter, host);
      }
    }
  }

  lemma AgreesStep(r: Search, before: seq<Member>, m: Member, n: nat, arbiter: bool, host: string)
    requires Agrees(r, before, host) && UniqueHosts(before + [m]) && m.(id := 0) == Member(m.host, 0, OptionsAt(n, arbiter))
    requires r.Found? ==> host in Hosts(before)
    ensures var next := if r == NotYet && m.host == host then Found(Member(m.host, 0, OptionsAt(n, arbiter))) else r;
            Agrees(next, before + [m], host) && (next.Found? ==> host in Hosts(before + [m]))
  {
    HostsExact(before);
    HostsAppend(before, m);
    forall x | x in before
      ensures x.host != m.host
    {
      var k :| 0 <= k < |before| && before[k] == x;
      assert (before + [m])[k].host != (before + [m])[|before|].host;
    }
  }

  lemma {:induction false} RecordKind(lines: seq<string>, first: nat, arbiter: bool)
    requires Records(lines, first, arbiter).Some?
    ensures forall m :: m in Records(lines, first, arbiter).value ==> m.options.arbiterOnly == arbiter
  {
    if lines == [] {
    } else {
      RecordKind(lines[..|lines| - 1], first, arbiter);
    }
  }

  lemma UniqueParts(a: seq<Member>, b: seq<Member>)
    requires UniqueHosts(a + b)
    ensures UniqueHosts(a) && UniqueHosts(b)
    ensures Hosts(a) * Hosts(b) == {}
  {
    assert forall k :: 0 <= k < |a| ==> (a + b)[k] == a[k];
    assert forall k :: 0 <= k < |b| ==> (a + b)[|a| + k] == b[k];
    HostsExact(a);
    HostsExact(b);
  }

  lemma Hit(r: Search, records: seq<Member>, m: Member)
    requires Agrees(r, records, m.host) && m in records
    ensures Listed(r) == [m.(id := 0)] && m.host in Hosts(records)
  {
    HostsExact(records);
  }

  lemma OneOfTwo(a: Search, b: Search, data: seq<Member>, others: seq<Member>, m: Member)
    requires UniqueHosts(data + others) && Agrees(a, data, m.host) && Agrees(b, others, m.host)
    requires a.Found? ==> m.host in Hosts(data)
    requires b.Found? ==> m.host in Hosts(others)
    requires m in data + others
    ensures if m in data then Listed(a) == [m.(id := 0)] && Listed(b) == []
            else Listed(a) == [] && Listed(b) == [m.(id := 0)]
  {
    UniqueParts(data, others);
    if m in data {
      Hit(a, data, m);
    } else {
      Hit(b, others, m);
    }
  }

  /** The incremental record agrees with the initial one: for a ConfigMap with distinct hosts, a cluster that asks for
      the host of one of its node ports gets the member of the first configuration, up to its id; an arbiter only if
      it runs one; and nothing for a host that is not there. */
  lemma IncrementalAgrees(datas: string, arbiters: string, specArbiter: bool, host: string)
    requires AllRecords(datas, arbiters).Some? && UniqueHosts(AllRecords(datas, arbiters).value)
    ensures var mine := RecordsOf(datas, arbiters, specArbiter, host);
            && mine.Some?
            && (forall m :: m in AllRecords(datas, arbiters).value && m.host == host ==>
                              mine.value == if specArbiter || !m.options.arbiterOnly then [m.(id := 0)] else [])
            && (host !in Hosts(AllRecords(datas, arbiters).value) ==> mine.value == [])
  {
    var data := Records(Split(datas, "\n"), 0, false).value;
    var others := Records(Split(arbiters, "\n"), |data|, true).value;
    UniqueParts(data, others);
    var a, b := Scan(Split(datas, "\n"), host, false), Scan(Split(arbiters, "\n"), host, true);
    ScanAgrees(Split(datas, "\n"), 0, false, host);
    ScanAgrees(Split(arbiters, "\n"), |data|, true, host);
    RecordKind(Split(datas, "\n"), 0, false);
    RecordKind(Split(arbiters, "\n"), |data|, true);
    HostsOfSum(data, others);
    forall m: Member | m in data + others && m.host == host
      ensures Listed(a) == if m.options.arbiterOnly then [] else [m.(id := 0)]
      ensures Listed(b) == if m.options.arbiterOnly then [m.(id := 0)] else []
    {
      OneOfTwo(a, b, data, others, m);
    }
  }
}
