/** The ids and the votes that ConfigMapToMembers gives out, for any text. */
module ReplSetLimits {
  import opened Outcomes
  import opened Text
  import opened HostConf
  import opened Membership
  import opened ReplSetRecords

  // ---------------------------------------------------------------- ids

  /** No blank line comes before a line that is kept. */
  predicate NoGap(lines: seq<string>) {
    forall i, j :: 0 <= i < j < |lines| && Kept(lines[j], j) ==> lines[i] != ""
  }

  predicate Contiguous(members: seq<Member>) {
    forall k :: 0 <= k < |members| ==> members[k].id == k
  }

  predicate AllKept(lines: seq<string>) {
    forall i :: 0 <= i < |lines| ==> Kept(lines[i], i)
  }

  lemma AllKeptStep(lines: seq<string>)
    requires lines != []
    ensures AllKept(lines) <==> AllKept(lines[..|lines| - 1]) && Kept(lines[|lines| - 1], |lines| - 1)
  {
    var n := |lines| - 1;
    forall i | 0 <= i < n
      ensures lines[..n][i] == lines[i]
    {
    }
  }

  lemma {:induction false} RecordCount(lines: seq<string>, first: nat, arbiter: bool)
    requires Records(lines, first, arbiter).Some?
    ensures |Records(lines, first, arbiter).value| <= |lines|
    ensures |Records(lines, first, arbiter).value| == |lines| <==> AllKept(lines)
  {
    if lines == [] {
    } else {
      RecordCount(lines[..|lines| - 1], first, arbiter);
      AllKeptStep(lines);
    }
  }

  /** The ids of the data members are the numbers of the kept lines, in order. */
  lemma {:induction false} DataIds(lines: seq<string>)
    requires Records(lines, 0, false).Some?
    ensures forall k :: 0 <= k < |Records(lines, 0, false).value| ==>
              var id := Records(lines, 0, false).value[k].id;
              0 <= id < |lines| && Kept(lines[id], id)
    ensures UniqueIds(Records(lines, 0, false).value)
  {
    if lines == [] {
    } else {
      DataIds(lines[..|lines| - 1]);
    }
  }

  lemma {:induction false} KeptHasId(lines: seq<string>, i: nat) returns (k: nat)
    requires Records(lines, 0, false).Some? && i < |lines| && Kept(lines[i], i)
    ensures k < |Records(lines, 0, false).value| && Records(lines, 0, false).value[k].id == i
  {
    var n := |lines| - 1;
    if i == n {
      k := |Records(lines[..n], 0, false).value|;
    } else {
      k := KeptHasId(lines[..n], i);
    }
  }

  lemma {:induction false} ContiguousDataIff(lines: seq<string>)
    requires Records(lines, 0, false).Some?
    ensures Contiguous(Records(lines, 0, false).value) <==> NoGap(lines)
  {
    if lines == [] {
    } else {
      var n := |lines| - 1;
      ContiguousDataIff(lines[..n]);
      RecordCount(lines[..n], 0, false);
      if Kept(lines[n], n) {
        var before := Records(lines[..n], 0, false).value;
        LastContiguous(before, Record(HostOf(lines[n]).value, n, |before|, false));
      }
    }
  }

  lemma LastContiguous(before: seq<Member>, m: Member)
    ensures Contiguous(before + [m]) <==> Contiguous(before) && m.id == |before|
  {
    var all := before + [m];
    assert all[|before|] == m;
    assert forall k :: 0 <= k < |before| ==> all[k] == before[k];
    if Contiguous(all) {
      assert all[|before|].id == |before|;
    }
  }

  lemma {:induction false} ArbiterIds(lines: seq<string>, first: nat)
    requires Records(lines, first, true).Some?
    ensures forall k :: 0 <= k < |Records(lines, first, true).value| ==> Records(lines, first, true).value[k].id == first + k
  {
    if lines == [] {
    } else {
      ArbiterIds(lines[..|lines| - 1], first);
    }
  }

  /** The ids are 0, 1, 2, ... over data and arbiters exactly when no blank line interrupts the data hosts. */
  lemma ContiguousIff(datas: string, arbiters: string)
    requires AllRecords(datas, arbiters).Some?
    ensures Contiguous(AllRecords(datas, arbiters).value) <==> NoGap(Split(datas, "\n"))
  {
    var data := Records(Split(datas, "\n"), 0, false).value;
    ContiguousDataIff(Split(datas, "\n"));
    ArbiterIds(Split(arbiters, "\n"), |data|);
    assert forall k :: 0 <= k < |data| ==> AllRecords(datas, arbiters).value[k] == data[k];
  }

  /** No data host stands on a line whose number an arbiter takes. */
  predicate NoClash(lines: seq<string>, first: nat, others: nat) {
    forall i :: first <= i < first + others && i < |lines| ==> !Kept(lines[i], i)
  }

  /** The ids are unique exactly when no data line carries a number the arbiters get. */
  lemma UniqueIdsIff(datas: string, arbiters: string)
    requires AllRecords(datas, arbiters).Some?
    ensures var data := Records(Split(datas, "\n"), 0, false).value;
            UniqueIds(AllRecords(datas, arbiters).value) <==>
            NoClash(Split(datas, "\n"), |data|, |AllRecords(datas, arbiters).value| - |data|)
  {
    var lines := Split(datas, "\n");
    var data := Records(lines, 0, false).value;
    var others := Records(Split(arbiters, "\n"), |data|, true).value;
    ArbiterIds(Split(arbiters, "\n"), |data|);
    if NoClash(lines, |data|, |others|) {
      NoClashIsUnique(lines, others);
    } else {
      ClashIsDouble(lines, others);
    }
  }

  lemma NoClashIsUnique(lines: seq<string>, others: seq<Member>)
    requires Records(lines, 0, false).Some?
    requires var d := |Records(lines, 0, false).value|;
             NoClash(lines, d, |others|) && forall k :: 0 <= k < |others| ==> others[k].id == d + k
    ensures UniqueIds(Records(lines, 0, false).value + others)
  {
    DataIds(lines);
  }

  lemma ClashIsDouble(lines: seq<string>, others: seq<Member>)
    requires Records(lines, 0, false).Some?
    requires var d := |Records(lines, 0, false).value|;
             !NoClash(lines, d, |others|) && forall k :: 0 <= k < |others| ==> others[k].id == d + k
    ensures !UniqueIds(Records(lines, 0, false).value + others)
  {
    var data := Records(lines, 0, false).value;
    var i :| |data| <= i < |data| + |others| && i < |lines| && Kept(lines[i], i);
    var k := KeptHasId(lines, i);
    assert (data + others)[k].id == (data + others)[i].id;
  }

  // ---------------------------------------------------------------- voters

  function Voters(members: seq<Member>): nat {
    if members == [] then 0
    else Voters(members[..|members| - 1]) + if members[|members| - 1].options.votes > 0 then 1 else 0
  }

  function NonBlank(lines: seq<string>): nat {
    if lines == [] then 0 else NonBlank(lines[..|lines| - 1]) + if lines[|lines| - 1] == "" then 0 else 1
  }

  function FirstSeven(lines: seq<string>): seq<string> {
    if |lines| <= MAX_VOTERS then lines else lines[..MAX_VOTERS]
  }

  lemma {:induction false} VotersOfSum(a: seq<Member>, b: seq<Member>)
    ensures Voters(a + b) == Voters(a) + Voters(b)
  {
    if b == [] {
      assert a + b == a;
    } else {
      VotersOfSum(a, b[..|b| - 1]);
      assert (a + b)[..|a + b| - 1] == a + b[..|b| - 1];
    }
  }

  lemma {:induction false} VotersOfLines(lines: seq<string>, first: nat, arbiter: bool)
    requires Records(lines, first, arbiter).Some?
    ensures Voters(Records(lines, first, arbiter).value) == NonBlank(FirstSeven(lines))
  {
    if lines == [] {
    } else {
      var n := |lines| - 1;
      VotersOfLines(lines[..n], first, arbiter);
      var before := Records(lines[..n], first, arbiter).value;
      assert n >= MAX_VOTERS ==> FirstSeven(lines) == FirstSeven(lines[..n]);
      if Kept(lines[n], n) {
        VotersOfSum(before, [Record(HostOf(lines[n]).value, n, first + |before|, arbiter)]);
        OneVoter(Record(HostOf(lines[n]).value, n, first + |before|, arbiter));
      }
    }
  }

  lemma OneVoter(m: Member)
    ensures Voters([m]) == if m.options.votes > 0 then 1 else 0
  {
    assert [m][..0] == [] && Voters([]) == 0;
  }

  /** The voters are the hosts on the first seven data lines and those on the first seven arbiter lines: the two
      lists do not share the seven votes MongoDB allows. */
  lemma VotersExact(datas: string, arbiters: string)
    requires AllRecords(datas, arbiters).Some?
    ensures Voters(AllRecords(datas, arbiters).value)
         == NonBlank(FirstSeven(Split(datas, "\n"))) + NonBlank(FirstSeven(Split(arbiters, "\n")))
  {
    var data := Records(Split(datas, "\n"), 0, false).value;
    VotersOfLines(Split(datas, "\n"), 0, false);
    VotersOfLines(Split(arbiters, "\n"), |data|, true);
    VotersOfSum(data, Records(Split(arbiters, "\n"), |data|, true).value);
  }

  // ---------------------------------------------------------------- settings

  /** How a member is configured: it can vote and be elected or neither, builds indexes, is not hidden and has no delay. */
  predicate Settings(m: Member, votes: bool, arbiter: bool) {
    && m.options.votes == m.options.priority == (if votes then 1 else 0) && m.options.arbiterOnly == arbiter
    && m.options.buildIndexes && !m.options.hidden && m.options.slaveDelay == 0 && m.options.tags == map[]
  }

  /** Every record comes from a kept line, names its host, and votes exactly if the line is one of the first seven. */
  lemma {:induction false} SettingsOfLine(lines: seq<string>, first: nat, arbiter: bool, k: nat) returns (i: nat)
    requires Records(lines, first, arbiter).Some? && k < |Records(lines, first, arbiter).value|
    ensures i < |lines| && i < 50 && lines[i] != "" && HostOf(lines[i]) == Some(Records(lines, first, arbiter).value[k].host)
    ensures Settings(Records(lines, first, arbiter).value[k], i < 7, arbiter)
    ensures Records(lines, first, arbiter).value[k].id == if arbiter then first + k else i
  {
    var n := |lines| - 1;
    var before := Records(lines[..n], first, arbiter).value;
    if k < |before| {
      i := SettingsOfLine(lines[..n], first, arbiter, k);
    } else {
      i := n;
    }
  }

  // ---------------------------------------------------------------- a doubled id

  lemma {:induction false} LineOf(e: Endpoint, n: nat, first: nat, arbiter: bool, before: seq<Member>)
    requires PlainVip(e.vip) && n < MAX_MEMBERS
    ensures '\n' !in HostLine(e)
    ensures Extend(Some(before), HostLine(e), n, first, arbiter)
         == Some(before + [Record(Address(e), n, first + |before|, arbiter)])
  {
    LineCharacters(e);
    HostOfLine(e);
  }

  lemma RecordsAppend(lines: seq<string>, line: string, first: nat, arbiter: bool)
    ensures Records(lines + [line], first, arbiter) == Extend(Records(lines, first, arbiter), line, |lines|, first, arbiter)
  {
    assert (lines + [line])[..|lines|] == lines;
  }

  lemma {:induction false} GappedRecords(a: Endpoint, b: Endpoint)
    requires PlainVip(a.vip) && PlainVip(b.vip)
    ensures Records([HostLine(a)] + [""] + [HostLine(b)], 0, false)
         == Some([Record(Address(a), 0, 0, false)] + [Record(Address(b), 2, 1, false)])
  {
    LineOf(a, 0, 0, false, []);
    LineOf(b, 2, 0, false, [Record(Address(a), 0, 0, false)]);
    RecordsAppend([], HostLine(a), 0, false);
    RecordsAppend([HostLine(a)], "", 0, false);
    RecordsAppend([HostLine(a)] + [""], HostLine(b), 0, false);
    assert [] + [HostLine(a)] == [HostLine(a)];
    assert [] + [Record(Address(a), 0, 0, false)] == [Record(Address(a), 0, 0, false)];
  }

  lemma {:induction false} OneRecord(c: Endpoint, first: nat)
    requires PlainVip(c.vip)
    ensures Records(Split(HostLine(c), "\n"), first, true) == Some([Record(Address(c), 0, first, true)])
  {
    LineOf(c, 0, first, true, []);
    NoOccurrence(HostLine(c), '\n');
    RecordsAppend([], HostLine(c), first, true);
    assert [] + [HostLine(c)] == [HostLine(c)];
    assert [] + [Record(Address(c), 0, first, true)] == [Record(Address(c), 0, first, true)];
  }

  lemma {:induction false} GappedText(a: Endpoint, b: Endpoint)
    requires PlainVip(a.vip) && PlainVip(b.vip)
    ensures Split(Join([HostLine(a)] + [""] + [HostLine(b)], "\n"), "\n") == [HostLine(a)] + [""] + [HostLine(b)]
  {
    LineCharacters(a);
    LineCharacters(b);
    SplitJoin([HostLine(a)] + [""] + [HostLine(b)], '\n');
  }

  /** A blank line between two data hosts gives the second one the id 2, which the arbiter gets as well. */
  lemma {:induction false} GapDoublesId(a: Endpoint, b: Endpoint, c: Endpoint)
    requires PlainVip(a.vip) && PlainVip(b.vip) && PlainVip(c.vip)
    ensures var all := AllRecords(Join([HostLine(a)] + [""] + [HostLine(b)], "\n"), HostLine(c));
            && all == Some([Record(Address(a), 0, 0, false)] + [Record(Address(b), 2, 1, false)] + [Record(Address(c), 0, 2, true)])
            && all.value[1].id == all.value[2].id == 2
  {
    GappedText(a, b);
    GappedRecords(a, b);
    OneRecord(c, 2);
  }
}
