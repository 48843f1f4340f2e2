/** How a member cluster turns the host ConfigMap into replica-set members: all of them at once for the first
    configuration, and one at a time, found by node port, when a member joins later. */
module ReplSetRecords {
  import opened Outcomes
  import opened Text
  import opened HostConf
  import opened Membership

  const MAX_MEMBERS := 50
  const MAX_VOTERS := 7

  /** The settings of the member on a line: those on the first seven lines of either list vote. */
  function OptionsAt(line: nat, arbiter: bool): Options {
    var votes := if line < MAX_VOTERS then 1 else 0;
    Options(votes, votes, arbiter, true, false, 0, map[])
  }

  /** A line is turned into a member unless it is blank or past the fiftieth. */
  predicate Kept(line: string, i: nat) {
    line != "" && i < MAX_MEMBERS
  }

  /** The record of a line: a data member's id is the line number, an arbiter's the number of members so far. */
  function Record(host: string, line: nat, before: nat, arbiter: bool): Member {
    Member(host, if arbiter then before else line, OptionsAt(line, arbiter))
  }

  /** What line `n` adds to the members before it; None when it cannot be read. */
  function Extend(before: Option<seq<Member>>, line: string, n: nat, first: nat, arbiter: bool): Option<seq<Member>> {
    if before.None? || !Kept(line, n) then before
    else match HostOf(line)
         case None => None
         case Some(host) => Some(before.value + [Record(host, n, first + |before.value|, arbiter)])
  }

  /** The members of a list of lines, after `first` members of the other list; None when a line cannot be read. */
  function Records(lines: seq<string>, first: nat, arbiter: bool): Option<seq<Member>> {
    if lines == [] then Some([])
    else
      var n := |lines| - 1;
      Extend(Records(lines[..n], first, arbiter), lines[n], n, first, arbiter)
  }

  lemma RecordsStep(lines: seq<string>, i: nat, first: nat, arbiter: bool)
    requires i < |lines|
    ensures Records(lines[..i + 1], first, arbiter)
         == Extend(Records(lines[..i], first, arbiter), lines[i], i, first, arbiter)
  {
    assert lines[..i + 1][..i] == lines[..i];
  }

  lemma {:induction false} FailureStays(lines: seq<string>, i: nat, first: nat, arbiter: bool)
    requires i <= |lines| && Records(lines[..i], first, arbiter).None?
    ensures Records(lines, first, arbiter).None?
    decreases |lines|
  {
    if i == |lines| {
      assert lines[..i] == lines;
    } else {
      assert lines[..|lines| - 1][..i] == lines[..i];
      FailureStays(lines[..|lines| - 1], i, first, arbiter);
    }
  }

  /** A line past the fiftieth adds nothing, so stopping there loses nothing. */
  lemma {:induction false} RestIsDropped(lines: seq<string>, i: nat, first: nat, arbiter: bool)
    requires MAX_MEMBERS <= i <= |lines|
    ensures Records(lines, first, arbiter) == Records(lines[..i], first, arbiter)
    decreases |lines|
  {
    if i == |lines| {
      assert lines[..i] == lines;
    } else {
      assert lines[..|lines| - 1][..i] == lines[..i];
      RestIsDropped(lines[..|lines| - 1], i, first, arbiter);
    }
  }

  /** One of the two loops of ConfigMapToMembers, appending to the members found so far. */
  method AppendRecords(before: seq<Member>, text: string, arbiter: bool) returns (outcome: Outcome, members: seq<Member>)
    ensures outcome == if Records(Split(text, "\n"), |before|, arbiter).Some? then Done else Panicked
    ensures outcome.Done? ==> members == before + Records(Split(text, "\n"), |before|, arbiter).value
  {
    members := before;
    var lines := Split(text, "\n");
    ghost var found: seq<Member> := [];
    var i := 0;
    while i < |lines|
      invariant 0 <= i <= |lines|
      invariant Records(lines[..i], |before|, arbiter) == Some(found)
      invariant members == before + found
    {
      RecordsStep(lines, i, |before|, arbiter);
      if lines[i] != "" {
        if i > MAX_MEMBERS - 1 {
          RestIsDropped(lines, i, |before|, arbiter);
          return Done, members;
        }
        match HostOf(lines[i]) {
          case None =>
            FailureStays(lines, i + 1, |before|, arbiter);
            return Panicked, [];
          case Some(host) =>
            var member := Member(host, if arbiter then |members| else i, OptionsAt(i, arbiter));
            members := members + [member];
            found := found + [member];
        }
      }
      i := i + 1;
    }
    assert lines[..i] == lines;
    outcome := Done;
  }

  /** The members of a ConfigMap: the data hosts, then the arbiters. */
  function AllRecords(datas: string, arbiters: string): Option<seq<Member>> {
    match Records(Split(datas, "\n"), 0, false)
    case None => None
    case Some(data) =>
      match Records(Split(arbiters, "\n"), |data|, true)
      case None => None
      case Some(others) => Some(data + others)
  }

  method ConfigMapToMembers(datas: string, arbiters: string) returns (outcome: Outcome, members: seq<Member>)
    ensures outcome == if AllRecords(datas, arbiters).Some? then Done else Panicked
    ensures outcome.Done? ==> Some(members) == AllRecords(datas, arbiters)
  {
    outcome, members := AppendRecords([], datas, false);
    if outcome.Panicked? {
      return;
    }
    ghost var data := Records(Split(datas, "\n"), 0, false).value;
    assert members == data;
    if arbiters == "" {
      NoLines(arbiters, |members|, true);
      assert AllRecords(datas, arbiters).value == members;
      return;
    }
    outcome, members := AppendRecords(members, arbiters, true);
  }

  lemma NoLines(text: string, first: nat, arbiter: bool)
    requires text == ""
    ensures Records(Split(text, "\n"), first, arbiter) == Some([])
  {
    assert Split("", "\n") == [""];
    RecordsStep([""], 0, first, arbiter);
    assert [""][..0] == [] && [""][..1] == [""];
  }
}
