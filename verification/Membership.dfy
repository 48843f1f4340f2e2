/** The members of a replica-set configuration: adding, checking and removing them, and what any interleaving of
    such steps by any number of clusters keeps. */
module Membership {
  import opened Outcomes

  /** What a member is configured with besides its host and id. */
  datatype Options = Options(
    priority: int,
    votes: int,
    arbiterOnly: bool,
    buildIndexes: bool,
    hidden: bool,
    slaveDelay: int,
    tags: map<string, string>)

  datatype Member = Member(host: string, id: int, options: Options)

  function Hosts(members: seq<Member>): set<string> {
    if members == [] then {} else Hosts(members[..|members| - 1]) + {members[|members| - 1].host}
  }

  lemma {:induction false} HostsExact(members: seq<Member>)
    ensures forall m :: m in members ==> m.host in Hosts(members)
    ensures forall h :: h in Hosts(members) ==> exists m :: m in members && m.host == h
  {
    if members == [] {
    } else {
      var n := |members| - 1;
      HostsExact(members[..n]);
      assert members == members[..n] + [members[n]];
    }
  }

  lemma {:induction false} HostsOfSum(a: seq<Member>, b: seq<Member>)
    ensures Hosts(a + b) == Hosts(a) + Hosts(b)
  {
    if b == [] {
      assert a + b == a;
    } else {
      var n := |b| - 1;
      HostsOfSum(a, b[..n]);
      assert (a + b)[..|a + b| - 1] == a + b[..n];
    }
  }

  lemma HostsAppend(a: seq<Member>, m: Member)
    ensures Hosts(a + [m]) == Hosts(a) + {m.host}
  {
    assert (a + [m])[..|a|] == a;
  }

  /** The Go map from host to member: a later member with the same host replaces an earlier one. */
  function ByHost(members: seq<Member>): map<string, Member> {
    if members == [] then map[]
    else
      var last := members[|members| - 1];
      ByHost(members[..|members| - 1])[last.host := last]
  }

  /** No member id exceeds `top`, and `top` is one of them or zero. */
  ghost predicate IsTop(members: seq<Member>, top: int) {
    && top >= 0
    && (forall m :: m in members ==> m.id <= top)
    && (top == 0 || exists m :: m in members && m.id == top)
  }

  /** The largest member id, zero at least. */
  function MaxId(members: seq<Member>): (r: int)
    ensures IsTop(members, r)
  {
    if members == [] then 0
    else
      var n := |members| - 1;
      assert members == members[..n] + [members[n]];
      var before := MaxId(members[..n]);
      if members[n].id > before then members[n].id else before
  }

  predicate UniqueHosts(members: seq<Member>) {
    forall i, j :: 0 <= i < j < |members| ==> members[i].host != members[j].host
  }

  predicate UniqueIds(members: seq<Member>) {
    forall i, j :: 0 <= i < j < |members| ==> members[i].id != members[j].id
  }

  /** The members of the table, each once, in the unspecified order of a Go map. */
  ghost predicate Lists(members: seq<Member>, table: map<string, Member>) {
    && UniqueHosts(members)
    && (forall m :: m in members ==> m.host in table && table[m.host] == m)
    && (forall h :: h in table ==> table[h] in members)
  }

  /** Every key of the table is the host of its member. */
  ghost predicate Keyed(table: map<string, Member>) {
    forall h :: h in table ==> table[h].host == h
  }

  method ListTable(table: map<string, Member>) returns (members: seq<Member>)
    requires Keyed(table)
    ensures Lists(members, table)
  {
    members := [];
    var todo := table.Keys;
    while todo != {}
      invariant todo <= table.Keys
      invariant UniqueHosts(members)
      invariant forall m :: m in members ==> m.host in table && m.host !in todo && table[m.host] == m
      invariant forall h :: h in table && h !in todo ==> table[h] in members
      decreases todo
    {
      var host :| host in todo;
      members, todo := members + [table[host]], todo - {host};
    }
  }

  lemma {:induction false} ByHostExact(members: seq<Member>)
    ensures Keyed(ByHost(members)) && ByHost(members).Keys == Hosts(members)
    ensures forall h :: h in ByHost(members) ==> ByHost(members)[h] in members
    ensures UniqueHosts(members) ==> Lists(members, ByHost(members))
  {
    if members == [] {
    } else {
      var n := |members| - 1;
      ByHostExact(members[..n]);
      assert members == members[..n] + [members[n]];
      HostsExact(members[..n]);
    }
  }

  /** Of several members with one host the last one counts. */
  lemma {:induction false} ByHostLast(members: seq<Member>, k: nat)
    requires k < |members| && forall j :: k < j < |members| ==> members[j].host != members[k].host
    ensures members[k].host in ByHost(members) && ByHost(members)[members[k].host] == members[k]
  {
    var n := |members| - 1;
    if k < n {
      assert members[n].host != members[k].host;
      ByHostLast(members[..n], k);
    }
  }

  // ---------------------------------------------------------------- adding

  /** A member is new when its host is neither present nor already among the new ones; it gets the next id. */
  function AddFresh(present: set<string>, before: seq<Member>, m: Member, maxId: int): seq<Member> {
    if m.host in present || m.host in Hosts(before) then before else before + [m.(id := maxId + |before| + 1)]
  }

  /** The members of `add` that are new, with the numbers after `maxId`, in order. */
  function Fresh(present: set<string>, add: seq<Member>, maxId: int): seq<Member> {
    if add == [] then []
    else AddFresh(present, Fresh(present, add[..|add| - 1], maxId), add[|add| - 1], maxId)
  }

  lemma FreshAppend(present: set<string>, add: seq<Member>, m: Member, maxId: int)
    ensures Fresh(present, add + [m], maxId) == AddFresh(present, Fresh(present, add, maxId), m, maxId)
  {
    assert (add + [m])[..|add|] == add;
  }

  /** What AddMembers makes of a configuration: the old members and the new ones. */
  function Added(src: seq<Member>, add: seq<Member>): seq<Member> {
    src + Fresh(Hosts(src), add, MaxId(src))
  }

  lemma {:induction false} FreshHosts(present: set<string>, add: seq<Member>, maxId: int)
    ensures Hosts(Fresh(present, add, maxId)) == Hosts(add) - present
  {
    if add == [] {
    } else {
      var n := |add| - 1;
      FreshHosts(present, add[..n], maxId);
      var before := Fresh(present, add[..n], maxId);
      HostsAppend(before, add[n].(id := maxId + |before| + 1));
    }
  }

  /** The fresh members get the numbers after the largest id, and none of them was present. */
  lemma {:induction false} FreshIds(present: set<string>, add: seq<Member>, maxId: int)
    ensures forall k :: 0 <= k < |Fresh(present, add, maxId)| ==>
              Fresh(present, add, maxId)[k].id == maxId + k + 1 && Fresh(present, add, maxId)[k].host !in present
  {
    if add == [] {
    } else {
      FreshIds(present, add[..|add| - 1], maxId);
    }
  }

  lemma {:induction false} FreshUnique(present: set<string>, add: seq<Member>, maxId: int)
    ensures UniqueHosts(Fresh(present, add, maxId))
  {
    if add == [] {
    } else {
      var n := |add| - 1;
      FreshUnique(present, add[..n], maxId);
      var before := Fresh(present, add[..n], maxId);
      HostsExact(before);
      forall i | 0 <= i < |before|
        ensures before[i].host in Hosts(before)
      {
        assert before[i] in before;
      }
    }
  }

  lemma ByHostAppend(a: seq<Member>, m: Member)
    ensures ByHost(a + [m]) == ByHost(a)[m.host := m]
  {
    assert (a + [m])[..|a|] == a;
  }

  lemma KnownHost(src: seq<Member>, news: seq<Member>, host: string)
    ensures host in ByHost(src + news) <==> host in Hosts(src) || host in Hosts(news)
  {
    ByHostExact(src + news);
    HostsOfSum(src, news);
  }

  lemma TableWith(src: seq<Member>, news: seq<Member>, m: Member)
    ensures ByHost(src + (news + [m])) == ByHost(src + news)[m.host := m]
  {
    ByHostAppend(src + news, m);
    assert src + news + [m] == src + (news + [m]);
  }

  /** The first loop of AddMembers and RemoveMembers. */
  method Table(src: seq<Member>) returns (table: map<string, Member>, maxMemberId: int)
    ensures table == ByHost(src) && maxMemberId == MaxId(src)
  {
    table, maxMemberId := map[], 0;
    var k := 0;
    while k < |src|
      invariant 0 <= k <= |src|
      invariant table == ByHost(src[..k]) && maxMemberId == MaxId(src[..k])
    {
      assert src[..k + 1][..k] == src[..k];
      table := table[src[k].host := src[k]];
      if src[k].id > maxMemberId {
        maxMemberId := src[k].id;
      }
      k := k + 1;
    }
    assert src[..k] == src;
  }

  /** One turn of the second loop of AddMembers. */
  lemma {:induction false} NextFresh(src: seq<Member>, news: seq<Member>, add: seq<Member>, k: nat, maxId: int)
    requires k < |add| && news == Fresh(Hosts(src), add[..k], maxId)
    ensures var m := add[k].(id := maxId + |news| + 1);
            if add[k].host in ByHost(src + news) then Fresh(Hosts(src), add[..k + 1], maxId) == news
            else Fresh(Hosts(src), add[..k + 1], maxId) == news + [m] && ByHost(src + (news + [m])) == ByHost(src + news)[m.host := m]
  {
    assert add[..k + 1] == add[..k] + [add[k]];
    FreshAppend(Hosts(src), add[..k], add[k], maxId);
    KnownHost(src, news, add[k].host);
    TableWith(src, news, add[k].(id := maxId + |news| + 1));
  }

  /** The second loop of AddMembers. */
  method AddNew(src: seq<Member>, before: map<string, Member>, add: seq<Member>, maxMemberId: int)
    returns (table: map<string, Member>, changed: bool)
    requires before == ByHost(src)
    ensures table == ByHost(src + Fresh(Hosts(src), add, maxMemberId))
    ensures changed <==> Fresh(Hosts(src), add, maxMemberId) != []
  {
    table, changed := before, false;
    ghost var present := Hosts(src);
    ghost var news: seq<Member> := [];
    assert src + news == src;
    var i := 1;
    var k := 0;
    while k < |add|
      invariant 0 <= k <= |add|
      invariant news == Fresh(present, add[..k], maxMemberId)
      invariant table == ByHost(src + news)
      invariant i == |news| + 1 && (changed <==> news != [])
    {
      NextFresh(src, news, add, k, maxMemberId);
      if add[k].host !in table {
        changed := true;
        var m := add[k].(id := maxMemberId + i);
        table := table[m.host := m];
        news := news + [m];
        i := i + 1;
      }
      k := k + 1;
    }
    assert add[..k] == add;
  }

  /** A member that was not in `src` has the id. */
  ghost predicate GivenOut(src: seq<Member>, r: seq<Member>, id: int) {
    exists m :: m in r && m.host !in Hosts(src) && m.id == id
  }

  /** `r` holds the members of `src` unchanged, and for every different new host of `add` one member; these have the ids
      that follow the largest id of `src`, each once. */
  ghost predicate GivesNextIds(src: seq<Member>, add: seq<Member>, r: seq<Member>) {
    && (forall m :: m in r && m.host in Hosts(src) <==> m in src)
    && Hosts(r) == Hosts(src) + Hosts(add)
    && forall top :: IsTop(src, top) ==> forall id :: GivenOut(src, r, id) <==> top < id <= top + |Hosts(add) - Hosts(src)|
  }

  lemma {:induction false} HostCount(members: seq<Member>)
    requires UniqueHosts(members)
    ensures |Hosts(members)| == |members|
  {
    if members == [] {
    } else {
      var n := |members| - 1;
      HostCount(members[..n]);
      HostsExact(members[..n]);
      assert members[n].host !in Hosts(members[..n]);
    }
  }

  lemma {:induction false} FreshGiveNext(src: seq<Member>, add: seq<Member>, id: int)
    ensures (exists m :: m in Fresh(Hosts(src), add, MaxId(src)) && m.id == id)
       <==> MaxId(src) < id <= MaxId(src) + |Hosts(add) - Hosts(src)|
  {
    var present, maxId := Hosts(src), MaxId(src);
    var news := Fresh(present, add, maxId);
    FreshHosts(present, add, maxId);
    FreshIds(present, add, maxId);
    FreshUnique(present, add, maxId);
    HostCount(news);
    if maxId < id <= maxId + |news| {
      assert news[id - maxId - 1] in news;
    }
  }

  /** The old and the new members in one list, each once. */
  lemma {:induction false} ListedIffAdded(src: seq<Member>, add: seq<Member>, r: seq<Member>)
    requires UniqueHosts(src) && Lists(r, ByHost(Added(src, add)))
    ensures forall m :: m in r <==> m in src || m in Fresh(Hosts(src), add, MaxId(src))
  {
    var all, news := Added(src, add), Fresh(Hosts(src), add, MaxId(src));
    FreshIds(Hosts(src), add, MaxId(src));
    FreshUnique(Hosts(src), add, MaxId(src));
    HostsExact(src);
    forall i, j | 0 <= i < j < |all|
      ensures all[i].host != all[j].host
    {
      assert i < |src| ==> src[i] in src;
    }
    ByHostExact(all);
    assert forall m :: m in all <==> m in src || m in news;
    forall m | m in all
      ensures m in r
    {
      assert ByHost(all)[m.host] == m;
    }
  }

  lemma {:induction false} SameHosts(r: seq<Member>, src: seq<Member>, news: seq<Member>)
    requires forall m :: m in r <==> m in src || m in news
    ensures Hosts(r) == Hosts(src) + Hosts(news)
  {
    HostsExact(r);
    HostsExact(src);
    HostsExact(news);
  }

  lemma {:induction false} GivenOutIsFresh(src: seq<Member>, add: seq<Member>, r: seq<Member>, id: int)
    requires UniqueHosts(src) && Lists(r, ByHost(Added(src, add)))
    ensures GivenOut(src, r, id) <==> MaxId(src) < id <= MaxId(src) + |Hosts(add) - Hosts(src)|
  {
    var news := Fresh(Hosts(src), add, MaxId(src));
    ListedIffAdded(src, add, r);
    FreshGiveNext(src, add, id);
    FreshIds(Hosts(src), add, MaxId(src));
    HostsExact(src);
    if m :| m in news && m.id == id {
      assert m in r && m.host !in Hosts(src);
    }
  }

  lemma {:induction false} OldStay(src: seq<Member>, add: seq<Member>, r: seq<Member>)
    requires UniqueHosts(src) && Lists(r, ByHost(Added(src, add)))
    ensures forall m :: m in r && m.host in Hosts(src) <==> m in src
    ensures Hosts(r) == Hosts(src) + Hosts(add)
  {
    var news := Fresh(Hosts(src), add, MaxId(src));
    ListedIffAdded(src, add, r);
    SameHosts(r, src, news);
    FreshHosts(Hosts(src), add, MaxId(src));
    HostsExact(src);
    HostsExact(news);
  }

  lemma {:induction false} AddedGivesNext(src: seq<Member>, add: seq<Member>, r: seq<Member>)
    requires UniqueHosts(src) && Lists(r, ByHost(Added(src, add)))
    ensures GivesNextIds(src, add, r)
  {
    OldStay(src, add, r);
    forall id
      ensures GivenOut(src, r, id) <==> MaxId(src) < id <= MaxId(src) + |Hosts(add) - Hosts(src)|
    {
      GivenOutIsFresh(src, add, r, id);
    }
    forall top | IsTop(src, top)
      ensures top == MaxId(src)
    {
    }
  }

  lemma {:induction false} NothingGivesNext(src: seq<Member>, add: seq<Member>)
    requires Hosts(add) <= Hosts(src)
    ensures GivesNextIds(src, add, src)
  {
    HostsExact(src);
    assert Hosts(add) - Hosts(src) == {};
  }

  /** AddMembers: the map-based loop. With unique hosts in `src`, the result lists the old members unchanged and
      the fresh ones; without a new host `src` itself is returned. */
  method AddMembers(src: seq<Member>, add: seq<Member>) returns (r: seq<Member>, changed: bool)
    ensures changed <==> !(Hosts(add) <= Hosts(src))
    ensures !changed ==> r == src
    ensures changed ==> Lists(r, ByHost(Added(src, add)))
    ensures UniqueHosts(src) ==> GivesNextIds(src, add, r)
  {
    var table, maxMemberId := Table(src);
    table, changed := AddNew(src, table, add, maxMemberId);
    FreshHosts(Hosts(src), add, maxMemberId);
    HostsExact(Fresh(Hosts(src), add, maxMemberId));
    ByHostExact(Added(src, add));
    if changed {
      assert Fresh(Hosts(src), add, maxMemberId)[0] in Fresh(Hosts(src), add, maxMemberId);
      r := ListTable(table);
      if UniqueHosts(src) {
        AddedGivesNext(src, add, r);
      }
    } else {
      assert Hosts([]) == {};
      r := src;
      NothingGivesNext(src, add);
    }
  }

  // ---------------------------------------------------------------- checking first

  function AddMissing(src: seq<Member>, before: seq<Member>, m: Member): seq<Member> {
    if m.host in Hosts(src) then before else before + [m.(id := MaxId(src) + |before| + 1)]
  }

  /** The members MemberExist reports as missing; duplicates in `add` stay in. */
  function Missing(src: seq<Member>, add: seq<Member>): seq<Member> {
    if add == [] then [] else AddMissing(src, Missing(src, add[..|add| - 1]), add[|add| - 1])
  }

  lemma MissingNothing(src: seq<Member>, add: seq<Member>)
    ensures Missing(src, add) == [] <==> Hosts(add) <= Hosts(src)
  {
    MissingHosts(src, add);
    HostsExact(Missing(src, add));
    assert Missing(src, add) != [] ==> Missing(src, add)[0] in Missing(src, add);
  }

  lemma MissingAppend(src: seq<Member>, add: seq<Member>, m: Member)
    ensures Missing(src, add + [m]) == AddMissing(src, Missing(src, add), m)
  {
    assert (add + [m])[..|add|] == add;
  }

  /** MemberExist. */
  method MemberExist(src: seq<Member>, add: seq<Member>) returns (exist: bool, missing: seq<Member>)
    ensures missing == Missing(src, add)
    ensures exist <==> Hosts(add) <= Hosts(src)
  {
    missing := [];
    if |add| == 0 {
      return true, [];
    }
    var table, maxMemberId := Table(src);
    assert table.Keys == Hosts(src) by { ByHostExact(src); }
    var k := 0;
    while k < |add|
      invariant 0 <= k <= |add|
      invariant missing == Missing(src, add[..k])
    {
      assert add[..k + 1] == add[..k] + [add[k]];
      MissingAppend(src, add[..k], add[k]);
      if add[k].host !in table {
        missing := missing + [add[k].(id := maxMemberId + |missing| + 1)];
      }
      k := k + 1;
    }
    assert add[..k] == add;
    MissingNothing(src, add);
    exist := |missing| == 0;
  }

  lemma {:induction false} MissingHosts(src: seq<Member>, add: seq<Member>)
    ensures Hosts(Missing(src, add)) == Hosts(add) - Hosts(src)
  {
    if add == [] {
    } else {
      var n := |add| - 1;
      MissingHosts(src, add[..n]);
      var before := Missing(src, add[..n]);
      HostsAppend(before, add[n].(id := MaxId(src) + |before| + 1));
    }
  }

  /** Adding what MemberExist reported gives the same configuration as adding the original list if and only if no
      host of the list was present when checked and gone when added. In particular it does when nothing was removed
      in between. */
  lemma {:induction false} CheckThenAddIff(checked: seq<Member>, current: seq<Member>, add: seq<Member>)
    ensures Added(current, Missing(checked, add)) == Added(current, add)
       <==> Hosts(add) * Hosts(checked) <= Hosts(current)
  {
    var present, maxId := Hosts(current), MaxId(current);
    var missing := Missing(checked, add);
    FreshHosts(present, add, maxId);
    FreshHosts(present, missing, maxId);
    MissingHosts(checked, add);
    var direct, later := Fresh(present, add, maxId), Fresh(present, missing, maxId);
    if Hosts(add) * Hosts(checked) <= present {
      FreshOfMissing(checked, present, add, maxId);
    } else {
      var h :| h in Hosts(add) && h in Hosts(checked) && h !in present;
      assert h in Hosts(direct) && h !in Hosts(later);
      assert Added(current, missing)[|current|..] == later;
      assert Added(current, add)[|current|..] == direct;
    }
  }

  lemma {:induction false} FreshOfMissing(checked: seq<Member>, present: set<string>, add: seq<Member>, maxId: int)
    requires Hosts(add) * Hosts(checked) <= present
    ensures Fresh(present, Missing(checked, add), maxId) == Fresh(present, add, maxId)
  {
    if add == [] {
    } else {
      var before, m := add[..|add| - 1], add[|add| - 1];
      FreshOfMissing(checked, present, before, maxId);
    }
  }

  /** What is reported as missing is numbered from the largest id on, duplicates included. */
  lemma {:induction false} MissingIds(src: seq<Member>, add: seq<Member>, top: int)
    requires IsTop(src, top)
    ensures forall k :: 0 <= k < |Missing(src, add)| ==> Missing(src, add)[k].id == top + k + 1
  {
    if add == [] {
    } else {
      MissingIds(src, add[..|add| - 1], top);
    }
  }

  /** Apart from the id, what is reported as missing is what was listed, and what is added is what was reported. */
  lemma {:induction false} MissingRecords(src: seq<Member>, add: seq<Member>)
    requires forall m :: m in add ==> m.id == 0
    ensures forall m :: m in Missing(src, add) ==> m.(id := 0) in add
  {
    if add == [] {
    } else {
      var n := |add| - 1;
      MissingRecords(src, add[..n]);
      assert add == add[..n] + [add[n]];
    }
  }

  lemma {:induction false} FreshRecords(present: set<string>, add: seq<Member>, maxId: int, records: seq<Member>)
    requires forall m :: m in add ==> m.(id := 0) in records
    ensures forall m :: m in Fresh(present, add, maxId) ==> m.(id := 0) in records
  {
    if add == [] {
    } else {
      var n := |add| - 1;
      FreshRecords(present, add[..n], maxId, records);
      assert add == add[..n] + [add[n]];
    }
  }

  // ---------------------------------------------------------------- removing

  function Without(src: seq<Member>, hosts: set<string>): map<string, Member> {
    ByHost(src) - hosts
  }

  lemma WithoutAppend(src: seq<Member>, del: seq<Member>, m: Member)
    ensures Without(src, Hosts(del + [m])) == Without(src, Hosts(del)) - {m.host}
    ensures m.host !in Without(src, Hosts(del)) ==> Without(src, Hosts(del + [m])) == Without(src, Hosts(del))
    ensures Hosts(src) * Hosts(del + [m]) == Hosts(src) * Hosts(del) + Hosts(src) * {m.host}
  {
    HostsAppend(del, m);
  }

  /** What is left are exactly the members whose host was not listed. */
  lemma {:induction false} LeftAre(src: seq<Member>, gone: set<string>, r: seq<Member>)
    requires UniqueHosts(src) && Lists(r, Without(src, gone))
    ensures forall m :: m in r <==> m in src && m.host !in gone
  {
    ByHostExact(src);
    HostsExact(src);
    forall m | m in src && m.host !in gone
      ensures m in r
    {
      assert Without(src, gone)[m.host] == m;
    }
  }

  /** RemoveMembers. */
  method RemoveMembers(src: seq<Member>, del: seq<Member>) returns (r: seq<Member>, changed: bool)
    ensures changed <==> Hosts(src) * Hosts(del) != {}
    ensures !changed ==> r == src
    ensures changed ==> Lists(r, Without(src, Hosts(del)))
    ensures UniqueHosts(src) ==> forall m :: m in r <==> m in src && m.host !in Hosts(del)
  {
    var table, _ := Table(src);
    ByHostExact(src);
    changed := false;
    var k := 0;
    while k < |del|
      invariant 0 <= k <= |del|
      invariant table == Without(src, Hosts(del[..k]))
      invariant changed <==> Hosts(src) * Hosts(del[..k]) != {}
    {
      assert del[..k + 1] == del[..k] + [del[k]];
      WithoutAppend(src, del[..k], del[k]);
      if del[k].host in table {
        changed := true;
        table := table - {del[k].host};
        assert del[k].host in Hosts(src) * Hosts(del[..k + 1]);
      } else {
        assert del[k].host in Hosts(src) ==> del[k].host in Hosts(del[..k]);
      }
      k := k + 1;
    }
    assert del[..k] == del;
    if changed {
      r := ListTable(table);
      if UniqueHosts(src) {
        LeftAre(src, Hosts(del), r);
      }
    } else {
      r := src;
      HostsExact(src);
    }
  }
}
