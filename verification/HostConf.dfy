/** The host ConfigMap: how the control plane prints endpoints as text, and how the control plane
    and the member clusters read that text back. */
module HostConf {
  import opened Outcomes
  import opened Text

  /** One replica-set host: the virtual IP of a cluster and the node port of a service. */
  datatype Endpoint = Endpoint(vip: string, port: nat)

  const QUOTE := "'"
  const MARK := "host:'"

  /** The text of an address as MongoDB knows it. */
  function Address(e: Endpoint): string {
    e.vip + ":" + Itoa(e.port)
  }

  function HostLine(e: Endpoint): string {
    MARK + Address(e) + QUOTE
  }

  function HostLines(es: seq<Endpoint>): (lines: seq<string>)
    ensures |lines| == |es|
  {
    seq(|es|, i requires 0 <= i < |es| => HostLine(es[i]))
  }

  function Addresses(es: seq<Endpoint>): (addresses: seq<string>)
    ensures |addresses| == |es|
  {
    seq(|es|, i requires 0 <= i < |es| => Address(es[i]))
  }

  function Vips(es: seq<Endpoint>): (vips: seq<string>)
    ensures |vips| == |es|
  {
    seq(|es|, i requires 0 <= i < |es| => es[i].vip)
  }

  /** fmt.Sprintf with a format and no operand. */
  function Sprintf(format: string): string {
    if format == "" then ""
    else if format[0] != '%' then [format[0]] + Sprintf(format[1..])
    else if |format| == 1 then "%!(NOVERB)"
    else if format[1] == '%' then "%" + Sprintf(format[2..])
    else "%!" + [format[1]] + "(MISSING)" + Sprintf(format[2..])
  }

  /** The value stored under one key of the host ConfigMap. */
  function PrintHosts(es: seq<Endpoint>): string {
    Sprintf(Join(HostLines(es), "\n"))
  }

  /** A virtual IP that the format can carry. Every Kubernetes label value is one. */
  predicate PlainVip(vip: string) {
    '\'' !in vip && ':' !in vip && '%' !in vip && '\n' !in vip
  }

  // ---------------------------------------------------------------- reading one line

  /** The host on one line; None where the Go code indexes past the end of the split. */
  function HostOf(line: string): Option<string> {
    var parts := Split(line, MARK);
    if |parts| < 2 then None else Some(TrimSuffix(parts[1], QUOTE))
  }

  /** The virtual IP on one line, as ClusterScaleHandler extracts it. */
  function VipOf(line: string): Option<string> {
    match HostOf(line)
    case None => None
    case Some(host) => Some(Split(host, ":")[0])
  }

  /** The hosts of a list of lines, blank lines skipped; None when a line cannot be read. */
  function HostsOf(lines: seq<string>): Option<seq<string>> {
    if lines == [] then Some([])
    else
      var last := lines[|lines| - 1];
      var before := HostsOf(lines[..|lines| - 1]);
      if before.None? || last == "" then before
      else match HostOf(last)
           case None => None
           case Some(host) => Some(before.value + [host])
  }

  /** ConfigMapToAddress: the data hosts of a member cluster's ConfigMap. */
  method ConfigMapToAddress(datas: string) returns (outcome: Outcome, addresses: seq<string>)
    ensures outcome == match HostsOf(Split(datas, "\n")) case None => Panicked case Some(_) => Done
    ensures outcome.Done? ==> Some(addresses) == HostsOf(Split(datas, "\n"))
  {
    addresses := [];
    var lines := Split(datas, "\n");
    var i := 0;
    while i < |lines|
      invariant 0 <= i <= |lines|
      invariant HostsOf(lines[..i]) == Some(addresses)
    {
      assert lines[..i + 1][..i] == lines[..i];
      if lines[i] != "" {
        match HostOf(lines[i]) {
          case None =>
            UnreadableStays(lines, i);
            return Panicked, [];
          case Some(host) =>
            addresses := addresses + [host];
        }
      }
      i := i + 1;
    }
    assert lines[..i] == lines;
    outcome := Done;
  }

  lemma {:induction false} UnreadableStays(lines: seq<string>, i: nat)
    requires i < |lines|
    requires lines[i] != "" && HostOf(lines[i]).None?
    ensures HostsOf(lines).None?
  {
    if i < |lines| - 1 {
      UnreadableStays(lines[..|lines| - 1], i);
    }
  }

  // ---------------------------------------------------------------- the round trip

  /** A format without a percent sign is printed unchanged. */
  lemma {:induction false} SprintfPlain(s: string)
    requires '%' !in s
    ensures Sprintf(s) == s
  {
    if s != "" {
      SprintfPlain(s[1..]);
      assert s == [s[0]] + s[1..];
    }
  }

  /** A line has no host exactly when the mark does not occur in it. */
  lemma {:induction false} HostOfNoneIff(line: string)
    ensures HostOf(line).None? <==> forall k: int :: !OccursAt(line, "host:'", k)
  {
  }

  lemma AddressCharacters(e: Endpoint, c: char)
    requires c !in e.vip && c != ':' && !IsDigit(c)
    ensures c !in Address(e)
  {
    NoDigit(Itoa(e.port), c);
  }

  lemma HostOfLine(e: Endpoint)
    requires PlainVip(e.vip)
    ensures HostOf(HostLine(e)) == Some(Address(e))
  {
    var body := Address(e) + QUOTE;
    AddressCharacters(e, '\'');
    assert "" + MARK + body == HostLine(e);
    SplitAt("", MARK, body);
    // The only quote of `body` is its last character, and a digit comes before it.
    forall k: int
      ensures !OccursAt(body, MARK, k)
    {
      if 0 <= k && k + 6 <= |body| {
        assert body[k..k + 6][4] == body[k + 4];
        assert body[k..k + 6][5] == body[k + 5];
        if k + 6 == |body| {
          assert body[k + 4] == Itoa(e.port)[|Itoa(e.port)| - 1];
        } else {
          assert body[k + 5] == Address(e)[k + 5];
        }
      }
    }
    assert Split(HostLine(e), MARK) == [""] + [body];
    assert body[..|body| - 1] == Address(e);
    assert body[|body| - 1..] == QUOTE;
  }

  lemma FirstColon(e: Endpoint)
    requires ':' !in e.vip
    ensures forall k :: 0 <= k < |e.vip| ==> !OccursAt(Address(e), ":", k)
    ensures Index(Address(e), ":") == Some(|e.vip|)
  {
    forall k | 0 <= k < |e.vip|
      ensures !OccursAt(Address(e), ":", k)
    {
      assert Address(e)[k] == e.vip[k];
    }
    assert Address(e)[|e.vip|..|e.vip| + 1] == ":";
    IndexIs(Address(e), ":", |e.vip|);
  }

  lemma VipOfLine(e: Endpoint)
    requires PlainVip(e.vip)
    ensures VipOf(HostLine(e)) == Some(e.vip)
  {
    HostOfLine(e);
    FirstColon(e);
    SplitAt(e.vip, ":", Itoa(e.port));
  }

  lemma LineCharacters(e: Endpoint)
    requires PlainVip(e.vip)
    ensures '\n' !in HostLine(e) && '%' !in HostLine(e) && HostLine(e) != ""
  {
    AddressCharacters(e, '\n');
    AddressCharacters(e, '%');
  }

  lemma {:induction false} JoinCharacters(parts: seq<string>, sep: string, c: char)
    requires forall i :: 0 <= i < |parts| ==> c !in parts[i]
    requires c !in sep
    ensures c !in Join(parts, sep)
  {
    if |parts| > 1 {
      JoinCharacters(parts[1..], sep, c);
    }
  }

  /** The printed text splits into exactly the printed lines. */
  lemma PrintedLines(es: seq<Endpoint>)
    requires forall e :: e in es ==> PlainVip(e.vip)
    ensures PrintHosts(es) == Join(HostLines(es), "\n")
    ensures es != [] ==> Split(PrintHosts(es), "\n") == HostLines(es)
  {
    var lines := HostLines(es);
    forall i | 0 <= i < |lines|
      ensures '\n' !in lines[i] && '%' !in lines[i]
    {
      LineCharacters(es[i]);
    }
    JoinCharacters(lines, "\n", '%');
    SprintfPlain(Join(lines, "\n"));
    if es != [] {
      SplitJoin(lines, '\n');
    }
  }

  lemma PrintedJoin(es: seq<Endpoint>)
    requires forall e :: e in es ==> PlainVip(e.vip)
    ensures PrintHosts(es) == Join(HostLines(es), "\n")
  {
    PrintedLines(es);
  }

  /** The text of the ConfigMap: one line for each host, and a line break between two of them. */
  lemma {:induction false} PrintedText(a: Endpoint, es: seq<Endpoint>)
    requires PlainVip(a.vip) && es != [] && forall e :: e in es ==> PlainVip(e.vip)
    ensures PrintHosts([]) == ""
    ensures PrintHosts([a]) == "host:'" + a.vip + ":" + Itoa(a.port) + "'"
    ensures PrintHosts([a] + es) == PrintHosts([a]) + "\n" + PrintHosts(es)
  {
    PrintedJoin([a]);
    PrintedJoin(es);
    assert forall e :: e in [a] + es ==> e == a || e in es;
    PrintedJoin([a] + es);
    assert HostLines([a]) == [HostLine(a)];
    assert HostLines([a] + es)[1..] == HostLines(es);
    assert HostLine(a) == "host:'" + a.vip + ":" + Itoa(a.port) + "'";
  }

  lemma {:induction false} HostsOfLines(es: seq<Endpoint>)
    requires forall e :: e in es ==> PlainVip(e.vip)
    ensures HostsOf(HostLines(es)) == Some(Addresses(es))
  {
    if es == [] {
    } else {
      var n := |es| - 1;
      HostsOfLines(es[..n]);
      assert HostLines(es)[..n] == HostLines(es[..n]);
      LineCharacters(es[n]);
      HostOfLine(es[n]);
      assert Addresses(es) == Addresses(es[..n]) + [Address(es[n])];
    }
  }

  /** Printing a list of endpoints and reading the text gives the same addresses in the same order. */
  lemma PrintedHostsReadBack(es: seq<Endpoint>)
    requires forall e :: e in es ==> PlainVip(e.vip)
    ensures HostsOf(Split(PrintHosts(es), "\n")) == Some(Addresses(es))
  {
    PrintedLines(es);
    if es == [] {
      assert Split("", "\n") == [""];
      assert [""][..0] == [];
      assert HostsOf([]) == Some([]);
    } else {
      HostsOfLines(es);
    }
  }

  /** Addresses with plain virtual IPs determine their endpoints. */
  lemma AddressInjective(a: Endpoint, b: Endpoint)
    requires ':' !in a.vip && ':' !in b.vip
    requires Address(a) == Address(b)
    ensures a == b
  {
    FirstColon(a);
    FirstColon(b);
    assert Address(a)[..|a.vip|] == a.vip;
    assert Address(b)[..|b.vip|] == b.vip;
    assert Address(a)[|a.vip| + 1..] == Itoa(a.port);
    assert Address(b)[|b.vip| + 1..] == Itoa(b.port);
    ItoaInjective(a.port, b.port);
  }

  // ---------------------------------------------------------------- counting lines per cluster

  /** The virtual IPs on a list of lines; None when the handler would panic. */
  function LineVips(lines: seq<string>): Option<seq<string>> {
    if lines == [] then Some([])
    else
      match (LineVips(lines[..|lines| - 1]), VipOf(lines[|lines| - 1]))
      case (Some(before), Some(vip)) => Some(before + [vip])
      case _ => None
  }

  lemma {:induction false} LineVipsOfPrinted(es: seq<Endpoint>)
    requires forall e :: e in es ==> PlainVip(e.vip)
    ensures LineVips(HostLines(es)) == Some(Vips(es))
  {
    if es == [] {
    } else {
      var n := |es| - 1;
      LineVipsOfPrinted(es[..n]);
      LinesFront(es);
      VipOfLine(es[n]);
      assert Vips(es) == Vips(es[..n]) + [es[n].vip];
    }
  }

  lemma {:induction false} LinesFront(es: seq<Endpoint>)
    requires es != []
    ensures var n := |es| - 1; HostLines(es)[..n] == HostLines(es[..n]) && HostLines(es)[n] == HostLine(es[n])
  {
  }

  lemma {:induction false} UnreadableVip(lines: seq<string>, i: nat)
    requires i < |lines| && VipOf(lines[i]).None?
    ensures LineVips(lines).None?
  {
    if i < |lines| - 1 {
      UnreadableVip(lines[..|lines| - 1], i);
    }
  }

  /** How many of the virtual IPs are the one of each cluster; clusters with none are absent. */
  function ClusterSizes(found: seq<string>, vips: map<string, string>): map<string, int> {
    map c | c in vips && multiset(found)[vips[c]] > 0 :: multiset(found)[vips[c]]
  }

  /** The first loop of ClusterScaleHandler: how many lines of the text belong to each cluster. */
  method CountHosts(datas: string, vips: map<string, string>)
    returns (outcome: Outcome, sizes: map<string, int>)
    ensures outcome == match LineVips(Split(datas, "\n")) case None => Panicked case Some(_) => Done
    ensures outcome.Done? ==> sizes == ClusterSizes(LineVips(Split(datas, "\n")).value, vips)
  {
    sizes := map[];
    var lines := Split(datas, "\n");
    ghost var found: seq<string> := [];
    var i := 0;
    while i < |lines|
      invariant 0 <= i <= |lines|
      invariant LineVips(lines[..i]) == Some(found)
      invariant sizes == ClusterSizes(found, vips)
    {
      assert lines[..i + 1][..i] == lines[..i];
      match VipOf(lines[i]) {
        case None =>
          UnreadableVip(lines, i);
          return Panicked, map[];
        case Some(addr) =>
          sizes := AddToMatching(sizes, addr, vips, found);
          found := found + [addr];
      }
      i := i + 1;
    }
    assert lines[..i] == lines;
    outcome := Done;
  }

  /** The inner loop: one more line for every cluster whose virtual IP is `addr`. */
  method AddToMatching(before: map<string, int>, addr: string, vips: map<string, string>, ghost found: seq<string>)
    returns (sizes: map<string, int>)
    requires before == ClusterSizes(found, vips)
    ensures sizes == ClusterSizes(found + [addr], vips)
  {
    sizes := before;
    var todo := vips.Keys;
    while todo != {}
      invariant todo <= vips.Keys
      invariant forall c :: c in sizes ==> c in vips
      invariant forall c :: c in todo ==> (c in sizes <==> c in before) && (c in before ==> sizes[c] == before[c])
      invariant forall c :: c in vips.Keys - todo ==>
                              (c in sizes <==> c in ClusterSizes(found + [addr], vips)) &&
                              (c in sizes ==> sizes[c] == multiset(found + [addr])[vips[c]])
      decreases todo
    {
      var cluster :| cluster in todo;
      if addr == vips[cluster] {
        sizes := sizes[cluster := (if cluster in sizes then sizes[cluster] else 0) + 1];
      }
      todo := todo - {cluster};
    }
  }
}
