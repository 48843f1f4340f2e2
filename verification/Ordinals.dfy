/** The ordinal in a pod's name: the regular expression (.*)-([0-9]+)$ and the parse of its second group. */
module Ordinals {
  import opened Outcomes
  import opened Text

  /** The expression matches from `start` to the end of the name, with the dash at `dash`. A dot is anything but
      a newline. */
  ghost predicate Matches(name: string, start: int, dash: int) {
    && 0 <= start <= dash < |name| - 1
    && (forall i :: start <= i < dash ==> name[i] != '\n')
    && name[dash] == '-'
    && forall i :: dash < i < |name| ==> IsDigit(name[i])
  }

  /** Where the digits at the end of the name begin. */
  function DigitsStart(name: string): (k: nat)
    ensures k <= |name| && forall i :: k <= i < |name| ==> IsDigit(name[i])
    ensures k > 0 ==> !IsDigit(name[k - 1])
  {
    if name == "" || !IsDigit(name[|name| - 1]) then |name| else DigitsStart(name[..|name| - 1])
  }

  /** The beginning of the last line of a text. */
  function LineStart(s: string): (k: nat)
    ensures k <= |s| && forall i :: k <= i < |s| ==> s[i] != '\n'
    ensures k > 0 ==> s[k - 1] == '\n'
  {
    if s == "" then 0 else if s[|s| - 1] == '\n' then |s| else LineStart(s[..|s| - 1])
  }

  /** getParentNameAndOrdinal: the two groups of the match; "" and -1 without one, and -1 beyond 32 bits. */
  function ParentAndOrdinal(name: string): (r: (string, int))
    ensures -1 <= r.1 <= INT32_MAX
  {
    var k := DigitsStart(name);
    if k == |name| || k == 0 || name[k - 1] != '-' then ("", -1)
    else
      var start := LineStart(name[..k - 1]);
      (name[start..k - 1], match ParseInt32(name[k..]) case Some(i) => i case None => -1)
  }

  /** Without a dash before its final digits a name does not match. */
  lemma NoMatch(name: string, start: int, dash: int)
    requires var k := DigitsStart(name); k == |name| || k == 0 || name[k - 1] != '-'
    ensures !Matches(name, start, dash)
  {
    if Matches(name, start, dash) {
      OneDash(name, start, dash);
    }
  }

  lemma IsMatch(name: string)
    requires var k := DigitsStart(name); 0 < k < |name| && name[k - 1] == '-'
    ensures var k := DigitsStart(name); Matches(name, LineStart(name[..k - 1]), k - 1)
  {
    var front := name[..DigitsStart(name) - 1];
    assert forall i :: 0 <= i < |front| ==> front[i] == name[i];
  }

  /** The function finds the match of the regular expression: no other dash is possible, and no earlier start. */
  lemma LeftmostMatch(name: string, start: int, dash: int)
    requires Matches(name, start, dash)
    ensures var k := DigitsStart(name);
            && dash == k - 1
            && LineStart(name[..dash]) <= start
            && Matches(name, LineStart(name[..dash]), dash)
            && ParentAndOrdinal(name).0 == name[LineStart(name[..dash])..dash]
  {
    OneDash(name, start, dash);
    IsMatch(name);
    var first := LineStart(name[..dash]);
    assert first > 0 ==> name[..dash][first - 1] == name[first - 1];
  }

  lemma OneDash(name: string, start: int, dash: int)
    requires Matches(name, start, dash)
    ensures DigitsStart(name) == dash + 1
  {
    var k := DigitsStart(name);
    assert !(k <= dash);
    assert !(k > dash + 1);
  }

  /** AddIndexSuffix. */
  function AddIndexSuffix(name: string, index: nat): string {
    name + "-" + Itoa(index)
  }

  /** A name with an index is parsed back to both, exactly as far as the index fits 32 bits. */
  lemma OrdinalRoundTrip(name: string, index: nat)
    requires '\n' !in name
    ensures ParentAndOrdinal(AddIndexSuffix(name, index)) == (name, if index < 0x8000_0000 then index else -1)
  {
    var s, digits := AddIndexSuffix(name, index), Itoa(index);
    assert forall i :: 0 <= i < |name| ==> s[i] == name[i];
    assert forall i :: 0 <= i < |digits| ==> s[|name| + 1 + i] == digits[i];
    OneDash(s, 0, |name|);
    assert s[|name| + 1..] == digits && s[..|name|] == name;
    ItoaValue(index);
  }
}
