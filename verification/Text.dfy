/** The Go string functions the operator relies on: strings.Index, Split, Join and TrimSuffix,
    and the decimal conversions of strconv. */
module Text {
  import opened Outcomes

  /** `sep` occurs in `s` at position `k`. */
  ghost predicate OccursAt(s: string, sep: string, k: int) {
    0 <= k && k + |sep| <= |s| && s[k..k + |sep|] == sep
  }

  /** strings.Index, for a non-empty separator: the first occurrence, if there is one. */
  function Index(s: string, sep: string): (r: Option<nat>)
    requires sep != ""
    ensures r.Some? ==> OccursAt(s, sep, r.value) && forall k :: 0 <= k < r.value ==> !OccursAt(s, sep, k)
    ensures r.None? ==> forall k :: !OccursAt(s, sep, k)
  {
    if |s| < |sep| then None
    else if s[..|sep|] == sep then Some(0)
    else
      var rest := Index(s[1..], sep);
      assert forall k :: 1 <= k && OccursAt(s, sep, k) ==> OccursAt(s[1..], sep, k - 1) by {
        forall k | 1 <= k && OccursAt(s, sep, k)
          ensures OccursAt(s[1..], sep, k - 1)
        {
          assert s[1..][k - 1..k - 1 + |sep|] == s[k..k + |sep|];
        }
      }
      match rest
      case None => None
      case Some(i) =>
        assert s[1..][i..i + |sep|] == s[i + 1..i + 1 + |sep|];
        Some(i + 1)
  }

  lemma IndexIs(s: string, sep: string, i: nat)
    requires sep != ""
    requires OccursAt(s, sep, i)
    requires forall k :: 0 <= k < i ==> !OccursAt(s, sep, k)
    ensures Index(s, sep) == Some(i)
  {
    var r := Index(s, sep);
    assert r.Some?;
    assert !(r.value < i) && !(i < r.value);
  }

  /** strings.Split for a non-empty separator. */
  function Split(s: string, sep: string): (r: seq<string>)
    requires sep != ""
    ensures r != []
    decreases |s|
  {
    match Index(s, sep)
    case None => [s]
    case Some(i) => [s[..i]] + Split(s[i + |sep|..], sep)
  }

  /** strings.Join. */
  function Join(parts: seq<string>, sep: string): string {
    if parts == [] then ""
    else if |parts| == 1 then parts[0]
    else parts[0] + sep + Join(parts[1..], sep)
  }

  /** Splitting loses nothing: joining the pieces gives the text back. */
  lemma {:induction false} JoinSplit(s: string, sep: string)
    requires sep != ""
    ensures Join(Split(s, sep), sep) == s
    decreases |s|
  {
    match Index(s, sep)
    case None =>
    case Some(i) =>
      var rest := s[i + |sep|..];
      JoinSplit(rest, sep);
      assert Split(s, sep)[1..] == Split(rest, sep);
      assert s == s[..i] + s[i..i + |sep|] + rest;
  }

  lemma OccursInPrefix(s: string, sep: string, j: nat, k: int)
    requires j <= |s|
    ensures OccursAt(s[..j], sep, k) ==> OccursAt(s, sep, k) && k + |sep| <= j
  {
    if 0 <= k && k + |sep| <= j {
      assert s[..j][k..k + |sep|] == s[k..k + |sep|];
    }
  }

  /** No piece of a split contains the separator. */
  lemma {:induction false} PiecesClean(s: string, sep: string, i: nat, k: int)
    requires sep != "" && i < |Split(s, sep)|
    ensures !OccursAt(Split(s, sep)[i], sep, k)
    decreases |s|
  {
    match Index(s, sep)
    case None =>
    case Some(j) =>
      if i == 0 {
        OccursInPrefix(s, sep, j, k);
      } else {
        PiecesClean(s[j + |sep|..], sep, i - 1, k);
      }
  }

  /** One step of Split: the head before the first separator, then the split of the tail. */
  lemma SplitAt(head: string, sep: string, tail: string)
    requires sep != ""
    requires forall k :: 0 <= k < |head| ==> !OccursAt(head + sep + tail, sep, k)
    ensures Split(head + sep + tail, sep) == [head] + Split(tail, sep)
  {
    var s := head + sep + tail;
    assert s[|head|..|head| + |sep|] == sep;
    IndexIs(s, sep, |head|);
    assert s[..|head|] == head;
    assert s[|head| + |sep|..] == tail;
  }

  /** A one-character separator absent from every part of a non-empty list: Split undoes Join. */
  lemma {:induction false} SplitJoin(parts: seq<string>, c: char)
    requires parts != []
    requires forall i :: 0 <= i < |parts| ==> c !in parts[i]
    ensures Split(Join(parts, [c]), [c]) == parts
  {
    var head := parts[0];
    if |parts| == 1 {
      NoOccurrence(head, c);
    } else {
      var tail := Join(parts[1..], [c]);
      SplitJoin(parts[1..], c);
      forall k | 0 <= k < |head|
        ensures !OccursAt(head + [c] + tail, [c], k)
      {
        assert (head + [c] + tail)[k] == head[k];
        assert head[k] in head;
      }
      SplitAt(head, [c], tail);
    }
  }

  lemma NoOccurrence(s: string, c: char)
    requires c !in s
    ensures Split(s, [c]) == [s]
  {
    forall k: int
      ensures !OccursAt(s, [c], k)
    {
      if 0 <= k < |s| {
        assert s[k..k + 1][0] == s[k] != c;
      }
    }
  }

  /** strings.TrimSuffix. */
  function TrimSuffix(s: string, suffix: string): string {
    if |suffix| <= |s| && s[|s| - |suffix|..] == suffix then s[..|s| - |suffix|] else s
  }

  // ---------------------------------------------------------------- decimal numbers

  predicate IsDigit(c: char) {
    '0' <= c <= '9'
  }

  predicate AllDigits(s: string) {
    forall i :: 0 <= i < |s| ==> IsDigit(s[i])
  }

  function DigitChar(d: nat): (c: char)
    requires d < 10
    ensures IsDigit(c) && DigitValue(c) == d
  {
    '0' + d as char
  }

  function DigitValue(c: char): (d: nat)
    requires IsDigit(c)
    ensures d < 10
  {
    (c - '0') as nat
  }

  /** strconv.Itoa on a non-negative number, also what the verb %d prints. */
  function Itoa(n: nat): (s: string)
    ensures s != "" && AllDigits(s)
  {
    if n < 10 then [DigitChar(n)] else Itoa(n / 10) + [DigitChar(n % 10)]
  }

  /** The number a string of digits denotes; leading zeros are allowed. */
  function DigitsValue(s: string): nat
    requires AllDigits(s)
  {
    if s == "" then 0 else 10 * DigitsValue(s[..|s| - 1]) + DigitValue(s[|s| - 1])
  }

  lemma {:induction false} ItoaValue(n: nat)
    ensures DigitsValue(Itoa(n)) == n
  {
    if n >= 10 {
      ItoaValue(n / 10);
      var s := Itoa(n);
      assert s[..|s| - 1] == Itoa(n / 10);
    }
  }

  /** Different numbers print differently. */
  lemma ItoaInjective(m: nat, n: nat)
    requires Itoa(m) == Itoa(n)
    ensures m == n
  {
    ItoaValue(m);
    ItoaValue(n);
  }

  lemma NoDigit(s: string, c: char)
    requires AllDigits(s) && !IsDigit(c)
    ensures c !in s
  {
  }

  const INT32_MAX: int := 0x7fff_ffff
  const INT64_MAX: int := 0x7fff_ffff_ffff_ffff

  /** strconv.ParseInt(s, 10, 32) on a string without a sign. */
  function ParseInt32(s: string): (r: Option<nat>)
    ensures r.Some? ==> r.value <= INT32_MAX
  {
    if s != "" && AllDigits(s) && DigitsValue(s) <= INT32_MAX then Some(DigitsValue(s)) else None
  }

  /** strconv.Atoi: an optional sign, then digits, within 64 bits. */
  function Atoi(s: string): (r: Option<int>)
    ensures r.Some? ==> -INT64_MAX - 1 <= r.value <= INT64_MAX
  {
    if s == "" then None
    else
      var negative := s[0] == '-';
      var digits := if negative || s[0] == '+' then s[1..] else s;
      if digits == "" || !AllDigits(digits) then None
      else
        var v: int := DigitsValue(digits);
        if negative then (if v <= INT64_MAX + 1 then Some(-v) else None)
        else if v <= INT64_MAX then Some(v) else None
  }

  /** The Go conversion int32(v): the low 32 bits, read as a signed number. */
  function Int32(v: int): (r: int)
    ensures -INT32_MAX - 1 <= r <= INT32_MAX
    ensures -INT32_MAX - 1 <= v <= INT32_MAX ==> r == v
    ensures (v - r) % 0x1_0000_0000 == 0
  {
    var low := v % 0x1_0000_0000;
    if low <= INT32_MAX then low else low - 0x1_0000_0000
  }

  /** A number and the same with the bit above the low 32 set are narrowed alike. */
  lemma Int32Wraps(n: nat)
    requires n < 0x8000_0000
    ensures Int32(n + 0x1_0000_0000) == Int32(n) == n
  {
  }

  /** A printed number parses back exactly as far as it fits 64 bits. */
  lemma AtoiItoa(n: nat)
    ensures Atoi(Itoa(n)) == if n < 0x8000_0000_0000_0000 then Some(n) else None
  {
    ItoaValue(n);
    assert IsDigit(Itoa(n)[0]);
  }

  /** A sign is allowed in front of the digits, and the negative range reaches one further. */
  lemma AtoiSigned(n: nat)
    ensures var v: int := n; Atoi("-" + Itoa(n)) == if v <= 0x8000_0000_0000_0000 then Some(-v) else None
    ensures Atoi("+" + Itoa(n)) == if n < 0x8000_0000_0000_0000 then Some(n) else None
  {
    ItoaValue(n);
    assert ("-" + Itoa(n))[1..] == Itoa(n) && ("+" + Itoa(n))[1..] == Itoa(n);
  }

  /** Digits are decimal, the most significant one first. */
  lemma DecimalDigits(n: nat)
    ensures Itoa(7) == "7" && Itoa(30) == "30" && Itoa(10 * (n + 1) + 4) == Itoa(n + 1) + "4"
  {
    assert Itoa(3) == "3";
  }
}
