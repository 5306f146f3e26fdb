/**
 Shared vocabulary of the learning-engine model: the optional value that
 Swift writes `T?`, the `firstIndex(where:)` lookup every service uses to
 find a record by identity, Swift's clamping `prefix`/`dropFirst`, and the
 decimal rendering that string interpolation performs on integers.
 */
module Common {

  /** Swift's `T?`. */
  datatype Option<+T> = None | Some(value: T)

  function Max(a: int, b: int): int { if a >= b then a else b }

  function Min(a: int, b: int): int { if a <= b then a else b }

  /** `xs.firstIndex(where: { key($0) == id })`: the position of the first
      element whose identity is `id`, or nothing when no element has it. */
  function FirstIndex<T>(xs: seq<T>, key: T -> nat, id: nat): (r: Option<nat>)
    ensures r.Some? ==> r.value < |xs| && key(xs[r.value]) == id
    ensures r.Some? ==> forall j :: 0 <= j < r.value ==> key(xs[j]) != id
    ensures r.None? <==> forall j :: 0 <= j < |xs| ==> key(xs[j]) != id
  {
    if |xs| == 0 then None
    else if key(xs[0]) == id then Some(0)
    else
      match FirstIndex(xs[1..], key, id)
      case None => None
      case Some(k) => Some(k + 1)
  }

  /** Swift's `Array(s.prefix(n))`: at most the first `n` elements. */
  function Prefix<T>(s: seq<T>, n: nat): (r: seq<T>)
    ensures |r| == Min(n, |s|)
    ensures forall i :: 0 <= i < |r| ==> r[i] == s[i]
  {
    if n <= |s| then s[..n] else s
  }

  /** Swift's `s.dropFirst(n)`: everything after the first `n` elements, or
      nothing when there are fewer. */
  function DropFirst<T>(s: seq<T>, n: nat): (r: seq<T>)
    ensures |r| == Max(0, |s| - n)
    ensures forall i :: 0 <= i < |r| ==> r[i] == s[i + n]
  {
    if n <= |s| then s[n..] else []
  }

  // ---------------------------------------------------------------------
  // Decimal rendering of integers ("\(n)" in Swift) and its inverse.
  // ---------------------------------------------------------------------

  predicate IsDigit(c: char) { '0' <= c <= '9' }

  predicate AllDigits(s: string) { forall i :: 0 <= i < |s| ==> IsDigit(s[i]) }

  /** A decimal numeral as Swift prints it: digits only, no leading zero
      unless the number is zero itself. */
  predicate IsNumeral(s: string) {
    |s| > 0 && AllDigits(s) && (|s| > 1 ==> s[0] != '0')
  }

  function DigitChar(d: nat): (c: char)
    requires d < 10
    ensures IsDigit(c)
  {
    ['0', '1', '2', '3', '4', '5', '6', '7', '8', '9'][d]
  }

  function DigitValue(c: char): (d: nat)
    requires IsDigit(c)
    ensures d < 10 && DigitChar(d) == c
  {
    (c as int - '0' as int) as nat
  }

  /** The decimal digits of `n`, most significant first. */
  function NatToString(n: nat): (s: string)
    ensures IsNumeral(s)
  {
    if n < 10 then [DigitChar(n)]
    else NatToString(n / 10) + [DigitChar(n % 10)]
  }

  /** The value of a string of decimal digits. */
  function ParseNat(s: string): nat
    requires AllDigits(s)
  {
    if |s| == 0 then 0
    else 10 * ParseNat(s[..|s| - 1]) + DigitValue(s[|s| - 1])
  }

  /** Swift's `"\(i)"` for a signed integer. */
  function IntToString(i: int): (s: string)
    ensures i >= 0 ==> IsNumeral(s)
    ensures i < 0 ==> |s| > 1 && s[0] == '-' && IsNumeral(s[1..])
  {
    if i < 0 then "-" + NatToString(-i) else NatToString(i)
  }

  lemma DigitCharValue(d: nat)
    requires d < 10
    ensures DigitValue(DigitChar(d)) == d
  {
  }

  /** Reading back a rendered number gives the number. */
  lemma {:induction false} ParseNatToString(n: nat)
    ensures ParseNat(NatToString(n)) == n
  {
    var s := NatToString(n);
    if n < 10 {
      DigitCharValue(n);
      assert s[..|s| - 1] == [];
    } else {
      var front := NatToString(n / 10);
      assert s[..|s| - 1] == front;
      DigitCharValue(n % 10);
      ParseNatToString(n / 10);
    }
  }

  lemma {:induction false} ParseNatBound(s: string)
    requires AllDigits(s)
    requires |s| > 0 && s[0] != '0'
    ensures ParseNat(s) >= 1
  {
    if |s| > 1 {
      ParseNatBound(s[..|s| - 1]);
    } else {
      assert s[..0] == [];
    }
  }

  /** Rendering the value of a numeral gives the numeral back, so numerals
      and naturals are in one-to-one correspondence. */
  lemma {:induction false} NatToStringParse(s: string)
    requires IsNumeral(s)
    ensures NatToString(ParseNat(s)) == s
  {
    var last := DigitValue(s[|s| - 1]);
    if |s| == 1 {
      assert s[..0] == [];
    } else {
      var front := s[..|s| - 1];
      assert IsNumeral(front);
      ParseNatBound(front);
      NatToStringParse(front);
      var n := ParseNat(s);
      assert n == 10 * ParseNat(front) + last;
      assert n / 10 == ParseNat(front) && n % 10 == last;
      assert s == front + [s[|s| - 1]];
    }
  }

  lemma NatToStringInjective(a: nat, b: nat)
    requires NatToString(a) == NatToString(b)
    ensures a == b
  {
    ParseNatToString(a);
    ParseNatToString(b);
  }

  /** Distinct signed integers render differently. */
  lemma IntToStringInjective(a: int, b: int)
    requires IntToString(a) == IntToString(b)
    ensures a == b
  {
    if a < 0 && b < 0 {
      assert NatToString(-a) == IntToString(a)[1..];
      NatToStringInjective(-a, -b);
    } else if a >= 0 && b >= 0 {
      NatToStringInjective(a, b);
    }
  }

  // ---------------------------------------------------------------------
  // Trimming a character class from both ends of a string.
  // ---------------------------------------------------------------------

  predicate AllAre(s: string, drop: char -> bool) {
    forall i :: 0 <= i < |s| ==> drop(s[i])
  }

  /** How many leading characters of `s` are in the class `drop`. */
  function LeadingCount(s: string, drop: char -> bool): (n: nat)
    ensures n <= |s|
    ensures forall i :: 0 <= i < n ==> drop(s[i])
    ensures n < |s| ==> !drop(s[n])
  {
    if |s| > 0 && drop(s[0]) then 1 + LeadingCount(s[1..], drop) else 0
  }

  /** The length of `s` without its trailing characters of class `drop`. */
  function KeptLength(s: string, drop: char -> bool): (n: nat)
    ensures n <= |s|
    ensures forall i :: n <= i < |s| ==> drop(s[i])
    ensures n > 0 ==> !drop(s[n - 1])
  {
    if |s| > 0 && drop(s[|s| - 1]) then KeptLength(s[..|s| - 1], drop) else |s|
  }

  /** Where the trimmed text starts and ends inside `s`. */
  function TrimBounds(s: string, drop: char -> bool): (b: (nat, nat))
    ensures b.0 <= b.1 <= |s|
    ensures forall i :: 0 <= i < b.0 ==> drop(s[i])
    ensures forall i :: b.1 <= i < |s| ==> drop(s[i])
    ensures b.0 < b.1 ==> !drop(s[b.0]) && !drop(s[b.1 - 1])
  {
    var lead := LeadingCount(s, drop);
    var len := KeptLength(s[lead..], drop);
    assert forall i :: lead + len <= i < |s| ==> s[i] == s[lead..][i - lead];
    (lead, lead + len)
  }

  /** Foundation's `trimmingCharacters(in:)`: the slice of `s` left after
      removing characters of class `drop` from both ends, and nothing more. */
  function TrimBy(s: string, drop: char -> bool): (r: string)
    ensures exists i, j :: 0 <= i <= j <= |s| && r == s[i..j] && AllAre(s[..i], drop) && AllAre(s[j..], drop)
    ensures |r| > 0 ==> !drop(r[0]) && !drop(r[|r| - 1])
  {
    var b := TrimBounds(s, drop);
    assert AllAre(s[..b.0], drop) && AllAre(s[b.1..], drop);
    s[b.0..b.1]
  }

  /** The trim is the only slice whose surroundings are all in the class
      and whose ends are not: any such slice is what `TrimBy` returns. */
  lemma TrimByUnique(s: string, drop: char -> bool, i: nat, j: nat)
    requires i <= j <= |s|
    requires AllAre(s[..i], drop) && AllAre(s[j..], drop)
    requires i < j ==> !drop(s[i]) && !drop(s[j - 1])
    ensures TrimBy(s, drop) == s[i..j]
  {
    var b := TrimBounds(s, drop);
    assert forall k :: 0 <= k < i ==> s[..i][k] == s[k];
    assert forall k :: j <= k < |s| ==> s[j..][k - j] == s[k];
    if i < j {
      assert b.0 <= i < b.1;
      assert j - 1 < b.1;
    } else {
      assert forall k :: 0 <= k < |s| ==> drop(s[k]);
    }
  }

  lemma AllAreConcat(a: string, b: string, drop: char -> bool)
    requires AllAre(a, drop) && AllAre(b, drop)
    ensures AllAre(a + b, drop)
  {
    forall k | 0 <= k < |a + b| ensures drop((a + b)[k]) {
      if k >= |a| { assert (a + b)[k] == b[k - |a|]; }
    }
  }

  /** A middle part that neither starts nor ends in the class is what is
      left after trimming class characters around it. */
  lemma TrimMiddle(pre: string, m: string, post: string, drop: char -> bool)
    requires AllAre(pre, drop) && AllAre(post, drop)
    requires |m| > 0 ==> !drop(m[0]) && !drop(m[|m| - 1])
    ensures TrimBy(pre + m + post, drop) == m
  {
    var full := pre + m + post;
    assert full[..|pre|] == pre;
    assert full[|pre| + |m|..] == post;
    assert full[|pre|..|pre| + |m|] == m;
    TrimByUnique(full, drop, |pre|, |pre| + |m|);
  }

  /** Class characters added at both ends are trimmed away again. */
  lemma PaddedTrim(pre: string, s: string, post: string, drop: char -> bool)
    requires AllAre(pre, drop) && AllAre(post, drop)
    ensures TrimBy(pre + s + post, drop) == TrimBy(s, drop)
  {
    var b := TrimBounds(s, drop);
    TrimSurroundings(s, drop);
    AllAreConcat(pre, s[..b.0], drop);
    AllAreConcat(s[b.1..], post, drop);
    Regroup(pre, s, post, b.0, b.1);
    TrimMiddle(pre + s[..b.0], s[b.0..b.1], s[b.1..] + post, drop);
  }

  lemma TrimSurroundings(s: string, drop: char -> bool)
    ensures var b := TrimBounds(s, drop);
            && AllAre(s[..b.0], drop) && AllAre(s[b.1..], drop)
            && TrimBy(s, drop) == s[b.0..b.1]
            && (b.0 < b.1 ==> !drop(s[b.0]) && !drop(s[b.1 - 1]))
  {
    var b := TrimBounds(s, drop);
    assert forall k :: 0 <= k < b.0 ==> s[..b.0][k] == s[k];
    assert forall k :: 0 <= k < |s| - b.1 ==> s[b.1..][k] == s[b.1 + k];
  }

  lemma Regroup(pre: string, s: string, post: string, i: nat, j: nat)
    requires i <= j <= |s|
    ensures pre + s + post == (pre + s[..i]) + s[i..j] + (s[j..] + post)
  {
    assert s == s[..i] + s[i..j] + s[j..];
  }

  /** Text that neither starts nor ends in the class is its own trim. */
  lemma TrimByFixed(s: string, drop: char -> bool)
    requires |s| > 0 ==> !drop(s[0]) && !drop(s[|s| - 1])
    ensures TrimBy(s, drop) == s
  {
    assert LeadingCount(s, drop) == 0;
    assert s[0..] == s;
  }
}
