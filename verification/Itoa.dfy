/** itoa and strlen of libc.c: digits least significant first, then an in-place reversal. */
module Itoa {

  const ZERO := 48

  function Pow10(n: nat): (p: nat)
    ensures p >= 1
  {
    if n == 0 then 1 else 10 * Pow10(n - 1)
  }

  predicate Digits(s: seq<int>) {
    forall i :: 0 <= i < |s| ==> ZERO <= s[i] <= ZERO + 9
  }

  /** The number that a decimal string denotes. */
  function Parse(s: seq<int>): int {
    if s == [] then 0 else Parse(s[..|s| - 1]) * 10 + (s[|s| - 1] - ZERO)
  }

  /** The number that the digits denote when the least significant comes first. */
  function ParseLittle(s: seq<int>): int {
    if s == [] then 0 else (s[0] - ZERO) + 10 * ParseLittle(s[1..])
  }

  lemma {:induction false} ParseLittleSnoc(s: seq<int>, d: int)
    ensures ParseLittle(s + [d]) == ParseLittle(s) + (d - ZERO) * Pow10(|s|)
  {
    if s == [] {
      assert s + [d] == [d];
    } else {
      ParseLittleSnoc(s[1..], d);
      assert (s + [d])[1..] == s[1..] + [d];
      assert 10 * ((d - ZERO) * Pow10(|s| - 1)) == (d - ZERO) * Pow10(|s|);
    }
  }

  ghost function Reversed(s: seq<int>): (r: seq<int>)
    ensures |r| == |s| && forall i :: 0 <= i < |s| ==> r[i] == s[|s| - 1 - i]
  {
    seq(|s|, i requires 0 <= i < |s| => s[|s| - 1 - i])
  }

  lemma {:induction false} ParseReversed(s: seq<int>)
    ensures Parse(Reversed(s)) == ParseLittle(s)
  {
    if s != [] {
      ParseReversed(s[1..]);
      assert Reversed(s)[..|s| - 1] == Reversed(s[1..]);
    }
  }

  /** The canonical decimal string of a: digits only, no leading zero except in "0", and it reads back as a. */
  ghost predicate Decimal(s: seq<int>, a: int) {
    |s| > 0 && (forall i :: 0 <= i < |s| ==> 48 <= s[i] <= 57) && Parse(s) == a && (s[0] == 48 ==> s == [48])
  }

  /** The swap loop. */
  method ReversePrefix(b: array<int>, n: nat)
    requires n <= b.Length
    modifies b
    ensures b[..n] == Reversed(old(b[..n])) && b[n..] == old(b[n..])
  {
    for i1 := 0 to n / 2
      invariant forall k :: 0 <= k < i1 ==> b[k] == old(b[n - 1 - k]) && b[n - 1 - k] == old(b[k])
      invariant forall k :: i1 <= k < n - i1 ==> b[k] == old(b[k])
      invariant b[n..] == old(b[n..])
    {
      var c := b[i1];
      b[i1] := b[n - i1 - 1];
      b[n - i1 - 1] := c;
    }
    forall k | 0 <= k < n
      ensures b[k] == old(b[..n])[n - 1 - k]
    {
      if k >= n - n / 2 {
        assert b[n - 1 - (n - 1 - k)] == old(b[n - 1 - k]);
      }
    }
  }

  /** The digit loop. */
  method PutDigits(a: nat, b: array<int>) returns (n: nat)
    requires a > 0 && a < Pow10(b.Length)
    modifies b
    ensures 0 < n <= b.Length && Digits(b[..n]) && ParseLittle(b[..n]) == a && b[n - 1] != ZERO
  {
    n := 0;
    var left: nat := a;
    while left > 0
      invariant n <= b.Length && Digits(b[..n])
      invariant a == ParseLittle(b[..n]) + left * Pow10(n)
      invariant a >= left * Pow10(n) && (n > 0 && left == 0 ==> b[n - 1] != ZERO)
      invariant n == 0 ==> left == a
      decreases left
    {
      RoomLeft(a, left, n, b.Length);
      ghost var s, d := b[..n], left % 10;
      b[n] := left % 10 + ZERO;
      assert b[..n + 1] == s + [d + ZERO];
      ParseLittleSnoc(s, d + ZERO);
      SplitDigit(left, Pow10(n));
      left := left / 10;
      n := n + 1;
    }
    assert left * Pow10(n) == 0;
  }

  lemma RoomLeft(a: nat, left: nat, n: nat, size: nat)
    requires left > 0 && a >= left * Pow10(n) && a < Pow10(size) && n <= size
    ensures n < size
  {
    AtLeast(left, Pow10(n));
  }

  lemma AtLeast(k: nat, p: nat)
    requires k > 0
    ensures k * p >= p
  {
  }

  lemma SplitDigit(left: nat, p: nat)
    ensures left * p == left % 10 * p + left / 10 * (10 * p)
    ensures left / 10 * (10 * p) >= 0
  {
    assert left == left / 10 * 10 + left % 10;
    assert left / 10 * 10 * p == left / 10 * (10 * p);
  }

  /** itoa: the canonical decimal string, zero-terminated; a negative number gives the empty string. */
  method Itoa(a: int, b: array<int>) returns (ghost n: nat)
    requires b.Length >= 2 && a < Pow10(b.Length - 1)
    modifies b
    ensures n < b.Length && b[n] == 0
    ensures a >= 0 ==> Decimal(b[..n], a)
    ensures a < 0 ==> n == 0
  {
    if a == 0 {
      b[0], b[1] := ZERO, 0;
      return 1;
    }
    var i := 0;
    if a > 0 {
      i := PutDigitsRoom(a, b);
    }
    ghost var s := b[..i];
    ReversePrefix(b, i);
    ParseReversed(s);
    b[i] := 0;
    assert b[..i] == Reversed(s);
    n := i;
  }

  /** PutDigits leaves room for the terminator. */
  method PutDigitsRoom(a: nat, b: array<int>) returns (n: nat)
    requires a > 0 && b.Length >= 2 && a < Pow10(b.Length - 1)
    modifies b
    ensures 0 < n < b.Length && Digits(b[..n]) && ParseLittle(b[..n]) == a && b[n - 1] != ZERO
  {
    assert Pow10(b.Length) == 10 * Pow10(b.Length - 1);
    n := PutDigits(a, b);
    LastDigitSize(b[..n]);
  }

  /** A number whose top digit is not zero is at least the power of its length. */
  lemma {:induction false} LastDigitSize(s: seq<int>)
    requires s != [] && Digits(s) && s[|s| - 1] != ZERO
    ensures ParseLittle(s) >= Pow10(|s| - 1)
  {
    if |s| > 1 {
      LastDigitSize(s[1..]);
    }
  }

  /** strlen: the position of the first zero. */
  method Strlen(a: array<int>, ghost n: nat) returns (i: nat)
    requires n < a.Length && a[n] == 0
    ensures i <= n && a[i] == 0 && forall k :: 0 <= k < i ==> a[k] != 0
  {
    i := 0;
    while a[i] != 0
      invariant i <= n && forall k :: 0 <= k < i ==> a[k] != 0
      decreases n - i
    {
      i := i + 1;
    }
  }

  /** On what itoa wrote, strlen is the number of digits. */
  lemma StrlenOfDecimal(s: seq<int>, a: int, i: nat)
    requires Decimal(s, a) && i <= |s| && (s + [0])[i] == 0
    ensures i == |s|
  {
  }
}
