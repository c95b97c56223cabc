/**
 Substring search of shared/string.c: `memmem` by the "Not So Naive" algorithm, `memcmp` under it
 and `strstr` on top.  A pointer into a buffer is an array with an offset; every read is in bounds.
 */
module StringSearch {
  import opened Arith
  import opened Wrappers

  /** The needle x stands in the haystack y at j. */
  predicate Occurs(y: seq<byte>, x: seq<byte>, j: int) {
    0 <= j && j + |x| <= |y| && y[j..j + |x|] == x
  }

  /** r is the leftmost place of x in y. */
  ghost predicate Leftmost(y: seq<byte>, x: seq<byte>, r: Option<nat>) {
    match r
    case Some(j) => Occurs(y, x, j) && forall i :: 0 <= i < j ==> !Occurs(y, x, i)
    case None => forall i :: !Occurs(y, x, i)
  }

  ghost predicate FirstDifference(a: seq<byte>, b: seq<byte>, k: nat, d: int) {
    k < |a| && k < |b| && a[..k] == b[..k] && d == a[k] as int - b[k] as int
  }

  ghost predicate Differ(a: seq<byte>, b: seq<byte>, d: int) {
    exists k: nat :: FirstDifference(a, b, k, d)
  }

  /** `memcmp`: the difference of the first bytes that differ. */
  method Memcmp(s1: array<byte>, o1: nat, s2: array<byte>, o2: nat, n: nat) returns (d: int)
    requires o1 + n <= s1.Length && o2 + n <= s2.Length
    ensures d == 0 <==> s1[o1..o1 + n] == s2[o2..o2 + n]
    ensures d != 0 ==> Differ(s1[o1..o1 + n], s2[o2..o2 + n], d)
  {
    d := 0;
    var i := 0;
    while i < n
      invariant 0 <= i <= n && d == 0
      invariant s1[o1..o1 + i] == s2[o2..o2 + i]
    {
      d := s1[o1 + i] as int - s2[o2 + i] as int;
      if d != 0 {
        ghost var a, b := s1[o1..o1 + n], s2[o2..o2 + n];
        assert a[..i] == s1[o1..o1 + i] && b[..i] == s2[o2..o2 + i];
        assert FirstDifference(a, b, i, d);
        return;
      }
      i := i + 1;
    }
  }

  lemma MatchedAt(y: seq<byte>, x: seq<byte>, j: nat, k: nat)
    requires k < |x| && j + k < |y|
    ensures Occurs(y, x, j) ==> y[j + k] == x[k]
  {
    assert j + |x| <= |y| ==> y[j..j + |x|][k] == y[j + k];
  }

  /** A second needle byte that is missing after j rules j out; and j + 1 too when the needle starts with it twice. */
  lemma SecondMissing(y: seq<byte>, x: seq<byte>, j: nat)
    requires |x| >= 2 && j + |x| <= |y| && y[j + 1] != x[1]
    ensures !Occurs(y, x, j) && (x[0] == x[1] ==> !Occurs(y, x, j + 1))
  {
    MatchedAt(y, x, j, 1);
    if x[0] == x[1] {
      MatchedAt(y, x, j + 1, 0);
    }
  }

  /** A second needle byte that is there after j rules j + 1 out when the needle starts with two different bytes. */
  lemma SecondThere(y: seq<byte>, x: seq<byte>, j: nat)
    requires |x| >= 2 && j + |x| <= |y| && y[j + 1] == x[1] && x[0] != x[1]
    ensures !Occurs(y, x, j + 1)
  {
    MatchedAt(y, x, j + 1, 0);
  }

  /** The two parts of the test `x[0] == y[j]`, `memcmp` of the bytes past the second. */
  lemma OccursByParts(y: seq<byte>, x: seq<byte>, j: nat)
    requires |x| >= 2 && j + |x| <= |y| && y[j + 1] == x[1]
    ensures Occurs(y, x, j) <==> y[j] == x[0] && x[2..|x|] == y[j + 2..j + |x|]
  {
    var w := y[j..j + |x|];
    assert w[2..] == y[j + 2..j + |x|];
    assert w == [w[0], w[1]] + w[2..];
    assert x == [x[0], x[1]] + x[2..];
  }

  /** An empty needle occurs at once, so that null is the wrong answer for it. */
  lemma EmptyOccurs(y: seq<byte>)
    ensures Occurs(y, [], 0) && !Leftmost(y, [], None)
  {
    assert Occurs(y, [], 0);
  }

  /** `memmem`: the leftmost occurrence; an empty needle is never found. */
  method Memmem(y: array<byte>, n: nat, x: array<byte>, m: nat) returns (r: Option<nat>)
    requires n <= y.Length && m <= x.Length
    ensures m == 0 ==> r == None
    ensures Leftmost(y[..n], x[..m], r) <==> m > 0
  {
    if m > n || m == 0 || n == 0 {
      EmptyOccurs(y[..n]);
      return None;
    }
    if m != 1 {
      r := SearchPairs(y, n, x, m);
    } else {
      r := SearchByte(y, n, x);
    }
  }

  lemma SliceOfTake(s: seq<byte>, n: nat, a: nat, b: nat)
    requires a <= b <= n <= |s|
    ensures s[..n][a..b] == s[a..b]
  {
  }

  method SearchPairs(y: array<byte>, n: nat, x: array<byte>, m: nat) returns (r: Option<nat>)
    requires 2 <= m <= n <= y.Length && m <= x.Length
    ensures Leftmost(y[..n], x[..m], r)
  {
    ghost var ys, xs := y[..n], x[..m];
    var k, l := 1, 2;
    if x[0] == x[1] {
      k, l := 2, 1;
    }
    var j := 0;
    while j <= n - m
      invariant 0 <= j <= n - m + 2
      invariant forall i :: 0 <= i < j ==> !Occurs(ys, xs, i)
    {
      if x[1] != y[j + 1] {
        SecondMissing(ys, xs, j);
        j := j + k;
      } else {
        var d := Memcmp(x, 2, y, j + 2, m - 2);
        SliceOfTake(x[..], m, 2, m);
        SliceOfTake(y[..], n, j + 2, j + m);
        OccursByParts(ys, xs, j);
        if d == 0 && x[0] == y[j] {
          return Some(j);
        }
        if x[0] != x[1] {
          SecondThere(ys, xs, j);
        }
        j := j + l;
      }
    }
    return None;
  }

  /** The search for a needle of one byte, with the count of bytes left. */
  method SearchByte(y: array<byte>, n: nat, x: array<byte>) returns (r: Option<nat>)
    requires 1 <= n <= y.Length && 1 <= x.Length
    ensures Leftmost(y[..n], x[..1], r)
  {
    var p, left := 0, n;
    while left > 0
      invariant p + left == n
      invariant forall i :: 0 <= i < p ==> !Occurs(y[..n], x[..1], i)
    {
      assert y[..n][p..p + 1] == [y[p]] && x[..1] == [x[0]];
      if y[p] == x[0] {
        return Some(p);
      }
      p, left := p + 1, left - 1;
    }
    return None;
  }

  /** The bytes of a string: those before its first NUL. */
  predicate IsString(a: seq<byte>, s: seq<byte>) {
    |s| < |a| && a[|s|] == 0 && s == a[..|s|] && 0 !in s
  }

  method Strlen(s: array<byte>) returns (n: nat)
    requires 0 in s[..]
    ensures n < s.Length && IsString(s[..], s[..n])
  {
    n := 0;
    while s[n] != 0
      invariant n < s.Length && 0 in s[n..] && 0 !in s[..n]
      decreases s.Length - n
    {
      assert s[n..] == [s[n]] + s[n + 1..];
      assert s[..n + 1] == s[..n] + [s[n]];
      n := n + 1;
    }
    assert s[..n] == s[..][..n];
  }

  /** `strstr`.  The C standard wants the whole haystack for an empty needle; this one answers null. */
  method Strstr(haystack: array<byte>, needle: array<byte>) returns (r: Option<nat>)
    requires 0 in haystack[..] && 0 in needle[..]
    ensures forall y, x :: IsString(haystack[..], y) && IsString(needle[..], x) ==>
                             if x == [] then r == None else Leftmost(y, x, r)
  {
    var n := Strlen(haystack);
    var m := Strlen(needle);
    r := Memmem(haystack, n, needle, m);
    forall y, x | IsString(haystack[..], y) && IsString(needle[..], x)
      ensures y == haystack[..n] && x == needle[..m]
    {
      OneString(haystack[..], y, haystack[..n]);
      OneString(needle[..], x, needle[..m]);
    }
  }

  lemma OneString(a: seq<byte>, s: seq<byte>, t: seq<byte>)
    requires IsString(a, s) && IsString(a, t)
    ensures s == t
  {
    FirstNul(a, s, |t|);
    FirstNul(a, t, |s|);
  }

  lemma FirstNul(a: seq<byte>, s: seq<byte>, i: nat)
    requires IsString(a, s) && i < |a| && a[i] == 0
    ensures |s| <= i
  {
    assert forall k :: 0 <= k < |s| ==> s[k] == a[k] && s[k] in s;
  }
}
