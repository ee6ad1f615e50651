/** Go's string order and the sorted, distinct listings built on it. UTF-8 byte order and code
    point order agree, so strings are compared by character. */
module Ordering {
  predicate Less(a: string, b: string) {
    if b == "" then false
    else if a == "" then true
    else a[0] < b[0] || (a[0] == b[0] && Less(a[1..], b[1..]))
  }

  lemma {:induction false} LessIsTotal(a: string, b: string)
    ensures a == b || Less(a, b) || Less(b, a)
  {
    if a != "" && b != "" && a[0] == b[0] {
      LessIsTotal(a[1..], b[1..]);
      if a[1..] == b[1..] {
        assert a == [a[0]] + a[1..] && b == [b[0]] + b[1..];
      }
    }
  }

  lemma {:induction false} LessIsStrict(a: string)
    ensures !Less(a, a)
  {
    if a != "" {
      LessIsStrict(a[1..]);
    }
  }

  lemma {:induction false} LessIsTransitive(a: string, b: string, c: string)
    requires Less(a, b) && Less(b, c)
    ensures Less(a, c)
  {
    if a != "" && a[0] == b[0] == c[0] {
      LessIsTransitive(a[1..], b[1..], c[1..]);
    }
  }

  predicate Ascending(s: seq<string>) {
    forall i, j :: 0 <= i < j < |s| ==> Less(s[i], s[j])
  }

  ghost predicate Lists(s: seq<string>, keys: set<string>) {
    forall x :: x in s <==> x in keys
  }

  /** A sorted, distinct listing of a set is unique. */
  lemma {:induction false} ListingIsUnique(a: seq<string>, b: seq<string>)
    requires Ascending(a) && Ascending(b)
    requires forall x :: x in a <==> x in b
    ensures a == b
  {
    assert (|a| > 0 ==> a[0] in a) && (|b| > 0 ==> b[0] in b);
    if a != [] {
      HeadIsLeast(a, b);
      HeadIsLeast(b, a);
      LessIsTotal(a[0], b[0]);
      TailElements(a);
      TailElements(b);
      ListingIsUnique(a[1..], b[1..]);
      assert a == [a[0]] + a[1..] && b == [b[0]] + b[1..];
    }
  }

  lemma HeadIsLeast(a: seq<string>, b: seq<string>)
    requires a != [] && Ascending(a) && forall x :: x in b ==> x in a
    ensures forall x :: x in b ==> !Less(x, a[0])
  {
    forall x | x in b
      ensures !Less(x, a[0])
    {
      var i :| 0 <= i < |a| && a[i] == x;
      if Less(x, a[0]) {
        if i == 0 { LessIsStrict(x); } else { LessIsTransitive(x, a[0], x); LessIsStrict(x); }
      }
    }
  }

  lemma TailElements(a: seq<string>)
    requires a != [] && Ascending(a)
    ensures Ascending(a[1..])
    ensures forall x :: x in a[1..] <==> x in a && x != a[0]
  {
    LessIsStrict(a[0]);
    forall x | x in a && x != a[0]
      ensures x in a[1..]
    {
      var i :| 0 <= i < |a| && a[i] == x;
      assert x == a[1..][i - 1];
    }
  }

  /** Inserts a string in its place, unless it is there already. */
  method InsertSorted(s: seq<string>, x: string) returns (r: seq<string>)
    requires Ascending(s)
    ensures Ascending(r)
    ensures forall y :: y in r <==> y in s || y == x
  {
    var i := 0;
    while i < |s| && Less(s[i], x)
      invariant 0 <= i <= |s|
      invariant forall k :: 0 <= k < i ==> Less(s[k], x)
    {
      i := i + 1;
    }
    if i < |s| && s[i] == x {
      return s;
    }
    r := s[..i] + [x] + s[i..];
    forall k | i <= k < |s|
      ensures Less(x, s[k])
    {
      LessIsTotal(s[i], x);
      if i < k { LessIsTransitive(x, s[i], s[k]); }
    }
    assert s == s[..i] + s[i..];
  }

  /** The sorted list of the distinct strings. */
  method SortedKeys(keys: set<string>) returns (r: seq<string>)
    ensures Ascending(r) && Lists(r, keys)
  {
    r := [];
    var left := keys;
    while left != {}
      invariant left <= keys && Ascending(r)
      invariant forall x :: x in r <==> x in keys && x !in left
      decreases |left|
    {
      var k :| k in left;
      r := InsertSorted(r, k);
      left := left - {k};
    }
  }

  /** One string comes before another exactly when, after the longest part they share, it ends or
      goes on with a lesser character. */
  lemma {:induction false} LessExactly(a: string, b: string)
    ensures Less(a, b) <==> exists n :: Shares(a, b, n) && n < |b| && (n == |a| || (n < |a| && a[n] < b[n]))
  {
    if a == "" || b == "" {
      if b != "" { assert Shares(a, b, 0); }
    } else if a[0] != b[0] {
      if a[0] < b[0] { assert Shares(a, b, 0); }
      SharesNothing(a, b);
    } else {
      LessExactly(a[1..], b[1..]);
      if Less(a, b) {
        var n :| Shares(a[1..], b[1..], n) && n < |b[1..]| && (n == |a[1..]| || (n < |a[1..]| && a[1..][n] < b[1..][n]));
        assert a[..n + 1] == [a[0]] + a[1..][..n] && b[..n + 1] == [b[0]] + b[1..][..n];
        assert Shares(a, b, n + 1);
      }
      if exists n :: Shares(a, b, n) && n < |b| && (n == |a| || (n < |a| && a[n] < b[n])) {
        var n :| Shares(a, b, n) && n < |b| && (n == |a| || (n < |a| && a[n] < b[n]));
        assert n > 0;
        assert a[1..][..n - 1] == a[..n][1..] && b[1..][..n - 1] == b[..n][1..];
        assert Shares(a[1..], b[1..], n - 1);
      }
    }
  }

  lemma SharesNothing(a: string, b: string)
    requires a != "" && b != "" && a[0] != b[0]
    ensures forall n :: Shares(a, b, n) ==> n == 0
  {
    forall n | 0 < n <= |a| && n <= |b| ensures a[..n] != b[..n] { assert a[..n][0] == a[0] && b[..n][0] == b[0]; }
  }

  predicate Shares(a: string, b: string, n: int) {
    0 <= n <= |a| && n <= |b| && a[..n] == b[..n]
  }
}
