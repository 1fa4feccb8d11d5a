/**
 * The two collection primitives the analyser leans on: walking a set in
 * some order (the host language iterates a set in an order it does not
 * promise) and sorting by a string key (`sorted(xs, key=...)`, `list.sort()`).
 */
module Sorting {
  import opened Strings

  predicate SortedBy<T>(s: seq<T>, key: T -> string) {
    forall i, j :: 0 <= i < j < |s| ==> StrLe(key(s[i]), key(s[j]))
  }

  /** `xs` lists every element of `s` exactly once: one iteration order of `s`. */
  predicate IsEnumeration<T>(xs: seq<T>, s: set<T>) {
    multiset(xs) == multiset(s)
  }

  function Ident(s: string): string { s }

  function InsertBy<T>(x: T, s: seq<T>, key: T -> string): (r: seq<T>)
    requires SortedBy(s, key)
    ensures multiset(r) == multiset(s) + multiset{x}
    ensures SortedBy(r, key)
    decreases |s|
  {
    if s == [] then [x]
    else if StrLe(key(x), key(s[0])) then
      InsertFront(x, s, key);
      [x] + s
    else
      var rest := InsertBy(x, s[1..], key);
      assert s == [s[0]] + s[1..];
      InsertBehindHead(x, s, rest, key);
      [s[0]] + rest
  }

  lemma InsertFront<T>(x: T, s: seq<T>, key: T -> string)
    requires SortedBy(s, key) && s != [] && StrLe(key(x), key(s[0]))
    ensures SortedBy([x] + s, key)
  {
    forall j | 0 < j < |s| ensures StrLe(key(x), key(s[j])) {
      StrLeTransitive(key(x), key(s[0]), key(s[j]));
    }
  }

  lemma InsertBehindHead<T>(x: T, s: seq<T>, rest: seq<T>, key: T -> string)
    requires SortedBy(s, key) && s != [] && !StrLe(key(x), key(s[0]))
    requires SortedBy(rest, key) && multiset(rest) == multiset(s[1..]) + multiset{x}
    ensures SortedBy([s[0]] + rest, key)
  {
    StrLeTotal(key(x), key(s[0]));
    var r := [s[0]] + rest;
    forall i, j | 0 <= i < j < |r| ensures StrLe(key(r[i]), key(r[j])) {
      if i == 0 {
        assert r[j] == rest[j - 1];
        assert rest[j - 1] in multiset(rest);
        if rest[j - 1] != x {
          assert rest[j - 1] in multiset(s[1..]);
          var k :| 0 <= k < |s[1..]| && s[1..][k] == rest[j - 1];
          assert s[k + 1] == rest[j - 1];
        }
      } else {
        assert r[i] == rest[i - 1] && r[j] == rest[j - 1];
      }
    }
  }

  /** `sorted(s, key=key)`: a permutation of `s` in ascending key order. */
  function SortBy<T>(s: seq<T>, key: T -> string): (r: seq<T>)
    ensures multiset(r) == multiset(s)
    ensures SortedBy(r, key)
    decreases |s|
  {
    if s == [] then []
    else
      assert s == [s[0]] + s[1..];
      InsertBy(s[0], SortBy(s[1..], key), key)
  }

  /** Two ascending string lists with the same elements are the same list. */
  lemma {:induction false} SortedUnique(a: seq<string>, b: seq<string>)
    requires SortedBy(a, Ident) && SortedBy(b, Ident)
    requires multiset(a) == multiset(b)
    ensures a == b
    decreases |a|
  {
    if a != [] {
      assert a[0] in multiset(b) && b[0] in multiset(a);
      HeadIsLeast(b, a[0]);
      HeadIsLeast(a, b[0]);
      StrLeAntisymmetric(a[0], b[0]);
      assert a == [a[0]] + a[1..];
      assert b == [b[0]] + b[1..];
      assert multiset(a[1..]) == multiset(a) - multiset{a[0]};
      assert multiset(b[1..]) == multiset(b) - multiset{b[0]};
      SortedTail(a, Ident);
      SortedTail(b, Ident);
      SortedUnique(a[1..], b[1..]);
    }
  }

  lemma HeadIsLeast(s: seq<string>, x: string)
    requires SortedBy(s, Ident) && x in s
    ensures StrLe(s[0], x)
  {
    var i :| 0 <= i < |s| && s[i] == x;
    if i == 0 { StrLeReflexive(x); } else { assert StrLe(Ident(s[0]), Ident(s[i])); }
  }

  lemma SortedTail<T>(s: seq<T>, key: T -> string)
    requires SortedBy(s, key) && s != []
    ensures SortedBy(s[1..], key)
  {
    forall p, q | 0 <= p < q < |s| - 1 ensures StrLe(key(s[1..][p]), key(s[1..][q])) {
      assert s[1..][p] == s[p + 1] && s[1..][q] == s[q + 1];
    }
  }

  /** Walks `s` in some order, as a `for x in s` loop does. */
  method Enumerate<T>(s: set<T>) returns (xs: seq<T>)
    ensures IsEnumeration(xs, s)
  {
    xs := [];
    var rest := s;
    while rest != {}
      invariant rest <= s
      invariant multiset(xs) + multiset(rest) == multiset(s)
      decreases |rest|
    {
      var x :| x in rest;
      xs := xs + [x];
      rest := rest - {x};
    }
  }

  /** An enumeration of a set repeats no element. */
  lemma EnumerationDistinct<T>(xs: seq<T>, s: set<T>, k: int, i: int)
    requires IsEnumeration(xs, s)
    requires 0 <= k < i < |xs|
    ensures xs[k] != xs[i]
  {
    assert multiset(xs)[xs[k]] <= 1;
    RepeatCount(xs, k, i);
  }

  lemma RepeatCount<T>(xs: seq<T>, k: int, i: int)
    requires 0 <= k < i < |xs|
    ensures xs[k] == xs[i] ==> multiset(xs)[xs[k]] >= 2
  {
    if xs[k] == xs[i] {
      assert xs == xs[..k] + [xs[k]] + xs[k + 1..i] + [xs[i]] + xs[i + 1..];
    }
  }

  /** `sorted(list(s))` for a set of strings; by SortedUnique the list is determined by `s`. */
  method SortedElements(s: set<string>) returns (r: seq<string>)
    ensures IsEnumeration(r, s)
    ensures SortedBy(r, Ident)
  {
    var xs := Enumerate(s);
    r := SortBy(xs, Ident);
  }
}
