/**
 * `Array.prototype.sort()` without a comparator on strings: ascending lexicographic order of
 * character codes, a shorter prefix first.
 */
module Sorting {

  predicate Leq(a: string, b: string) {
    a == [] || (b != [] && (a[0] < b[0] || (a[0] == b[0] && Leq(a[1..], b[1..]))))
  }

  lemma {:induction false} LeqTotal(a: string, b: string)
    ensures Leq(a, b) || Leq(b, a)
  {
    if a != [] && b != [] && a[0] == b[0] {
      LeqTotal(a[1..], b[1..]);
    }
  }

  lemma {:induction false} LeqTrans(a: string, b: string, c: string)
    requires Leq(a, b) && Leq(b, c)
    ensures Leq(a, c)
  {
    if a != [] && a[0] == b[0] && b[0] == c[0] {
      LeqTrans(a[1..], b[1..], c[1..]);
    }
  }

  lemma {:induction false} LeqAntisym(a: string, b: string)
    requires Leq(a, b) && Leq(b, a)
    ensures a == b
  {
    if a != [] {
      LeqAntisym(a[1..], b[1..]);
      assert a == [a[0]] + a[1..] && b == [b[0]] + b[1..];
    }
  }

  predicate Sorted(s: seq<string>) {
    forall i, j :: 0 <= i < j < |s| ==> Leq(s[i], s[j])
  }

  /** Below the head of a sorted sequence is below all of it. */
  lemma BelowHead(x: string, s: seq<string>)
    requires Sorted(s) && s != [] && Leq(x, s[0])
    ensures forall j :: 0 <= j < |s| ==> Leq(x, s[j])
  {
    forall j | 0 <= j < |s| ensures Leq(x, s[j]) {
      if j > 0 { LeqTrans(x, s[0], s[j]); }
    }
  }

  /** A value below `x` and below every element of `t` is below every element of `t` with `x` added. */
  lemma BelowAll(y: string, x: string, t: seq<string>, r: seq<string>)
    requires Leq(y, x) && (forall j :: 0 <= j < |t| ==> Leq(y, t[j]))
    requires multiset(r) == multiset(t) + multiset{x}
    ensures forall j :: 0 <= j < |r| ==> Leq(y, r[j])
  {
    forall j | 0 <= j < |r| ensures Leq(y, r[j]) {
      assert r[j] in multiset(r);
      assert r[j] == x || r[j] in multiset(t);
    }
  }

  /** Places `x` before the first element not below it. */
  function Insert(x: string, s: seq<string>): (r: seq<string>)
    requires Sorted(s)
    ensures Sorted(r) && multiset(r) == multiset(s) + multiset{x}
  {
    if s == [] then [x]
    else if Leq(x, s[0]) then
      BelowHead(x, s);
      [x] + s
    else
      LeqTotal(x, s[0]);
      var rest := Insert(x, s[1..]);
      assert s == [s[0]] + s[1..];
      BelowAll(s[0], x, s[1..], rest);
      [s[0]] + rest
  }

  /** The elements of `s` in ascending order. */
  function Sort(s: seq<string>): (r: seq<string>)
    ensures Sorted(r) && multiset(r) == multiset(s)
  {
    if s == [] then []
    else
      assert s == [s[0]] + s[1..];
      Insert(s[0], Sort(s[1..]))
  }

  /** A sequence without repetitions holds each value at most once. */
  lemma {:induction false} DistinctOnce(s: seq<string>, x: string)
    requires forall i, j :: 0 <= i < j < |s| ==> s[i] != s[j]
    ensures multiset(s)[x] <= 1
  {
    if s != [] {
      var init := s[..|s| - 1];
      DistinctOnce(init, x);
      assert s == init + [s[|s| - 1]];
      if s[|s| - 1] == x {
        assert x !in init;
      }
    }
  }

  /** Two equal entries at different positions count twice. */
  lemma TwiceCounted(r: seq<string>, i: nat, j: nat)
    requires i < j < |r| && r[i] == r[j]
    ensures multiset(r)[r[i]] >= 2
  {
    assert r == r[..i] + [r[i]] + r[i + 1..j] + [r[j]] + r[j + 1..];
  }

  /**
   * Sorting distinct names lists each of them once, in strictly ascending order: no two
   * entries are equal and every earlier entry is below every later one.
   */
  lemma SortDistinct(s: seq<string>)
    requires forall i, j :: 0 <= i < j < |s| ==> s[i] != s[j]
    ensures var r := Sort(s);
      && |r| == |s|
      && (forall x :: x in r <==> x in s)
      && (forall i, j :: 0 <= i < j < |r| ==> Leq(r[i], r[j]) && r[i] != r[j])
  {
    var r := Sort(s);
    assert |r| == |multiset(r)| == |multiset(s)| == |s|;
    forall x ensures x in r <==> x in s {
      assert x in r <==> x in multiset(r);
    }
    forall i, j | 0 <= i < j < |r| ensures r[i] != r[j] {
      if r[i] == r[j] {
        TwiceCounted(r, i, j);
        DistinctOnce(s, r[i]);
        assert false;
      }
    }
  }
}
