/** `Array.prototype.filter`, which the screens use on records, visits and password lines. */
module Seqs {
  import opened Wrappers


  /** The elements of `xs` that satisfy `keep`, in their original order. */
  function Filter<T(!new)>(xs: seq<T>, keep: T -> bool): (r: seq<T>)
    ensures |r| <= |xs|
  {
    if xs == [] then []
    else Filter(xs[..|xs| - 1], keep) + (if keep(xs[|xs| - 1]) then [xs[|xs| - 1]] else [])
  }

  /** The result holds each kept element as often as `xs` does, and nothing else. */
  lemma {:induction false} FilterMembers<T(!new)>(xs: seq<T>, keep: T -> bool)
    ensures forall x :: x in Filter(xs, keep) <==> x in xs && keep(x)
    ensures forall x :: multiset(Filter(xs, keep))[x] == if keep(x) then multiset(xs)[x] else 0
  {
    if xs != [] {
      var init := xs[..|xs| - 1];
      var last := xs[|xs| - 1];
      assert xs == init + [last];
      FilterMembers(init, keep);
    }
  }

  /** Filtering keeps a sequence whose every element passes. */
  lemma {:induction false} FilterAll<T(!new)>(xs: seq<T>, keep: T -> bool)
    requires forall i :: 0 <= i < |xs| ==> keep(xs[i])
    ensures Filter(xs, keep) == xs
  {
    if xs != [] {
      FilterAll(xs[..|xs| - 1], keep);
      assert xs[..|xs| - 1] + [xs[|xs| - 1]] == xs;
    }
  }

  /** Filtering one more element appends it when it is kept. */
  lemma FilterSnoc<T(!new)>(xs: seq<T>, x: T, keep: T -> bool)
    ensures Filter(xs + [x], keep) == Filter(xs, keep) + (if keep(x) then [x] else [])
  {
    assert (xs + [x])[..|xs|] == xs;
  }

  /** `Array.prototype.map`. */
  function Map<A, B>(xs: seq<A>, f: A -> B): (r: seq<B>)
    ensures |r| == |xs| && forall j :: 0 <= j < |xs| ==> r[j] == f(xs[j])
  {
    seq(|xs|, j requires 0 <= j < |xs| => f(xs[j]))
  }

  lemma MapPrefix<A, B>(xs: seq<A>, i: nat, f: A -> B)
    requires i < |xs|
    ensures Map(xs[..i + 1], f) == Map(xs[..i], f) + [f(xs[i])]
  {
    var a := Map(xs[..i + 1], f);
    var b := Map(xs[..i], f) + [f(xs[i])];
    assert |a| == |b|;
    forall j | 0 <= j < |a| ensures a[j] == b[j] {
      if j < i {
        assert xs[..i + 1][j] == xs[..i][j];
      }
    }
  }

  /**
   * The elements that pass `keep` followed by those that fail it: no passing element comes after
   * a failing one, and together they are the elements of `xs`.
   */
  lemma {:induction false} Partition<T(!new)>(xs: seq<T>, keep: T -> bool, drop: T -> bool)
    requires forall x :: drop(x) == !keep(x)
    ensures var a := Filter(xs, keep); var r := a + Filter(xs, drop);
      && (forall k :: 0 <= k < |r| ==> (keep(r[k]) <==> k < |a|))
      && multiset(r) == multiset(xs)
  {
    var a := Filter(xs, keep);
    var b := Filter(xs, drop);
    var r := a + b;
    FilterMembers(xs, keep);
    FilterMembers(xs, drop);
    forall k | 0 <= k < |r| ensures keep(r[k]) <==> k < |a| {
      if k < |a| {
        assert r[k] == a[k] && a[k] in a;
      } else {
        assert r[k] == b[k - |a|] && b[k - |a|] in b;
      }
    }
    assert forall x :: multiset(r)[x] == multiset(a)[x] + multiset(b)[x];
  }

  lemma ConcatAssoc<T>(a: seq<T>, b: seq<T>, c: seq<T>)
    ensures (a + b) + c == a + (b + c)
  {
  }

  /** Filtering a prefix one element longer appends that element when it is kept. */
  lemma FilterPrefix<T(!new)>(xs: seq<T>, i: nat, keep: T -> bool)
    requires i < |xs|
    ensures keep(xs[i]) ==> Filter(xs[..i + 1], keep) == Filter(xs[..i], keep) + [xs[i]]
    ensures !keep(xs[i]) ==> Filter(xs[..i + 1], keep) == Filter(xs[..i], keep)
  {
    assert xs[..i + 1][..i] == xs[..i];
    var b := Filter(xs[..i], keep);
    assert b + [] == b;
  }

  /** Filtering keeps order: the result is the filter of a prefix followed by that of the suffix. */
  lemma {:induction false} FilterConcat<T(!new)>(xs: seq<T>, ys: seq<T>, keep: T -> bool)
    ensures Filter(xs + ys, keep) == Filter(xs, keep) + Filter(ys, keep)
  {
    if ys != [] {
      var init := ys[..|ys| - 1];
      assert (xs + ys)[..|xs + ys| - 1] == xs + init;
      FilterConcat(xs, init, keep);
    } else {
      assert xs + ys == xs;
    }
  }

  /** Filtering twice with the same test changes nothing. */
  lemma {:induction false} FilterIdempotent<T(!new)>(xs: seq<T>, keep: T -> bool)
    ensures Filter(Filter(xs, keep), keep) == Filter(xs, keep)
  {
    if xs != [] {
      var init := xs[..|xs| - 1];
      FilterIdempotent(init, keep);
      var last := xs[|xs| - 1];
      if keep(last) {
        FilterConcat(Filter(init, keep), [last], keep);
        assert Filter([last], keep) == [last] by {
          assert [last][..0] == [];
        }
      } else {
        assert Filter(xs, keep) == Filter(init, keep);
      }
    }
  }

  /** The strings `f` gives the elements of `xs`, joined in order. */
  function Concat<T>(xs: seq<T>, f: T -> string): string {
    if xs == [] then "" else Concat(xs[..|xs| - 1], f) + f(xs[|xs| - 1])
  }

  lemma ConcatSnoc<T>(xs: seq<T>, x: T, f: T -> string)
    ensures Concat(xs + [x], f) == Concat(xs, f) + f(x)
  {
    assert (xs + [x])[..|xs|] == xs;
  }

  lemma {:induction false} ConcatAppend<T>(a: seq<T>, b: seq<T>, f: T -> string)
    ensures Concat(a + b, f) == Concat(a, f) + Concat(b, f)
  {
    if b != [] {
      var init := b[..|b| - 1];
      assert (a + b)[..|a + b| - 1] == a + init;
      ConcatAppend(a, init, f);
    } else {
      assert a + b == a;
    }
  }

  /** The values `f` yields on the elements of `xs` where it yields one, in order. */
  function Collect<A, B>(xs: seq<A>, f: A -> Option<B>): seq<B> {
    if xs == [] then []
    else
      var y := f(xs[|xs| - 1]);
      Collect(xs[..|xs| - 1], f) + if y.Some? then [y.value] else []
  }

  lemma {:induction false} CollectMembers<A, B>(xs: seq<A>, f: A -> Option<B>, y: B)
    ensures y in Collect(xs, f) <==> exists i :: 0 <= i < |xs| && f(xs[i]) == Some(y)
  {
    if xs != [] {
      var init := xs[..|xs| - 1];
      CollectMembers(init, f, y);
      assert forall i :: 0 <= i < |init| ==> init[i] == xs[i];
    }
  }

  lemma CollectSnoc<A, B>(xs: seq<A>, x: A, f: A -> Option<B>)
    ensures f(x).Some? ==> Collect(xs + [x], f) == Collect(xs, f) + [f(x).value]
    ensures f(x).None? ==> Collect(xs + [x], f) == Collect(xs, f)
  {
    assert (xs + [x])[..|xs|] == xs;
    var b := Collect(xs, f);
    assert b + [] == b;
  }

  lemma CollectPrefix<A, B>(xs: seq<A>, i: nat, f: A -> Option<B>)
    requires i < |xs|
    ensures f(xs[i]).Some? ==> Collect(xs[..i + 1], f) == Collect(xs[..i], f) + [f(xs[i]).value]
    ensures f(xs[i]).None? ==> Collect(xs[..i + 1], f) == Collect(xs[..i], f)
  {
    assert xs[..i + 1][..i] == xs[..i];
    var b := Collect(xs[..i], f);
    assert b + [] == b;
  }
}
