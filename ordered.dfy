/**
 * JavaScript objects used as dictionaries and counters. `Object.keys` lists the keys of such an
 * object in first-insertion order and assigning to an existing key keeps its place, so the
 * model keeps the key order next to the values.
 */
module Ordered {

  datatype OMap<V> = OMap(keys: seq<string>, vals: map<string, V>)

  predicate Distinct<T(==)>(s: seq<T>) {
    forall i, j :: 0 <= i < j < |s| ==> s[i] != s[j]
  }

  ghost predicate Valid<V>(m: OMap<V>) {
    Distinct(m.keys) && forall k :: k in m.vals <==> k in m.keys
  }

  function Empty<V>(): (m: OMap<V>)
    ensures Valid(m) && m.keys == [] && m.vals == map[]
  {
    OMap([], map[])
  }

  /** `obj[k] = v`: an existing key keeps its position and takes the new value; a new key goes last. */
  function Put<V>(m: OMap<V>, k: string, v: V): (r: OMap<V>)
    requires Valid(m)
    ensures Valid(r)
    ensures r.vals == m.vals[k := v]
    ensures r.keys == if k in m.vals then m.keys else m.keys + [k]
  {
    OMap(if k in m.vals then m.keys else m.keys + [k], m.vals[k := v])
  }

  // ---------------------------------------------------------------------------------------------
  // Counters: `count[k] = (count[k] || 0) + 1`

  type Tally = OMap<nat>

  function Count(t: Tally, k: string): nat {
    if k in t.vals then t.vals[k] else 0
  }

  function Inc(t: Tally, k: string): (r: Tally)
    requires Valid(t)
    ensures Valid(r)
  {
    Put(t, k, Count(t, k) + 1)
  }

  function SumOver(keys: seq<string>, vals: map<string, nat>): nat {
    if keys == [] then 0
    else SumOver(keys[..|keys| - 1], vals) + (if keys[|keys| - 1] in vals then vals[keys[|keys| - 1]] else 0)
  }

  /** The sum of all counts of a counter. */
  function Total(t: Tally): nat {
    SumOver(t.keys, t.vals)
  }

  lemma {:induction false} SumFrame(keys: seq<string>, vals: map<string, nat>, k: string, v: nat)
    requires k !in keys
    ensures SumOver(keys, vals[k := v]) == SumOver(keys, vals)
  {
    if keys != [] {
      SumFrame(keys[..|keys| - 1], vals, k, v);
    }
  }

  lemma {:induction false} SumBump(keys: seq<string>, vals: map<string, nat>, k: string)
    requires Distinct(keys) && k in keys
    ensures SumOver(keys, vals[k := (if k in vals then vals[k] else 0) + 1]) == SumOver(keys, vals) + 1
  {
    var init := keys[..|keys| - 1];
    var last := keys[|keys| - 1];
    var v := (if k in vals then vals[k] else 0) + 1;
    if last == k {
      assert k !in init;
      SumFrame(init, vals, k, v);
    } else {
      assert k in init by {
        var i :| 0 <= i < |keys| && keys[i] == k;
        assert i < |keys| - 1 && init[i] == k;
      }
      SumBump(init, vals, k);
    }
  }

  /** Incrementing a counter adds exactly one to the sum of its counts. */
  lemma IncTotal(t: Tally, k: string)
    requires Valid(t)
    ensures Total(Inc(t, k)) == Total(t) + 1
  {
    if k in t.vals {
      SumBump(t.keys, t.vals, k);
    } else {
      SumFrame(t.keys, t.vals, k, 1);
      assert (t.keys + [k])[..|t.keys|] == t.keys;
    }
  }

  /** The counter a `forEach` of increments over `xs` leaves behind. */
  function TallyOf(xs: seq<string>): (t: Tally)
    ensures Valid(t)
  {
    if xs == [] then Empty() else Inc(TallyOf(xs[..|xs| - 1]), xs[|xs| - 1])
  }

  lemma TallySnoc(xs: seq<string>, x: string)
    ensures TallyOf(xs + [x]) == Inc(TallyOf(xs), x)
  {
    assert (xs + [x])[..|xs|] == xs;
  }

  /** The counts sum to the number of items counted. */
  lemma {:induction false} TallyTotal(xs: seq<string>)
    ensures Total(TallyOf(xs)) == |xs|
  {
    if xs != [] {
      TallyTotal(xs[..|xs| - 1]);
      IncTotal(TallyOf(xs[..|xs| - 1]), xs[|xs| - 1]);
    }
  }

  /** Every item is a key, every key is an item, and each count is the item's multiplicity. */
  lemma {:induction false} TallyCounts(xs: seq<string>, k: string)
    ensures k in TallyOf(xs).vals <==> k in xs
    ensures Count(TallyOf(xs), k) == multiset(xs)[k]
  {
    if xs != [] {
      var init := xs[..|xs| - 1];
      TallyCounts(init, k);
      assert xs == init + [xs[|xs| - 1]];
    }
  }

  /** The distinct items of `xs` in order of first appearance: `Array.from(new Set(xs))`. */
  function Dedup(xs: seq<string>): (r: seq<string>)
    ensures Distinct(r)
    ensures forall x :: x in r <==> x in xs
  {
    if xs == [] then []
    else
      var d := Dedup(xs[..|xs| - 1]);
      assert forall x :: x in xs <==> x in xs[..|xs| - 1] || x == xs[|xs| - 1] by {
        assert xs == xs[..|xs| - 1] + [xs[|xs| - 1]];
      }
      if xs[|xs| - 1] in d then d else d + [xs[|xs| - 1]]
  }

  lemma DedupSnoc(xs: seq<string>, x: string)
    ensures Dedup(xs + [x]) == if x in Dedup(xs) then Dedup(xs) else Dedup(xs) + [x]
  {
    assert (xs + [x])[..|xs|] == xs;
  }

  /** A counter lists its keys in order of first increment. */
  lemma {:induction false} TallyKeys(xs: seq<string>)
    ensures TallyOf(xs).keys == Dedup(xs)
  {
    if xs != [] {
      TallyKeys(xs[..|xs| - 1]);
    }
  }

  // ---------------------------------------------------------------------------------------------
  // Breakdowns: `Object.keys(count).map(k => ({ name: k, value: count[k] }))`

  function Pairs(t: Tally): (ps: seq<(string, nat)>)
    ensures |ps| == |t.keys|
    ensures forall i :: 0 <= i < |ps| ==> ps[i] == (t.keys[i], Count(t, t.keys[i]))
  {
    seq(|t.keys|, i requires 0 <= i < |t.keys| => (t.keys[i], Count(t, t.keys[i])))
  }

  function SumValues(ps: seq<(string, nat)>): nat {
    if ps == [] then 0 else SumValues(ps[..|ps| - 1]) + ps[|ps| - 1].1
  }

  lemma {:induction false} PairsSum(t: Tally)
    ensures SumValues(Pairs(t)) == Total(t)
  {
    PairsSumUpTo(t, |t.keys|);
    assert t.keys[..|t.keys|] == t.keys;
    assert Pairs(t)[..|t.keys|] == Pairs(t);
  }

  lemma {:induction false} PairsSumUpTo(t: Tally, n: nat)
    requires n <= |t.keys|
    ensures SumValues(Pairs(t)[..n]) == SumOver(t.keys[..n], t.vals)
  {
    if n > 0 {
      PairsSumUpTo(t, n - 1);
      assert Pairs(t)[..n][..n - 1] == Pairs(t)[..n - 1];
      assert t.keys[..n][..n - 1] == t.keys[..n - 1];
    }
  }

  predicate SortedDesc(s: seq<(string, nat)>) {
    forall i, j :: 0 <= i < j < |s| ==> s[i].1 >= s[j].1
  }

  /** Places `x` before the first element whose value does not exceed its own. */
  function InsertDesc(x: (string, nat), s: seq<(string, nat)>): (r: seq<(string, nat)>)
    requires SortedDesc(s)
    ensures SortedDesc(r) && multiset(r) == multiset(s) + multiset{x} && |r| == |s| + 1
    ensures r[0] == x || (s != [] && r[0] == s[0])
  {
    if s == [] || s[0].1 <= x.1 then [x] + s
    else
      var rest := InsertDesc(x, s[1..]);
      InsertStep(x, s, rest);
      [s[0]] + rest
  }

  /** Keeping the head in front of the insertion into the tail keeps the order and the elements. */
  lemma InsertStep(x: (string, nat), s: seq<(string, nat)>, rest: seq<(string, nat)>)
    requires SortedDesc(s) && s != [] && x.1 < s[0].1
    requires SortedDesc(rest) && multiset(rest) == multiset(s[1..]) + multiset{x} && |rest| == |s|
    ensures var r := [s[0]] + rest; SortedDesc(r) && multiset(r) == multiset(s) + multiset{x}
  {
    assert s == [s[0]] + s[1..];
    BoundedBy(s[0], rest, s[1..], x);
    ConsSorted(s[0], rest);
  }

  /** An element of `s1` or `x` is no larger than `h` when they all are. */
  lemma BoundedBy(h: (string, nat), r: seq<(string, nat)>, s1: seq<(string, nat)>, x: (string, nat))
    requires SortedDesc([h] + s1) && x.1 < h.1
    requires multiset(r) == multiset(s1) + multiset{x}
    ensures forall k :: 0 <= k < |r| ==> r[k].1 <= h.1
  {
    forall k | 0 <= k < |r| ensures r[k].1 <= h.1 {
      assert r[k] in multiset(r);
      if r[k] != x {
        assert r[k] in multiset(s1);
        var e :| 0 <= e < |s1| && s1[e] == r[k];
        assert ([h] + s1)[e + 1] == s1[e] && ([h] + s1)[0] == h;
      }
    }
  }

  lemma ConsSorted(h: (string, nat), r: seq<(string, nat)>)
    requires SortedDesc(r) && forall k :: 0 <= k < |r| ==> r[k].1 <= h.1
    ensures SortedDesc([h] + r)
  {
  }

  /**
   * `sort((a, b) => b.value - a.value)`: JavaScript's sort is stable, and inserting each element
   * before the equal-valued elements that come after it in the input is the stable order.
   */
  function SortDesc(s: seq<(string, nat)>): (r: seq<(string, nat)>)
    ensures SortedDesc(r) && multiset(r) == multiset(s) && |r| == |s|
  {
    if s == [] then []
    else
      assert s == [s[0]] + s[1..];
      InsertDesc(s[0], SortDesc(s[1..]))
  }

  /** `slice(0, n)`. */
  function Take<T>(s: seq<T>, n: nat): (r: seq<T>)
    ensures |r| == if |s| < n then |s| else n
    ensures r == s[..|r|]
  {
    if |s| <= n then s else s[..n]
  }

  /** `.sort(desc).slice(0, n)`: the n largest values in descending order. */
  function Top(s: seq<(string, nat)>, n: nat): seq<(string, nat)> {
    Take(SortDesc(s), n)
  }

  lemma SplitMultiset<T>(t: seq<T>, k: nat)
    requires k <= |t|
    ensures multiset(t) - multiset(t[..k]) == multiset(t[k..])
    ensures multiset(t[..k]) <= multiset(t)
  {
    assert t == t[..k] + t[k..];
  }

  lemma PrefixDominates(t: seq<(string, nat)>, k: nat)
    requires SortedDesc(t) && k <= |t|
    ensures forall e, i :: e in multiset(t[k..]) && 0 <= i < k ==> e.1 <= t[i].1
  {
    forall e, i | e in multiset(t[k..]) && 0 <= i < k ensures e.1 <= t[i].1 {
      assert e in t[k..];
      var j :| 0 <= j < |t| - k && t[k..][j] == e;
      assert t[k + j] == e;
    }
  }

  /**
   * The top-n breakdown keeps min(n, |s|) entries of `s`, sorted by descending value, and every
   * entry it leaves out has a value no larger than any entry it keeps.
   */
  lemma TopIsTop(s: seq<(string, nat)>, n: nat, r: seq<(string, nat)>)
    requires r == Top(s, n)
    ensures |r| == if |s| < n then |s| else n
    ensures SortedDesc(r)
    ensures multiset(r) <= multiset(s)
    ensures forall e, i :: e in multiset(s) - multiset(r) && 0 <= i < |r| ==> e.1 <= r[i].1
  {
    var t := SortDesc(s);
    var k := |r|;
    assert r == t[..k];
    SortedPrefix(t, k);
    SplitMultiset(t, k);
    LeftOutDominated(t, k);
  }

  lemma SortedPrefix(t: seq<(string, nat)>, k: nat)
    requires SortedDesc(t) && k <= |t|
    ensures SortedDesc(t[..k])
  {
  }

  /** What a prefix of a sorted sequence leaves out is no larger than anything in the prefix. */
  lemma LeftOutDominated(t: seq<(string, nat)>, k: nat)
    requires SortedDesc(t) && k <= |t|
    ensures forall e, i :: e in multiset(t) - multiset(t[..k]) && 0 <= i < k ==> e.1 <= t[..k][i].1
  {
    SplitMultiset(t, k);
    PrefixDominates(t, k);
    assert forall i :: 0 <= i < k ==> t[..k][i] == t[i];
  }
}
