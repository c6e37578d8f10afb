/** `Array.prototype.filter` and `slice(0, n)` on values, with the facts the
    budget and drill-down views rely on. */
module Seqs {

  /** The elements of `s` that satisfy `p`, in their order in `s`. */
  function Filter<T>(s: seq<T>, p: T -> bool): (r: seq<T>)
    ensures |r| <= |s|
    ensures multiset(r) <= multiset(s)
    ensures forall k :: 0 <= k < |r| ==> p(r[k])
  {
    if s == [] then []
    else
      assert s == [s[0]] + s[1..];
      (if p(s[0]) then [s[0]] else []) + Filter(s[1..], p)
  }

  /** `slice(0, n)`: the first `n` elements, or all of them when there are fewer. */
  function Take<T>(s: seq<T>, n: nat): (r: seq<T>)
    ensures |r| == if |s| < n then |s| else n
    ensures r == s[..|r|]
  {
    if |s| <= n then s else s[..n]
  }

  /** `Array.prototype.map` with a callback that ignores the index. */
  function Map<T, U>(s: seq<T>, f: T -> U): (r: seq<U>)
    ensures |r| == |s| && forall k :: 0 <= k < |s| ==> r[k] == f(s[k])
  {
    seq(|s|, k requires 0 <= k < |s| => f(s[k]))
  }

  /** Mapping two orderings of the same elements gives two orderings of the
      same images. */
  lemma {:induction false} MapMultiset<T, U>(s: seq<T>, t: seq<T>, f: T -> U)
    requires multiset(s) == multiset(t)
    ensures multiset(Map(s, f)) == multiset(Map(t, f))
    decreases |s|
  {
    if s == [] {
      assert |t| == |multiset(t)| == 0;
    } else {
      assert s[0] in t by {
        assert s[0] in multiset(t);
      }
      var i :| 0 <= i < |t| && t[i] == s[0];
      var rest := t[..i] + t[i + 1..];
      MapRemove(s, 0, s[1..], f);
      MapRemove(t, i, rest, f);
      MapMultiset(s[1..], rest, f);
    }
  }

  /** Taking out the element at `i` takes it, and its image, out of the
      multisets. */
  lemma MapRemove<T, U>(t: seq<T>, i: nat, rest: seq<T>, f: T -> U)
    requires i < |t| && rest == t[..i] + t[i + 1..]
    ensures multiset(rest) == multiset(t) - multiset{t[i]}
    ensures multiset(Map(t, f)) == multiset(Map(rest, f)) + multiset{f(t[i])}
  {
    var before, after := t[..i], t[i + 1..];
    assert t == before + [t[i]] + after;
    MapSplit(before, t[i], after, f);
  }

  lemma MapSplit<T, U>(before: seq<T>, x: T, after: seq<T>, f: T -> U)
    ensures multiset(Map(before + [x] + after, f)) == multiset(Map(before + after, f)) + multiset{f(x)}
  {
    MapConcat(before + [x], after, f);
    MapConcat(before, [x], f);
    MapConcat(before, after, f);
  }

  lemma MapConcat<T, U>(a: seq<T>, b: seq<T>, f: T -> U)
    ensures Map(a + b, f) == Map(a, f) + Map(b, f)
  {
  }

  /** Filtering distributes over concatenation: what survives keeps the
      order of the input. */
  lemma {:induction false} FilterConcat<T>(s: seq<T>, t: seq<T>, p: T -> bool)
    ensures Filter(s + t, p) == Filter(s, p) + Filter(t, p)
  {
    if s != [] {
      var head := if p(s[0]) then [s[0]] else [];
      ConsConcat(s, t);
      FilterCons(s + t, p);
      FilterCons(s, p);
      FilterConcat(s[1..], t, p);
      ConcatAssoc(head, Filter(s[1..], p), Filter(t, p));
    } else {
      assert s + t == t;
    }
  }

  lemma ConsConcat<T>(s: seq<T>, t: seq<T>)
    requires s != []
    ensures s + t != [] && (s + t)[0] == s[0] && (s + t)[1..] == s[1..] + t
  {
  }

  lemma ConcatAssoc<T>(a: seq<T>, b: seq<T>, c: seq<T>)
    ensures a + (b + c) == (a + b) + c
  {
  }

  /** A one-element list is kept whole or dropped. */
  lemma FilterOne<T>(x: T, p: T -> bool)
    ensures Filter([x], p) == if p(x) then [x] else []
  {
    assert [x][1..] == [];
  }

  /** One step of the filter: the head, when it is kept, then the filtered tail. */
  lemma FilterCons<T>(s: seq<T>, p: T -> bool)
    requires s != []
    ensures Filter(s, p) == (if p(s[0]) then [s[0]] else []) + Filter(s[1..], p)
  {
  }

  /** Filtering keeps every element (with its multiplicity) that satisfies `p`
      and drops the others. */
  lemma {:induction false} FilterMultiset<T>(s: seq<T>, p: T -> bool)
    ensures forall x :: multiset(Filter(s, p))[x] == if p(x) then multiset(s)[x] else 0
  {
    if s != [] {
      FilterMultiset(s[1..], p);
      assert s == [s[0]] + s[1..];
    }
  }

  /** Every element that passes the filter satisfies `q` exactly when every
      element of `s` that satisfies `p` satisfies `q`. */
  lemma FilterAll<T>(s: seq<T>, p: T -> bool, q: T -> bool)
    ensures (forall m :: 0 <= m < |Filter(s, p)| ==> q(Filter(s, p)[m])) <==>
            (forall k :: 0 <= k < |s| && p(s[k]) ==> q(s[k]))
  {
    var r := Filter(s, p);
    if forall m :: 0 <= m < |r| ==> q(r[m]) {
      FilterAllDown(s, p, q);
    } else if forall k :: 0 <= k < |s| && p(s[k]) ==> q(s[k]) {
      FilterAllUp(s, p, q);
    }
  }

  lemma {:induction false} FilterAllDown<T>(s: seq<T>, p: T -> bool, q: T -> bool)
    requires forall m :: 0 <= m < |Filter(s, p)| ==> q(Filter(s, p)[m])
    ensures forall k :: 0 <= k < |s| && p(s[k]) ==> q(s[k])
  {
    if s != [] {
      var r := Filter(s[1..], p);
      var head := if p(s[0]) then [s[0]] else [];
      assert Filter(s, p) == head + r;
      forall m | 0 <= m < |r| ensures q(r[m]) {
        assert r[m] == Filter(s, p)[|head| + m];
      }
      FilterAllDown(s[1..], p, q);
      forall k | 0 < k < |s| && p(s[k]) ensures q(s[k]) {
        assert s[k] == s[1..][k - 1];
      }
      if p(s[0]) {
        assert s[0] == Filter(s, p)[0];
      }
    }
  }

  lemma {:induction false} FilterAllUp<T>(s: seq<T>, p: T -> bool, q: T -> bool)
    requires forall k :: 0 <= k < |s| && p(s[k]) ==> q(s[k])
    ensures forall m :: 0 <= m < |Filter(s, p)| ==> q(Filter(s, p)[m])
  {
    if s != [] {
      var r := Filter(s[1..], p);
      var head := if p(s[0]) then [s[0]] else [];
      assert Filter(s, p) == head + r;
      forall k | 0 <= k < |s[1..]| && p(s[1..][k]) ensures q(s[1..][k]) {
        assert s[1..][k] == s[k + 1];
      }
      FilterAllUp(s[1..], p, q);
      forall m | 0 <= m < |Filter(s, p)| ensures q(Filter(s, p)[m]) {
        if m >= |head| {
          assert Filter(s, p)[m] == r[m - |head|];
        }
      }
    }
  }

  /** Filtering a sequence ordered by `before` (a strict order given as a
      predicate on pairs) gives an ordered sequence. */
  lemma {:induction false} FilterKeepsOrder<T>(s: seq<T>, p: T -> bool, before: (T, T) -> bool)
    requires forall i, j :: 0 <= i < j < |s| ==> before(s[i], s[j])
    ensures forall i, j :: 0 <= i < j < |Filter(s, p)| ==> before(Filter(s, p)[i], Filter(s, p)[j])
  {
    if s != [] {
      FilterKeepsOrder(s[1..], p, before);
      var r := Filter(s[1..], p);
      forall k | 0 <= k < |r| ensures before(s[0], r[k]) {
        assert r[k] in multiset(s[1..]);
      }
    }
  }

  /** Two orderings of the same elements keep equally many of them under a
      filter. */
  lemma SameCount<T>(s: seq<T>, t: seq<T>, p: T -> bool)
    requires multiset(s) == multiset(t)
    ensures |Filter(s, p)| == |Filter(t, p)|
  {
    FilterMultiset(s, p);
    FilterMultiset(t, p);
    assert multiset(Filter(s, p)) == multiset(Filter(t, p));
    assert |Filter(s, p)| == |multiset(Filter(s, p))| == |multiset(Filter(t, p))| == |Filter(t, p)|;
  }

  /** The first `n` elements kept by a filter are elements of any reordering
      of the input. */
  lemma TakeFromFiltered<T>(s: seq<T>, t: seq<T>, p: T -> bool, n: nat)
    requires multiset(s) == multiset(t)
    ensures multiset(Take(Filter(s, p), n)) <= multiset(t)
  {
    var f := Filter(s, p);
    assert multiset(Take(f, n)) <= multiset(f) by {
      TakeMultiset(f, n);
    }
  }

  lemma TakeMultiset<T>(s: seq<T>, n: nat)
    ensures multiset(Take(s, n)) <= multiset(s)
  {
    var r := Take(s, n);
    assert s == r + s[|r|..];
    assert multiset(s) == multiset(r) + multiset(s[|r|..]);
  }

  /** In a sequence ordered by `before`, the first `n` elements come before
      every element that is left out. */
  lemma TakeLeavesLater<T>(s: seq<T>, n: nat, before: (T, T) -> bool, x: T)
    requires forall i, j :: 0 <= i < j < |s| ==> before(s[i], s[j])
    requires x in s && x !in Take(s, n)
    ensures forall k :: 0 <= k < |Take(s, n)| ==> before(Take(s, n)[k], x)
  {
    var r := Take(s, n);
    var m :| 0 <= m < |s| && s[m] == x;
    forall k | 0 <= k < |r| ensures before(r[k], x) {
      assert r[k] == s[k];
    }
  }

  /** Partition count: when every element satisfies exactly one of `p`, `q`
      and `o`, the three filters together keep as many elements as there are. */
  lemma {:induction false} FilterPartition<T>(s: seq<T>, p: T -> bool, q: T -> bool, o: T -> bool)
    requires forall k :: 0 <= k < |s| ==> (p(s[k]) || q(s[k]) || o(s[k]))
    requires forall k :: 0 <= k < |s| ==> !(p(s[k]) && q(s[k])) && !(p(s[k]) && o(s[k])) && !(q(s[k]) && o(s[k]))
    ensures |Filter(s, p)| + |Filter(s, q)| + |Filter(s, o)| == |s|
  {
    if s != [] {
      assert forall k :: 0 <= k < |s[1..]| ==> s[1..][k] == s[k + 1];
      FilterPartition(s[1..], p, q, o);
    }
  }

  /** Every element comes before every later one. */
  predicate Increasing<T>(s: seq<T>, less: (T, T) -> bool) {
    forall i, j :: 0 <= i < j < |s| ==> less(s[i], s[j])
  }

  /** Two orderings of the same elements that are both increasing for an
      asymmetric relation (a strict order, say) are the same sequence: such
      an order leaves a sort no choice. */
  lemma {:induction false} SortedPermutationsEqual<T>(s: seq<T>, t: seq<T>, less: (T, T) -> bool)
    requires multiset(s) == multiset(t)
    requires Increasing(s, less) && Increasing(t, less)
    requires forall x, y :: less(x, y) ==> !less(y, x)
    ensures s == t
  {
    if s == [] {
      assert |t| == |multiset(t)| == 0;
    } else {
      SortedHeadsEqual(s, t, less);
      TailMultiset(s, t);
      SortedTail(s, less);
      SortedTail(t, less);
      SortedPermutationsEqual(s[1..], t[1..], less);
      assert s == [s[0]] + s[1..] && t == [t[0]] + t[1..];
    }
  }

  lemma TailMultiset<T>(s: seq<T>, t: seq<T>)
    requires s != [] && t != [] && s[0] == t[0] && multiset(s) == multiset(t)
    ensures multiset(s[1..]) == multiset(t[1..])
  {
    assert s == [s[0]] + s[1..] && t == [t[0]] + t[1..];
    assert multiset(s[1..]) == multiset(s) - multiset{s[0]};
    assert multiset(t[1..]) == multiset(t) - multiset{t[0]};
  }

  lemma SortedTail<T>(s: seq<T>, less: (T, T) -> bool)
    requires s != [] && Increasing(s, less)
    ensures Increasing(s[1..], less)
  {
    forall i, j | 0 <= i < j < |s[1..]| ensures less(s[1..][i], s[1..][j]) {
      assert s[1..][i] == s[i + 1] && s[1..][j] == s[j + 1];
    }
  }

  lemma SortedHeadsEqual<T>(s: seq<T>, t: seq<T>, less: (T, T) -> bool)
    requires s != [] && multiset(s) == multiset(t)
    requires Increasing(s, less) && Increasing(t, less)
    requires forall x, y :: less(x, y) ==> !less(y, x)
    ensures t != [] && s[0] == t[0]
  {
    assert s[0] in multiset(t);
    var k :| 0 <= k < |t| && t[k] == s[0];
    assert t[0] in multiset(s);
    var m :| 0 <= m < |s| && s[m] == t[0];
  }
}
