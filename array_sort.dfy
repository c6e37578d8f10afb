/** The two in-place array operations the expense decoder calls:
    `Array.prototype.sort` with a numeric comparator, which ECMAScript 2019
    and later require to be stable, and `Array.prototype.reverse`. */
module ArraySort {

  /** `x` goes before `y` when its key is smaller, or the keys are equal and
      its tag is smaller. */
  predicate KeyTagLess<T>(key: T -> int, tag: T -> int, x: T, y: T) {
    key(x) < key(y) || (key(x) == key(y) && tag(x) < tag(y))
  }

  ghost predicate TagsIncrease<T>(s: seq<T>, tag: T -> int) {
    forall i, j :: 0 <= i < j < |s| ==> tag(s[i]) < tag(s[j])
  }

  ghost predicate SortedByKeyTag<T>(s: seq<T>, key: T -> int, tag: T -> int) {
    forall i, j :: 0 <= i < j < |s| ==> KeyTagLess(key, tag, s[i], s[j])
  }

  /** The first `n` elements are ordered by key and then by tag. */
  ghost predicate SortedUpTo<T>(s: seq<T>, n: nat, key: T -> int, tag: T -> int)
    requires n <= |s|
  {
    forall p, q :: 0 <= p < q < n ==> KeyTagLess(key, tag, s[p], s[q])
  }

  /** Every tag before position `n` is below every tag from `n` on. */
  ghost predicate TagsSplit<T>(s: seq<T>, n: nat, tag: T -> int) {
    forall p, q :: 0 <= p < n <= q < |s| ==> tag(s[p]) < tag(s[q])
  }

  /** `a.sort((x, y) => key(x) - key(y))`, as a stable insertion sort. The
      ghost `tag` records the input order (it increases along the input), so
      stability reads: afterwards the array is ordered by key, and elements
      with equal keys are still in input order. */
  method SortByKey<T>(a: array<T>, key: T -> int, ghost tag: T -> int)
    requires TagsIncrease(a[..], tag)
    modifies a
    ensures multiset(a[..]) == multiset(old(a[..]))
    ensures SortedByKeyTag(a[..], key, tag)
  {
    var i := 0;
    while i < a.Length
      invariant 0 <= i <= a.Length
      invariant multiset(a[..]) == multiset(old(a[..]))
      invariant SortedUpTo(a[..], i, key, tag)
      invariant TagsSplit(a[..], i, tag)
      invariant a[i..] == old(a[i..])
    {
      NextSplit(a[..], old(a[..]), i, tag);
      Insert(a, i, key, tag);
      i := i + 1;
    }
  }

  /** The unsorted rest still carries increasing tags, so the split moves
      one place right. */
  lemma NextSplit<T>(s: seq<T>, o: seq<T>, i: nat, tag: T -> int)
    requires i < |s| == |o| && s[i..] == o[i..]
    requires TagsSplit(s, i, tag) && TagsIncrease(o, tag)
    ensures TagsSplit(s, i + 1, tag)
  {
    forall p, q | 0 <= p < i + 1 <= q < |s| ensures tag(s[p]) < tag(s[q]) {
      if p == i {
        assert s[p] == o[p] && s[q] == o[q] by {
          assert s[p] == s[i..][0] && s[q] == s[i..][q - i];
        }
      }
    }
  }

  /** One step of the insertion sort: `a[..i]` is sorted and `a[i]` carries
      the largest tag so far; move `a[i]` left past every element with a
      larger key. */
  method Insert<T>(a: array<T>, i: nat, key: T -> int, ghost tag: T -> int)
    requires i < a.Length
    requires SortedUpTo(a[..], i, key, tag)
    requires TagsSplit(a[..], i, tag) && TagsSplit(a[..], i + 1, tag)
    modifies a
    ensures multiset(a[..]) == multiset(old(a[..]))
    ensures a[i + 1..] == old(a[i + 1..])
    ensures SortedUpTo(a[..], i + 1, key, tag)
    ensures TagsSplit(a[..], i + 1, tag)
  {
    var j := i;
    InsertStart(a[..], i, key, tag);
    while j > 0 && key(a[j - 1]) > key(a[j])
      invariant 0 <= j <= i
      invariant Sinking(a[..], old(a[..]), i, j, key, tag)
    {
      ghost var s := a[..];
      SinkStep(s, old(a[..]), i, j, key, tag);
      a[j - 1], a[j] := a[j], a[j - 1];
      assert a[..] == Swap(s, j);
      j := j - 1;
    }
    InsertDone(a[..], old(a[..]), i, j, key, tag);
  }

  /** The state of `Insert`'s loop: the sinking invariant, the same elements
      as at the start, and everything after `i` untouched. */
  ghost predicate Sinking<T>(s: seq<T>, start: seq<T>, i: nat, j: nat, key: T -> int, tag: T -> int) {
    && InsertInv(s, i, j, key, tag)
    && multiset(s) == multiset(start)
    && |s| == |start| && s[i + 1..] == start[i + 1..]
  }

  lemma SinkStep<T>(s: seq<T>, start: seq<T>, i: nat, j: nat, key: T -> int, tag: T -> int)
    requires Sinking(s, start, i, j, key, tag)
    requires j > 0 && key(s[j - 1]) > key(s[j])
    ensures Sinking(Swap(s, j), start, i, j - 1, key, tag)
  {
    InsertStep(s, i, j, key, tag);
    SwapKeeps(s, i, j);
  }

  /** `s` with the elements at `j - 1` and `j` exchanged. */
  function Swap<T>(s: seq<T>, j: nat): seq<T>
    requires 0 < j < |s|
  {
    s[j - 1 := s[j]][j := s[j - 1]]
  }

  lemma SwapKeeps<T>(s: seq<T>, i: nat, j: nat)
    requires 0 < j <= i < |s|
    ensures multiset(Swap(s, j)) == multiset(s)
    ensures Swap(s, j)[i + 1..] == s[i + 1..]
  {
  }

  /** While `a[i]` sinks to position `j`: the other elements of `a[..i + 1]`
      are ordered, `a[j]` goes before all of them to its right and has the
      largest tag among them, and every tag up to `i` is below the tags
      after `i`. */
  ghost predicate InsertInv<T>(s: seq<T>, i: nat, j: nat, key: T -> int, tag: T -> int) {
    && j <= i < |s|
    && (forall p, q :: 0 <= p < q <= i && p != j && q != j ==> KeyTagLess(key, tag, s[p], s[q]))
    && (forall q :: j < q <= i ==> KeyTagLess(key, tag, s[j], s[q]))
    && (forall p :: 0 <= p <= i && p != j ==> tag(s[p]) < tag(s[j]))
    && TagsSplit(s, i + 1, tag)
  }

  lemma InsertStart<T>(s: seq<T>, i: nat, key: T -> int, tag: T -> int)
    requires i < |s| && SortedUpTo(s, i, key, tag)
    requires TagsSplit(s, i, tag) && TagsSplit(s, i + 1, tag)
    ensures Sinking(s, s, i, i, key, tag)
  {
  }

  lemma InsertStep<T>(s: seq<T>, i: nat, j: nat, key: T -> int, tag: T -> int)
    requires InsertInv(s, i, j, key, tag)
    requires j > 0 && key(s[j - 1]) > key(s[j])
    ensures InsertInv(Swap(s, j), i, j - 1, key, tag)
  {
  }

  lemma InsertDone<T>(s: seq<T>, start: seq<T>, i: nat, j: nat, key: T -> int, tag: T -> int)
    requires Sinking(s, start, i, j, key, tag)
    requires j == 0 || key(s[j - 1]) <= key(s[j])
    ensures SortedUpTo(s, i + 1, key, tag) && TagsSplit(s, i + 1, tag)
    ensures multiset(s) == multiset(start) && s[i + 1..] == start[i + 1..]
  {
  }

  /** `a.reverse()`. */
  method Reverse<T>(a: array<T>)
    modifies a
    ensures forall k :: 0 <= k < a.Length ==> a[k] == old(a[a.Length - 1 - k])
    ensures multiset(a[..]) == multiset(old(a[..]))
  {
    var n := a.Length;
    var i := 0;
    while i < n / 2
      invariant 0 <= i <= n / 2
      invariant Reversing(a[..], old(a[..]), i)
    {
      ghost var s := a[..];
      a[i], a[n - 1 - i] := a[n - 1 - i], a[i];
      ReverseStep(s, a[..], old(a[..]), i);
      i := i + 1;
    }
    ReverseDone(a[..], old(a[..]), i);
  }

  /** The reversal so far: the outer `i` pairs are exchanged, the middle
      is untouched, and the elements are the same. */
  ghost predicate Reversing<T>(s: seq<T>, start: seq<T>, i: int) {
    var n := |start|;
    |s| == n && 0 <= i <= n / 2 && multiset(s) == multiset(start)
    && (forall k :: 0 <= k < i ==> s[k] == start[n - 1 - k] && s[n - 1 - k] == start[k])
    && (forall k :: i <= k < n - i ==> s[k] == start[k])
  }

  lemma ReverseStep<T>(s: seq<T>, t: seq<T>, start: seq<T>, i: int)
    requires Reversing(s, start, i) && i < |s| / 2
    requires t == s[i := s[|s| - 1 - i]][|s| - 1 - i := s[i]]
    ensures Reversing(t, start, i + 1)
  {
    var n := |s|;
    assert multiset(t) == multiset(s) by {
      SwapMultiset(s, i, n - 1 - i);
    }
  }

  /** Exchanging two elements keeps the multiset. */
  lemma SwapMultiset<T>(s: seq<T>, i: int, j: int)
    requires 0 <= i < j < |s|
    ensures multiset(s[i := s[j]][j := s[i]]) == multiset(s)
  {
  }

  lemma ReverseDone<T>(s: seq<T>, start: seq<T>, i: int)
    requires Reversing(s, start, i) && i == |start| / 2
    ensures forall k :: 0 <= k < |s| ==> s[k] == start[|s| - 1 - k]
    ensures multiset(s) == multiset(start)
  {
    var n := |s|;
    forall k | 0 <= k < n ensures s[k] == start[n - 1 - k] {
      if k >= n - i {
        assert 0 <= n - 1 - k < i;
      }
    }
  }
}
