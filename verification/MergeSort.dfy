/** The scalar engine (src/sort.c): a top-down merge sort through an auxiliary
    array.  It is the program's own oracle for every other engine. */
module MergeSort {
  import opened Arrays
  import opened Orders

  function Merge<T>(c: (T, T) -> int, a: seq<T>, b: seq<T>): (r: seq<T>)
    ensures |r| == |a| + |b|
  {
    if a == [] then b
    else if b == [] then a
    else if c(a[0], b[0]) <= 0 then [a[0]] + Merge(c, a[1..], b)
    else [b[0]] + Merge(c, a, b[1..])
  }

  lemma {:induction false} MergeMembers<T>(c: (T, T) -> int, a: seq<T>, b: seq<T>, x: T)
    ensures x in Merge(c, a, b) <==> x in a || x in b
  {
    if a != [] && b != [] {
      if c(a[0], b[0]) <= 0 {
        MergeMembers(c, a[1..], b, x);
        assert a == [a[0]] + a[1..];
      } else {
        MergeMembers(c, a, b[1..], x);
        assert b == [b[0]] + b[1..];
      }
    }
  }

  lemma SortedCons<T>(c: (T, T) -> int, x: T, s: seq<T>)
    requires Sorted(c, s)
    requires forall y :: y in s ==> c(x, y) <= 0
    ensures Sorted(c, [x] + s)
  {
  }

  lemma BoundsTail<T(!new)>(c: (T, T) -> int, x: T, s: seq<T>, y: T)
    requires TotalPreorder(c) && Sorted(c, s) && s != [] && c(x, s[0]) <= 0 && y in s
    ensures c(x, y) <= 0
  {
    var i :| 0 <= i < |s| && s[i] == y;
    assert i > 0 ==> c(s[0], s[i]) <= 0;
  }

  /** Nothing left of `x` is like it, so `x` may move across `a`. */
  lemma PullForward<T(!new)>(c: (T, T) -> int, g: T, a: seq<T>, x: T)
    requires TotalPreorder(c)
    requires forall y :: y in a ==> c(x, y) < 0
    ensures Project(c, g, a + [x]) == Project(c, g, [x] + a)
  {
    FilterConcat(Like(c, g), a, [x]);
    FilterConcat(Like(c, g), [x], a);
    if c(x, g) == 0 {
      forall y | y in a ensures !Like(c, g)(y) { LikeTransitive(c, x, y, g); }
      FilterNone(Like(c, g), a);
    }
  }

  lemma {:induction false} MergeSorted<T(!new)>(c: (T, T) -> int, a: seq<T>, b: seq<T>)
    requires TotalPreorder(c) && Sorted(c, a) && Sorted(c, b)
    ensures Sorted(c, Merge(c, a, b))
  {
    if a != [] && b != [] {
      hide TotalPreorder;
      if c(a[0], b[0]) <= 0 {
        var m := Merge(c, a[1..], b);
        MergeSorted(c, a[1..], b);
        forall y | y in m ensures c(a[0], y) <= 0 {
          MergeMembers(c, a[1..], b, y);
          if y in b { BoundsTail(c, a[0], b, y); }
        }
        SortedCons(c, a[0], m);
      } else {
        var m := Merge(c, a, b[1..]);
        MergeSorted(c, a, b[1..]);
        FlipStrict(c, a[0], b[0]);
        forall y | y in m ensures c(b[0], y) <= 0 {
          MergeMembers(c, a, b[1..], y);
          if y in a { BoundsTail(c, b[0], a, y); }
        }
        SortedCons(c, b[0], m);
      }
    }
  }

  lemma FlipStrict<T(!new)>(c: (T, T) -> int, x: T, y: T)
    requires TotalPreorder(c) && c(x, y) > 0
    ensures c(y, x) < 0
  {
  }

  lemma StrictBoundsTail<T(!new)>(c: (T, T) -> int, x: T, s: seq<T>, y: T)
    requires TotalPreorder(c) && Sorted(c, s) && s != [] && c(x, s[0]) < 0 && y in s
    ensures c(x, y) < 0
  {
    var i :| 0 <= i < |s| && s[i] == y;
    assert i > 0 ==> c(s[0], s[i]) <= 0;
    assert c(s[0], x) > 0;
  }

  lemma {:induction false} MergeKeepsClass<T(!new)>(c: (T, T) -> int, g: T, a: seq<T>, b: seq<T>)
    requires TotalPreorder(c) && Sorted(c, a)
    ensures Project(c, g, a + b) == Project(c, g, Merge(c, a, b))
  {
    hide TotalPreorder;
    hide Filter;
    if a == [] {
      assert a + b == b;
    } else if b == [] {
      assert a + b == a;
    } else if c(a[0], b[0]) <= 0 {
      MergeKeepsClass(c, g, a[1..], b);
      assert a + b == [a[0]] + (a[1..] + b);
      FilterConcat(Like(c, g), [a[0]], a[1..] + b);
      FilterConcat(Like(c, g), [a[0]], Merge(c, a[1..], b));
    } else {
      MergeKeepsClass(c, g, a, b[1..]);
      FlipStrict(c, a[0], b[0]);
      forall y | y in a ensures c(b[0], y) < 0 { StrictBoundsTail(c, b[0], a, y); }
      PullForward(c, g, a, b[0]);
      assert a + b == (a + [b[0]]) + b[1..];
      assert [b[0]] + (a + b[1..]) == ([b[0]] + a) + b[1..];
      FilterConcat(Like(c, g), a + [b[0]], b[1..]);
      FilterConcat(Like(c, g), [b[0]] + a, b[1..]);
      FilterConcat(Like(c, g), [b[0]], a + b[1..]);
      FilterConcat(Like(c, g), [b[0]], Merge(c, a, b[1..]));
    }
  }

  /** Merging the stable sorts of two pieces is the stable sort of the whole. */
  lemma MergeOfStableSorts<T(!new)>(c: (T, T) -> int, s1: seq<T>, s2: seq<T>)
    requires TotalPreorder(c)
    ensures Merge(c, StableSort(c, s1), StableSort(c, s2)) == StableSort(c, s1 + s2)
  {
    var a, b := StableSort(c, s1), StableSort(c, s2);
    StableSortStable(c, s1);
    StableSortStable(c, s2);
    hide *;
    MergeIsStable(c, s1, a, s2, b);
    StableSortIs(c, s1 + s2, Merge(c, a, b));
  }

  lemma MergeIsStable<T(!new)>(c: (T, T) -> int, s1: seq<T>, a: seq<T>, s2: seq<T>, b: seq<T>)
    requires TotalPreorder(c) && IsStableSort(c, s1, a) && IsStableSort(c, s2, b)
    ensures IsStableSort(c, s1 + s2, Merge(c, a, b))
  {
    hide TotalPreorder, Project, Merge;
    MergeSorted(c, a, b);
    SameClassesConcat(c, s1, a, s2, b);
    forall g ensures Project(c, g, s1 + s2) == Project(c, g, Merge(c, a, b)) {
      MergeKeepsClass(c, g, a, b);
    }
  }

  /** One step of the merge loop, on the remaining inputs. */
  lemma MergeStep<T>(c: (T, T) -> int, a: seq<T>, b: seq<T>)
    ensures a == [] ==> Merge(c, a, b) == b
    ensures b == [] ==> Merge(c, a, b) == a
    ensures a != [] && b != [] && c(a[0], b[0]) <= 0 ==> Merge(c, a, b) == [a[0]] + Merge(c, a[1..], b)
    ensures a != [] && b != [] && c(a[0], b[0]) > 0 ==> Merge(c, a, b) == [b[0]] + Merge(c, a, b[1..])
  {
  }

  /** The merge loop proper: it stops when one side is used up. */
  method MergeHeads<T>(items: array<T>, aux: array<T>, lo: nat, mid: nat, hi: nat, c: (T, T) -> int)
    returns (left: nat, right: nat, out: nat)
    requires lo <= mid <= hi <= items.Length == aux.Length && items != aux
    modifies aux
    ensures lo <= left <= mid <= right <= hi && out == left + (right - mid)
    ensures left == mid || right == hi
    ensures aux[lo..out] + Merge(c, items[left..mid], items[right..hi]) == Merge(c, items[lo..mid], items[mid..hi])
    ensures forall k :: 0 <= k < aux.Length && !(lo <= k < out) ==> aux[k] == old(aux[k])
  {
    hide *;
    left, right, out := lo, mid, lo;
    ghost var goal := Merge(c, items[lo..mid], items[mid..hi]);
    assert aux[lo..lo] == [];
    while left < mid && right < hi
      invariant lo <= left <= mid <= right <= hi && out == left + (right - mid)
      invariant aux[lo..out] + Merge(c, items[left..mid], items[right..hi]) == goal
      invariant forall k :: 0 <= k < aux.Length && !(lo <= k < out) ==> aux[k] == old(aux[k])
    {
      left, right := MergeOne(items, aux, lo, mid, hi, left, right, out, c);
      out := out + 1;
    }
  }

  /** One turn of the merge loop. */
  method MergeOne<T>(items: array<T>, aux: array<T>, lo: nat, mid: nat, hi: nat, l: nat, r: nat, out: nat, c: (T, T) -> int)
    returns (left: nat, right: nat)
    requires lo <= l < mid <= r < hi <= items.Length == aux.Length && items != aux && out == l + (r - mid)
    modifies aux
    ensures (left == l + 1 && right == r) || (left == l && right == r + 1)
    ensures aux[lo..out + 1] + Merge(c, items[left..mid], items[right..hi]) == old(aux[lo..out]) + Merge(c, items[l..mid], items[r..hi])
    ensures forall k :: 0 <= k < aux.Length && k != out ==> aux[k] == old(aux[k])
  {
    hide *;
    left, right := l, r;
    ghost var a, b, done := items[l..mid], items[r..hi], aux[lo..out];
    MergeStep(c, a, b);
    if c(items[l], items[r]) <= 0 {
      aux[out] := items[l];
      left := l + 1;
      assert a[1..] == items[left..mid];
    } else {
      aux[out] := items[r];
      right := r + 1;
      assert b[1..] == items[right..hi];
    }
    assert aux[lo..out + 1] == done + [aux[out]];
  }

  method MergeIntoAux<T>(items: array<T>, aux: array<T>, lo: nat, mid: nat, hi: nat, c: (T, T) -> int)
    requires lo <= mid <= hi <= items.Length == aux.Length && items != aux
    modifies aux
    ensures aux[lo..hi] == Merge(c, items[lo..mid], items[mid..hi])
    ensures forall k :: 0 <= k < aux.Length && !(lo <= k < hi) ==> aux[k] == old(aux[k])
  {
    hide *;
    var left, right, out := MergeHeads(items, aux, lo, mid, hi, c);
    ghost var done, a, b := aux[lo..out], items[left..mid], items[right..hi];
    MergeStep(c, a, b);
    CopyTail(items, aux, left, mid, lo, out);
    CopyTail(items, aux, right, hi, lo, out + (mid - left));
    assert aux[lo..hi] == done + a + b;
    assert done + a + b == done + Merge(c, a, b);
  }

  /** The two loops that copy what one side has left. */
  method CopyTail<T>(items: array<T>, aux: array<T>, from: nat, end: nat, lo: nat, at: nat)
    requires items != aux && from <= end <= items.Length && lo <= at && at + (end - from) <= aux.Length
    modifies aux
    ensures aux[lo..at + (end - from)] == old(aux[lo..at]) + items[from..end]
    ensures forall k :: 0 <= k < aux.Length && !(at <= k < at + (end - from)) ==> aux[k] == old(aux[k])
  {
    var i := from;
    while i < end
      invariant from <= i <= end
      invariant forall k :: 0 <= k < aux.Length && !(at <= k < at + (i - from)) ==> aux[k] == old(aux[k])
      invariant forall k :: at <= k < at + (i - from) ==> aux[k] == items[k - at + from]
    {
      aux[at + (i - from)] := items[i];
      i := i + 1;
    }
    assert aux[at..at + (end - from)] == items[from..end];
    assert aux[lo..at] == old(aux[lo..at]);
    assert aux[lo..at + (end - from)] == aux[lo..at] + aux[at..at + (end - from)];
  }

  method MergeRanges<T>(items: array<T>, aux: array<T>, lo: nat, mid: nat, hi: nat, c: (T, T) -> int)
    requires lo <= mid <= hi <= items.Length == aux.Length && items != aux
    modifies items, aux
    ensures items[lo..hi] == Merge(c, old(items[lo..mid]), old(items[mid..hi]))
    ensures forall k :: 0 <= k < items.Length && !(lo <= k < hi) ==> items[k] == old(items[k]) && aux[k] == old(aux[k])
  {
    hide *;
    MergeIntoAux(items, aux, lo, mid, hi, c);
    CopyRange(items, aux, lo, hi);
  }

  lemma StableSortSmall<T>(c: (T, T) -> int, s: seq<T>)
    requires |s| < 2
    ensures StableSort(c, s) == s
  {
    if |s| == 1 {
      assert s[..0] == [];
    }
  }

  /** The oracle computes the stable sort of the range and touches nothing
      outside it in either array. */
  method MergeSortRange<T(!new)>(items: array<T>, aux: array<T>, lo: nat, hi: nat, c: (T, T) -> int)
    requires lo <= hi <= items.Length == aux.Length && items != aux
    requires TotalPreorder(c)
    modifies items, aux
    ensures items[lo..hi] == StableSort(c, old(items[lo..hi]))
    ensures forall k :: 0 <= k < items.Length && !(lo <= k < hi) ==> items[k] == old(items[k]) && aux[k] == old(aux[k])
    decreases hi - lo
  {
    hide *;
    ghost var s := items[lo..hi];
    if hi - lo < 2 {
      StableSortSmall(c, s);
      return;
    }
    var mid := lo + (hi - lo) / 2;
    ghost var s1, s2 := items[lo..mid], items[mid..hi];
    assert s == s1 + s2;
    MergeSortRange(items, aux, lo, mid, c);
    assert items[mid..hi] == s2;
    label L:
    MergeSortRange(items, aux, mid, hi, c);
    assert items[lo..mid] == old@L(items[lo..mid]);
    MergeRanges(items, aux, lo, mid, hi, c);
    MergeOfStableSorts(c, s1, s2);
  }
}
