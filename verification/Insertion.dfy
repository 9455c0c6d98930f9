/** Binary insertion, the base case of every radix engine. */
module Insertion {
  import opened Orders

  /** Where the binary search places `x` within `s[left..right]`. */
  function Position<T>(c: (T, T) -> int, x: T, s: seq<T>, left: nat, right: nat): (k: nat)
    requires left <= right <= |s|
    ensures left <= k <= right
    decreases right - left
  {
    if left < right then
      var mid := left + (right - left) / 2;
      if c(x, s[mid]) < 0 then Position(c, x, s, left, mid) else Position(c, x, s, mid + 1, right)
    else left
  }

  function InsertAt<T>(s: seq<T>, k: nat, x: T): seq<T>
    requires k <= |s|
  {
    s[..k] + [x] + s[k..]
  }

  /** What binary insertion makes of `s`, whatever the comparator answers. */
  function Inserted<T>(c: (T, T) -> int, s: seq<T>): (r: seq<T>)
    ensures |r| == |s|
  {
    if s == [] then []
    else
      var t := Inserted(c, s[..|s| - 1]);
      InsertAt(t, Position(c, s[|s| - 1], t, 0, |t|), s[|s| - 1])
  }

  function Reverse<T>(s: seq<T>): (r: seq<T>)
    ensures |r| == |s|
    ensures forall i :: 0 <= i < |s| ==> r[i] == s[|s| - 1 - i]
  {
    if s == [] then [] else [s[|s| - 1]] + Reverse(s[..|s| - 1])
  }

  lemma {:induction false} InsertedPermutes<T>(c: (T, T) -> int, s: seq<T>)
    ensures multiset(Inserted(c, s)) == multiset(s)
  {
    if s != [] {
      var n := |s| - 1;
      hide Position, Inserted;
      InsertedPermutes(c, s[..n]);
      var t := Inserted(c, s[..n]);
      InsertedLast(c, s);
      InsertAtPermutes(t, Position(c, s[n], t, 0, |t|), s[n]);
      assert s == s[..n] + [s[n]];
    }
  }

  lemma InsertAtPermutes<T>(t: seq<T>, k: nat, x: T)
    requires k <= |t|
    ensures multiset(InsertAt(t, k, x)) == multiset(t) + multiset{x}
  {
    assert t == t[..k] + t[k..];
  }

  /** With a preorder and a sorted sequence the search finds the upper bound. */
  lemma {:induction false} PositionIsUpperBound<T(!new)>(c: (T, T) -> int, x: T, s: seq<T>, left: nat, right: nat)
    requires TotalPreorder(c) && Sorted(c, s)
    requires left <= right <= |s|
    requires forall i :: 0 <= i < left ==> c(s[i], x) <= 0
    requires forall i :: right <= i < |s| ==> c(x, s[i]) < 0
    ensures var k := Position(c, x, s, left, right);
      && (forall i :: 0 <= i < k ==> c(s[i], x) <= 0)
      && (forall i :: k <= i < |s| ==> c(x, s[i]) < 0)
    decreases right - left
  {
    if left < right {
      var mid := left + (right - left) / 2;
      PositionStep(c, x, s, left, right);
      hide Position;
      if c(x, s[mid]) < 0 {
        AboveFrom(c, x, s, mid);
        PositionIsUpperBound(c, x, s, left, mid);
      } else {
        BelowTo(c, x, s, mid);
        PositionIsUpperBound(c, x, s, mid + 1, right);
      }
    }
  }

  lemma AboveFrom<T(!new)>(c: (T, T) -> int, x: T, s: seq<T>, mid: nat)
    requires TotalPreorder(c) && Sorted(c, s) && mid < |s| && c(x, s[mid]) < 0
    ensures forall i :: mid <= i < |s| ==> c(x, s[i]) < 0
  {
    forall i | mid < i < |s| ensures c(x, s[i]) < 0 {
      assert c(s[mid], s[i]) <= 0;
      StrictLeft(c, x, s[mid], s[i]);
    }
  }

  lemma BelowTo<T(!new)>(c: (T, T) -> int, x: T, s: seq<T>, mid: nat)
    requires TotalPreorder(c) && Sorted(c, s) && mid < |s| && c(x, s[mid]) >= 0
    ensures forall i :: 0 <= i <= mid ==> c(s[i], x) <= 0
  {
    assert c(s[mid], x) <= 0;
    forall i | 0 <= i < mid ensures c(s[i], x) <= 0 {
      assert c(s[i], s[mid]) <= 0;
    }
  }

  lemma StrictLeft<T(!new)>(c: (T, T) -> int, x: T, y: T, z: T)
    requires TotalPreorder(c) && c(x, y) < 0 && c(y, z) <= 0
    ensures c(x, z) < 0
  {
    assert c(z, x) <= 0 ==> c(y, x) <= 0;
  }

  lemma {:induction false} InsertEndsAt<T(!new)>(c: (T, T) -> int, s: seq<T>, k: nat, x: T)
    requires k <= |s|
    requires forall i :: 0 <= i < k ==> c(s[i], x) <= 0
    requires forall i :: k <= i < |s| ==> c(s[i], x) > 0
    ensures Insert(c, s, x) == InsertAt(s, k, x)
  {
    if s != [] && k < |s| {
      var n := |s| - 1;
      InsertEndsAt(c, s[..n], k, x);
      assert s[k..] == s[..n][k..] + [s[n]];
    }
  }

  lemma {:induction false} PositionAgrees<T>(c: (T, T) -> int, c': (T, T) -> int, x: T, s: seq<T>, left: nat, right: nat)
    requires left <= right <= |s|
    requires forall y :: y in s ==> c(x, y) == c'(x, y)
    ensures Position(c, x, s, left, right) == Position(c', x, s, left, right)
    decreases right - left
  {
    if left < right {
      var mid := left + (right - left) / 2;
      assert s[mid] in s;
      PositionAgrees(c, c', x, s, left, mid);
      PositionAgrees(c, c', x, s, mid + 1, right);
    }
  }

  /** Where the comparator used agrees with a total preorder `c`, binary
      insertion is the stable sort under `c`. */
  lemma {:induction false} InsertedIsStableSort<T(!new)>(c: (T, T) -> int, c': (T, T) -> int, s: seq<T>)
    requires TotalPreorder(c)
    requires forall x, y :: x in s && y in s ==> c'(x, y) == c(x, y)
    ensures Inserted(c', s) == StableSort(c, s)
  {
    if s != [] {
      var n := |s| - 1;
      var x := s[n];
      InsertedIsStableSort(c, c', s[..n]);
      var t := StableSort(c, s[..n]);
      StableSortStable(c, s[..n]);
      SameClassesPermutes(c, s[..n], t);
      PositionAgrees(c', c, x, t, 0, |t|);
      PositionIsUpperBound(c, x, t, 0, |t|);
      InsertEndsAt(c, t, Position(c, x, t, 0, |t|), x);
    }
  }

  lemma {:induction false} PositionLast<T>(c: (T, T) -> int, x: T, s: seq<T>, left: nat, right: nat)
    requires left <= right <= |s|
    requires forall y :: y in s ==> c(x, y) >= 0
    ensures Position(c, x, s, left, right) == right
    decreases right - left
  {
    if left < right {
      var mid := left + (right - left) / 2;
      assert s[mid] in s;
      PositionLast(c, x, s, mid + 1, right);
    }
  }

  lemma {:induction false} PositionFirst<T>(c: (T, T) -> int, x: T, s: seq<T>, left: nat, right: nat)
    requires left <= right <= |s|
    requires forall y :: y in s ==> c(x, y) < 0
    ensures Position(c, x, s, left, right) == left
    decreases right - left
  {
    if left < right {
      var mid := left + (right - left) / 2;
      assert s[mid] in s;
      PositionFirst(c, x, s, left, mid);
    }
  }

  lemma InsertAtStart<T>(t: seq<T>, x: T)
    ensures InsertAt(t, 0, x) == [x] + t
  {
  }

  lemma InsertAtEnd<T>(t: seq<T>, x: T)
    ensures InsertAt(t, |t|, x) == t + [x]
  {
  }

  /** A comparator that never answers "less" leaves the input as it is... */
  lemma {:induction false} InsertedNeverLess<T>(c: (T, T) -> int, s: seq<T>)
    requires forall x, y :: x in s && y in s ==> c(x, y) >= 0
    ensures Inserted(c, s) == s
  {
    if s != [] {
      var n := |s| - 1;
      hide *;
      InsertedNeverLess(c, s[..n]);
      PositionLast(c, s[n], s[..n], 0, n);
      InsertedLast(c, s);
      InsertAtEnd(s[..n], s[n]);
      assert s == s[..n] + [s[n]];
    }
  }

  /** ...and one that always answers "less" reverses it. */
  lemma {:induction false} InsertedAlwaysLess<T>(c: (T, T) -> int, s: seq<T>)
    requires forall x, y :: x in s && y in s ==> c(x, y) < 0
    ensures Inserted(c, s) == Reverse(s)
  {
    if s != [] {
      var n := |s| - 1;
      hide *;
      InsertedAlwaysLess(c, s[..n]);
      var t := Reverse(s[..n]);
      forall y | y in t ensures c(s[n], y) < 0 {
        var i :| 0 <= i < |t| && t[i] == y;
        assert y == s[..n][n - 1 - i];
      }
      PositionFirst(c, s[n], t, 0, n);
      InsertedLast(c, s);
      InsertAtStart(t, s[n]);
      ReverseStep(s);
    }
  }

  lemma InsertedLast<T>(c: (T, T) -> int, s: seq<T>)
    requires s != []
    ensures var t := Inserted(c, s[..|s| - 1]); Inserted(c, s) == InsertAt(t, Position(c, s[|s| - 1], t, 0, |t|), s[|s| - 1])
  {
  }

  lemma ReverseStep<T>(s: seq<T>)
    requires s != []
    ensures Reverse(s) == [s[|s| - 1]] + Reverse(s[..|s| - 1])
  {
  }

  lemma PositionStep<T>(c: (T, T) -> int, x: T, s: seq<T>, left: nat, right: nat)
    requires left < right <= |s|
    ensures var mid := left + (right - left) / 2;
      Position(c, x, s, left, right) == if c(x, s[mid]) < 0 then Position(c, x, s, left, mid) else Position(c, x, s, mid + 1, right)
  {
  }

  method FindPosition<T>(items: array<T>, lo: nat, i: nat, line: T, c: (T, T) -> int) returns (left: nat)
    requires lo <= i <= items.Length
    ensures lo <= left <= i && left - lo == Position(c, line, items[lo..i], 0, i - lo)
  {
    hide *;
    left := lo;
    var right := i;
    ghost var s := items[lo..i];
    while left < right
      invariant lo <= left <= right <= i
      invariant Position(c, line, s, 0, i - lo) == Position(c, line, s, left - lo, right - lo)
    {
      var mid := left + (right - left) / 2;
      PositionStep(c, line, s, left - lo, right - lo);
      assert items[mid] == s[mid - lo];
      if c(line, items[mid]) < 0 {
        right := mid;
      } else {
        left := mid + 1;
      }
    }
  }

  /** Shifts `items[left..i]` up by one and stores `line` in the gap. */
  method ShiftIn<T>(items: array<T>, left: nat, i: nat, line: T)
    requires left <= i < items.Length
    modifies items
    ensures items[left] == line
    ensures forall k :: left < k <= i ==> items[k] == old(items[k - 1])
    ensures forall k :: 0 <= k < items.Length && !(left <= k <= i) ==> items[k] == old(items[k])
  {
    var j := i;
    while j > left
      invariant left <= j <= i
      invariant forall k :: 0 <= k <= j ==> items[k] == old(items[k])
      invariant forall k :: i < k < items.Length ==> items[k] == old(items[k])
      invariant forall k :: j < k <= i ==> items[k] == old(items[k - 1])
    {
      items[j] := items[j - 1];
      j := j - 1;
    }
    items[left] := line;
  }

  lemma InsertAtIs<T>(s: seq<T>, k: nat, x: T, r: seq<T>)
    requires k <= |s| && |r| == |s| + 1 && r[k] == x
    requires forall j :: 0 <= j < k ==> r[j] == s[j]
    requires forall j :: k < j < |r| ==> r[j] == s[j - 1]
    ensures r == InsertAt(s, k, x)
  {
  }

  method InsertOne<T>(items: array<T>, lo: nat, i: nat, c: (T, T) -> int, ghost s: seq<T>)
    requires lo <= i < items.Length && s == items[lo..i]
    modifies items
    ensures items[lo..i + 1] == InsertAt(s, Position(c, old(items[i]), s, 0, i - lo), old(items[i]))
    ensures forall k :: 0 <= k < items.Length && !(lo <= k <= i) ==> items[k] == old(items[k])
  {
    hide *;
    var line := items[i];
    var left := FindPosition(items, lo, i, line, c);
    ShiftIn(items, left, i, line);
    ghost var r := items[lo..i + 1];
    forall j | left - lo < j < |r| ensures r[j] == s[j - 1] {
      assert r[j] == items[lo + j] == old(items[lo + j - 1]);
    }
    InsertAtIs(s, left - lo, line, r);
  }

  lemma InsertedStep<T>(c: (T, T) -> int, s: seq<T>, n: nat)
    requires n < |s|
    ensures Inserted(c, s[..n + 1]) == InsertAt(Inserted(c, s[..n]), Position(c, s[n], Inserted(c, s[..n]), 0, n), s[n])
  {
    assert s[..n + 1][..n] == s[..n];
  }

  /** Extends the sorted part `items[lo..i]` by the element at `i`. */
  method InsertNext<T>(items: array<T>, lo: nat, i: nat, c: (T, T) -> int, ghost s: seq<T>)
    requires lo <= i < items.Length && i - lo < |s|
    requires items[lo..i] == Inserted(c, s[..i - lo]) && items[i] == s[i - lo]
    modifies items
    ensures items[lo..i + 1] == Inserted(c, s[..i + 1 - lo])
    ensures forall k :: 0 <= k < items.Length && !(lo <= k <= i) ==> items[k] == old(items[k])
  {
    hide *;
    InsertedStep(c, s, i - lo);
    InsertOne(items, lo, i, c, items[lo..i]);
  }

  method InsertionRange<T>(items: array<T>, lo: nat, hi: nat, c: (T, T) -> int)
    requires lo <= hi <= items.Length
    modifies items
    ensures items[lo..hi] == Inserted(c, old(items[lo..hi]))
    ensures forall k :: 0 <= k < items.Length && !(lo <= k < hi) ==> items[k] == old(items[k])
  {
    hide *;
    ghost var s := items[lo..hi];
    var i := lo;
    while i < hi
      invariant lo <= i <= hi
      invariant items[lo..i] == Inserted(c, s[..i - lo])
      invariant forall k :: 0 <= k < items.Length && !(lo <= k < i) ==> items[k] == old(items[k])
    {
      InsertNext(items, lo, i, c, s);
      i := i + 1;
    }
    assert s[..hi - lo] == s;
  }
}
