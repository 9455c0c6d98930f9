/** Keeping the first line of every class (`-u`). */
module Unique {
  import opened Insertion
  import opened Orders

  /** Drops whatever compares equal to the last element kept, as the writer does
      with the last line written. */
  function Dedup<T>(c: (T, T) -> int, s: seq<T>): (d: seq<T>)
    ensures |d| <= |s| && (d == [] <==> s == [])
  {
    if s == [] then []
    else
      var d, x := Dedup(c, s[..|s| - 1]), s[|s| - 1];
      if d != [] && c(d[|d| - 1], x) == 0 then d else d + [x]
  }

  function First<T>(s: seq<T>): (r: seq<T>)
    ensures |r| <= 1
  {
    if s == [] then [] else [s[0]]
  }

  /** `t` lists, in order, the first element of every class of `s`. */
  ghost predicate IsUniqueSort<T(!new)>(c: (T, T) -> int, s: seq<T>, t: seq<T>) {
    Sorted(c, t) && forall g :: Project(c, g, t) == First(Project(c, g, s))
  }

  lemma UniqueSortIsUnique<T(!new)>(c: (T, T) -> int, s: seq<T>, t: seq<T>, u: seq<T>)
    requires TotalPreorder(c) && IsUniqueSort(c, s, t) && IsUniqueSort(c, s, u)
    ensures t == u
  {
    hide Project, Sorted, TotalPreorder;
    forall g ensures Project(c, g, t) == Project(c, g, u) {
      assert Project(c, g, t) == First(Project(c, g, s));
      assert Project(c, g, u) == First(Project(c, g, s));
    }
    SameClassesSortedEqual(c, t, u);
  }

  /** The last element kept is like the last element seen. */
  lemma {:induction false} DedupLast<T(!new)>(c: (T, T) -> int, s: seq<T>)
    requires TotalPreorder(c) && s != []
    ensures c(Dedup(c, s)[|Dedup(c, s)| - 1], s[|s| - 1]) == 0
  {
    assert c(s[|s| - 1], s[|s| - 1]) == 0;
  }

  lemma {:induction false} DedupMembers<T(!new)>(c: (T, T) -> int, s: seq<T>, x: T)
    ensures x in Dedup(c, s) ==> x in s
  {
    if s != [] {
      DedupMembers(c, s[..|s| - 1], x);
    }
  }

  lemma {:induction false} DedupSorted<T(!new)>(c: (T, T) -> int, s: seq<T>)
    requires TotalPreorder(c) && Sorted(c, s)
    ensures Sorted(c, Dedup(c, s))
  {
    if s != [] {
      var n := |s| - 1;
      var d := Dedup(c, s[..n]);
      DedupSorted(c, s[..n]);
      if d != [] {
        DedupMembers(c, s[..n], d[|d| - 1]);
        var i :| 0 <= i < n && s[i] == d[|d| - 1];
        assert c(s[i], s[n]) <= 0;
      }
      SortedSnoc(c, d, s[n]);
    }
  }

  lemma ProjectSnoc<T>(c: (T, T) -> int, g: T, s: seq<T>, x: T)
    ensures Project(c, g, s + [x]) == Project(c, g, s) + if c(x, g) == 0 then [x] else []
  {
    assert (s + [x])[..|s|] == s;
  }

  lemma StrictlyBelow<T(!new)>(c: (T, T) -> int, y: T, z: T, x: T)
    requires TotalPreorder(c) && c(y, z) <= 0 && c(z, x) <= 0 && c(z, x) != 0
    ensures c(y, x) != 0
  {
    assert c(x, y) <= 0 ==> c(x, z) <= 0;
    assert c(x, z) > 0;
  }

  /** Nothing below `x` is like it. */
  lemma NoneLike<T(!new)>(c: (T, T) -> int, g: T, s: seq<T>, x: T)
    requires TotalPreorder(c) && Sorted(c, s + [x]) && s != [] && c(s[|s| - 1], x) != 0 && c(x, g) == 0
    ensures Project(c, g, s) == []
  {
    var t := s + [x];
    forall y | y in s ensures !Like(c, g)(y) {
      var i :| 0 <= i < |s| && s[i] == y;
      assert c(t[|s| - 1], t[|s|]) <= 0;
      assert i < |s| - 1 ==> c(t[i], t[|s| - 1]) <= 0;
      assert c(y, y) == 0;
      StrictlyBelow(c, y, s[|s| - 1], x);
      LikeTransitive(c, y, x, g);
    }
    FilterNone(Like(c, g), s);
  }

  lemma LikeEachOther<T(!new)>(c: (T, T) -> int, x: T, y: T, z: T, g: T)
    requires TotalPreorder(c) && c(x, y) == 0 && c(x, z) == 0
    ensures c(y, g) == 0 <==> c(z, g) == 0
  {
    SameSide(c, x, y, g);
    SameSide(c, x, z, g);
  }

  lemma DedupIs<T>(c: (T, T) -> int, s: seq<T>, x: T)
    ensures Dedup(c, s + [x]) ==
            (if Dedup(c, s) != [] && c(Dedup(c, s)[|Dedup(c, s)| - 1], x) == 0 then Dedup(c, s) else Dedup(c, s) + [x])
  {
    assert (s + [x])[..|s|] == s;
  }

  lemma SortedPrefix<T>(c: (T, T) -> int, s: seq<T>, x: T)
    requires Sorted(c, s + [x])
    ensures Sorted(c, s)
  {
    forall i, j | 0 <= i < j < |s| ensures c(s[i], s[j]) <= 0 {
      assert c((s + [x])[i], (s + [x])[j]) <= 0;
    }
  }

  /** The class of the last element of `s` is not empty. */
  lemma LastInClass<T>(c: (T, T) -> int, g: T, s: seq<T>)
    requires s != [] && c(s[|s| - 1], g) == 0
    ensures Project(c, g, s) != []
  {
    FilterMember(Like(c, g), s, s[|s| - 1]);
  }

  /** Of each class, exactly the first element stays. */
  lemma {:induction false} DedupClass<T(!new)>(c: (T, T) -> int, s: seq<T>, g: T)
    requires TotalPreorder(c) && Sorted(c, s)
    ensures Project(c, g, Dedup(c, s)) == First(Project(c, g, s))
    decreases |s|
  {
    if s != [] {
      var s', x := s[..|s| - 1], s[|s| - 1];
      assert s == s' + [x];
      hide TotalPreorder, Sorted, Dedup, Project;
      SortedPrefix(c, s', x);
      DedupClass(c, s', g);
      DedupIs(c, s', x);
      ProjectSnoc(c, g, s', x);
      ProjectSnoc(c, g, Dedup(c, s'), x);
      if s' != [] {
        DedupLast(c, s');
        var last := Dedup(c, s')[|Dedup(c, s')| - 1];
        SameSide(c, last, s'[|s'| - 1], x);
        if c(x, g) == 0 {
          if c(last, x) == 0 {
            LikeEachOther(c, last, s'[|s'| - 1], x, g);
            LastInClass(c, g, s');
          } else {
            NoneLike(c, g, s', x);
          }
        }
      } else {
        EmptyClass(c, g);
      }
    } else {
      EmptyClass(c, g);
    }
  }

  lemma EmptyClass<T>(c: (T, T) -> int, g: T)
    ensures Project(c, g, []) == [] && Dedup(c, []) == []
  {
  }

  lemma DedupIsUniqueSort<T(!new)>(c: (T, T) -> int, s: seq<T>, t: seq<T>)
    requires TotalPreorder(c) && IsStableSort(c, s, t)
    ensures IsUniqueSort(c, s, Dedup(c, t))
  {
    hide TotalPreorder, Sorted, Dedup, Project;
    assert Sorted(c, t);
    DedupSorted(c, t);
    forall g ensures Project(c, g, Dedup(c, t)) == First(Project(c, g, s)) {
      DedupClass(c, t, g);
      assert Project(c, g, s) == Project(c, g, t);
    }
  }

  // ---------- Reversal ----------

  lemma {:induction false} FilterReverse<T>(p: T -> bool, s: seq<T>)
    ensures Filter(p, Reverse(s)) == Reverse(Filter(p, s))
  {
    if s == [] {
      assert Reverse(s) == [];
    } else {
      var n := |s| - 1;
      ReverseStep(s);
      FilterReverse(p, s[..n]);
      FilterConcat(p, [s[n]], Reverse(s[..n]));
      assert [s[n]][..0] == [];
      assert Filter(p, [s[n]]) == if p(s[n]) then [s[n]] else [];
      if p(s[n]) {
        ReverseStep(Filter(p, s[..n]) + [s[n]]);
        assert (Filter(p, s[..n]) + [s[n]])[..|Filter(p, s[..n])|] == Filter(p, s[..n]);
      }
    }
  }

  lemma ProjectReversed<T>(c: (T, T) -> int, g: T, s: seq<T>)
    ensures Project(Reversed(c), g, s) == Project(c, g, s)
  {
    FilterSame(Like(Reversed(c), g), Like(c, g), s);
  }

  lemma SortedReversed<T>(c: (T, T) -> int, s: seq<T>)
    requires Sorted(c, s)
    ensures |Reverse(s)| == |s|
    ensures forall i, j :: 0 <= i < j < |s| ==> c(Reverse(s)[j], Reverse(s)[i]) <= 0
  {
    forall i, j | 0 <= i < j < |s| ensures c(Reverse(s)[j], Reverse(s)[i]) <= 0 {
      assert c(s[|s| - 1 - j], s[|s| - 1 - i]) <= 0;
    }
  }

  lemma ReverseSorted<T(!new)>(c: (T, T) -> int, s: seq<T>)
    requires TotalPreorder(c) && Sorted(c, s)
    ensures Sorted(Reversed(c), Reverse(s))
  {
    SortedReversed(c, s);
    forall i, j | 0 <= i < j < |Reverse(s)| ensures Reversed(c)(Reverse(s)[i], Reverse(s)[j]) <= 0 {
      assert c(Reverse(s)[j], Reverse(s)[i]) <= 0;
    }
  }

  /** Keeping the first of every class and then reversing is what the reversed
      order does when it keeps the first of every class. */
  lemma ReversedUniqueSort<T(!new)>(c: (T, T) -> int, s: seq<T>, t: seq<T>)
    requires TotalPreorder(c) && IsUniqueSort(c, s, t)
    ensures IsUniqueSort(Reversed(c), s, Reverse(t))
  {
    ReverseSorted(c, t);
    hide TotalPreorder, Sorted, Filter, Reverse;
    forall g ensures Project(Reversed(c), g, Reverse(t)) == First(Project(Reversed(c), g, s)) {
      ProjectReversed(c, g, Reverse(t));
      ProjectReversed(c, g, s);
      FilterReverse(Like(c, g), t);
      assert Project(c, g, t) == First(Project(c, g, s));
      ShortReverse(Project(c, g, t));
    }
  }

  lemma ShortReverse<T>(s: seq<T>)
    requires |s| <= 1
    ensures Reverse(s) == s
  {
  }

  // ---------- Agreement and texts ----------

  ghost predicate Agree<T(!new)>(c: (T, T) -> int, d: (T, T) -> int) {
    forall x, y :: c(x, y) == d(x, y)
  }

  lemma {:induction false} InsertAgrees<T(!new)>(c: (T, T) -> int, d: (T, T) -> int, t: seq<T>, x: T)
    requires Agree(c, d)
    ensures Insert(c, t, x) == Insert(d, t, x)
  {
    if t != [] && c(t[|t| - 1], x) > 0 {
      InsertAgrees(c, d, t[..|t| - 1], x);
    }
  }

  lemma {:induction false} StableSortAgrees<T(!new)>(c: (T, T) -> int, d: (T, T) -> int, s: seq<T>)
    requires Agree(c, d)
    ensures StableSort(c, s) == StableSort(d, s)
  {
    if s != [] {
      StableSortAgrees(c, d, s[..|s| - 1]);
      InsertAgrees(c, d, StableSort(c, s[..|s| - 1]), s[|s| - 1]);
    }
  }

  ghost predicate SameZeros<T(!new)>(c: (T, T) -> int, d: (T, T) -> int) {
    forall x, y :: c(x, y) == 0 <==> d(x, y) == 0
  }

  lemma {:induction false} DedupAgrees<T(!new)>(c: (T, T) -> int, d: (T, T) -> int, s: seq<T>)
    requires SameZeros(c, d)
    ensures Dedup(c, s) == Dedup(d, s)
  {
    if s != [] {
      DedupAgrees(c, d, s[..|s| - 1]);
    }
  }

  /** Dropping repeated elements and dropping repeated texts is the same. */
  lemma {:induction false} DedupMap<A, B>(f: A -> B, c: (B, B) -> int, s: seq<A>)
    ensures Map(f, Dedup(Through(f, c), s)) == Dedup(c, Map(f, s))
  {
    if s != [] {
      var n := |s| - 1;
      DedupMap(f, c, s[..n]);
      var d := Dedup(Through(f, c), s[..n]);
      assert Map(f, s)[..n] == Map(f, s[..n]);
      assert Map(f, d + [s[n]]) == Map(f, d) + [f(s[n])];
    }
  }

  lemma MapSplit<A, B>(f: A -> B, a: seq<A>, x: A, b: seq<A>)
    ensures Map(f, a + [x] + b) == Map(f, a) + [f(x)] + Map(f, b)
    ensures Map(f, a + b) == Map(f, a) + Map(f, b)
  {
  }

  lemma {:induction false} MapReverse<A, B>(f: A -> B, s: seq<A>)
    ensures Map(f, Reverse(s)) == Reverse(Map(f, s))
  {
  }

  lemma TakeOut<A>(s: seq<A>, t: seq<A>) returns (i: nat)
    requires multiset(s) == multiset(t) && s != []
    ensures i < |t| && t[i] == s[0] && t == t[..i] + [s[0]] + t[i + 1..]
    ensures multiset(s[1..]) == multiset(t[..i] + t[i + 1..])
  {
    assert s == [s[0]] + s[1..];
    assert s[0] in multiset(t);
    i :| 0 <= i < |t| && t[i] == s[0];
    assert t == t[..i] + [s[0]] + t[i + 1..];
    assert multiset(t) == multiset(t[..i]) + multiset([s[0]]) + multiset(t[i + 1..]);
    assert multiset(t[..i] + t[i + 1..]) == multiset(t) - multiset([s[0]]);
    assert multiset(s[1..]) == multiset(s) - multiset([s[0]]);
  }

  /** Permuted elements have permuted images. */
  lemma {:induction false} MapPermutes<A, B>(f: A -> B, s: seq<A>, t: seq<A>)
    requires multiset(s) == multiset(t)
    ensures multiset(Map(f, s)) == multiset(Map(f, t))
    decreases |s|
  {
    hide Map;
    if s != [] {
      var i := TakeOut(s, t);
      MapPermutes(f, s[1..], t[..i] + t[i + 1..]);
      MapSplit(f, [], s[0], s[1..]);
      MapSplit(f, t[..i], s[0], t[i + 1..]);
      assert s == [] + [s[0]] + s[1..];
      MapEmpty(f);
    } else {
      assert |multiset(t)| == |t|;
    }
  }

  lemma MapEmpty<A, B>(f: A -> B)
    ensures Map(f, []) == []
  {
  }

  lemma {:induction false} MapInsert<A, B>(f: A -> B, c: (B, B) -> int, t: seq<A>, x: A)
    ensures Map(f, Insert(Through(f, c), t, x)) == Insert(c, Map(f, t), f(x))
  {
    if t != [] && c(f(t[|t| - 1]), f(x)) > 0 {
      var t' := t[..|t| - 1];
      MapInsert(f, c, t', x);
      assert Map(f, t)[..|t| - 1] == Map(f, t');
    }
  }

  /** Sorting elements by their images is sorting the images. */
  lemma {:induction false} MapStableSort<A, B>(f: A -> B, c: (B, B) -> int, s: seq<A>)
    ensures Map(f, StableSort(Through(f, c), s)) == StableSort(c, Map(f, s))
  {
    if s != [] {
      var s' := s[..|s| - 1];
      MapStableSort(f, c, s');
      MapInsert(f, c, StableSort(Through(f, c), s'), s[|s| - 1]);
      assert Map(f, s)[..|s| - 1] == Map(f, s');
    }
  }

  // ---------- Compaction in place ----------

  /** Moves the first element of every run of equals to the front. */
  method Compact<T>(items: array<T>, c: (T, T) -> int) returns (out: nat)
    modifies items
    ensures out <= items.Length && items[..out] == Dedup(c, old(items[..]))
  {
    hide Dedup;
    ghost var s := items[..];
    out := 0;
    var i := 0;
    DedupNothing(c, s);
    while i < items.Length
      invariant 0 <= out <= i <= items.Length
      invariant items[..out] == Dedup(c, s[..i])
      invariant forall k :: i <= k < items.Length ==> items[k] == s[k]
    {
      DedupStep(c, s, i);
      if out == 0 || c(items[out - 1], items[i]) != 0 {
        out := Keep(items, out, i);
      }
      i := i + 1;
    }
    assert s[..i] == s;
  }

  method Keep<T>(items: array<T>, out: nat, i: nat) returns (next: nat)
    requires out <= i < items.Length
    modifies items
    ensures next == out + 1 && items[..next] == old(items[..out]) + [old(items[i])]
    ensures forall k :: i < k < items.Length ==> items[k] == old(items[k])
  {
    items[out] := items[i];
    next := out + 1;
  }

  lemma DedupNothing<T>(c: (T, T) -> int, s: seq<T>)
    ensures Dedup(c, s[..0]) == []
  {
  }

  lemma DedupStep<T>(c: (T, T) -> int, s: seq<T>, i: nat)
    requires i < |s|
    ensures var d := Dedup(c, s[..i]);
            Dedup(c, s[..i + 1]) == if d != [] && c(d[|d| - 1], s[i]) == 0 then d else d + [s[i]]
  {
    assert s[..i + 1][..i] == s[..i];
  }
}
