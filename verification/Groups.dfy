/** Regrouping: a range sorted by one order is cut into maximal runs that this
    order does not tell apart, and each run is sorted further.  Every engine
    that refines an order group by group (src/radix.c) rests on these lemmas. */
module Groups {
  import opened Orders

  /** How the class of an element comes out of a range that is being sorted. */
  type Arranger<!T> = (T, seq<T>) -> seq<T>

  /** Classes come out in their order. */
  ghost function Keeping<T>(c: (T, T) -> int): Arranger<T> {
    (g: T, s: seq<T>) => Project(c, g, s)
  }

  ghost predicate NothingFromNothing<T(!new)>(out: Arranger<T>) {
    forall g :: out(g, []) == []
  }

  /** What sorting a range by `c` achieves: a permutation in order, with every
      class as `out` says. */
  ghost predicate Refined<T(!new)>(c: (T, T) -> int, out: Arranger<T>, s: seq<T>, t: seq<T>) {
    && Sorted(c, t) && multiset(t) == multiset(s) && |t| == |s|
    && forall g :: Project(c, g, t) == out(g, s)
  }

  /** `r` holds the groups that `c` makes of `q`, each as `out` arranges it. */
  ghost predicate GroupsOut<T(!new)>(c: (T, T) -> int, f: (T, T) -> int, out: Arranger<T>, q: seq<T>, r: seq<T>) {
    forall g :: Project(Lex(c, f), g, r) == out(g, Project(c, g, q))
  }

  /** `t` after the groups up to `start` have been refined by `f`; `s` is the
      array at entry. */
  ghost predicate Refining<T(!new)>(c: (T, T) -> int, f: (T, T) -> int, out: Arranger<T>, s: seq<T>, t: seq<T>, lo: nat, start: nat, hi: nat) {
    && lo <= start <= hi <= |s| == |t|
    && (forall k :: 0 <= k < |s| && !(lo <= k < start) ==> t[k] == s[k])
    && multiset(t[lo..start]) == multiset(s[lo..start])
    && Sorted(Lex(c, f), t[lo..start])
    && GroupsOut(c, f, out, s[lo..start], t[lo..start])
    && Boundary(c, s, lo, start, hi)
  }

  /** Everything before `i` is strictly below everything from `i` on. */
  ghost predicate Boundary<T>(c: (T, T) -> int, s: seq<T>, lo: nat, i: nat, hi: nat)
    requires lo <= i <= hi <= |s|
  {
    forall j, k :: lo <= j < i <= k < hi ==> c(s[j], s[k]) < 0
  }

  /** The group `[start, i)`: alike, and followed by something different. */
  ghost predicate Group<T>(c: (T, T) -> int, s: seq<T>, lo: nat, start: nat, i: nat, hi: nat) {
    && lo <= start < i <= hi <= |s|
    && (forall k :: start <= k < i ==> c(s[start], s[k]) == 0)
    && (i < hi ==> c(s[start], s[i]) != 0)
  }

  lemma GroupBoundary<T(!new)>(c: (T, T) -> int, s: seq<T>, lo: nat, start: nat, i: nat, hi: nat)
    requires TotalPreorder(c) && lo <= hi <= |s| && Sorted(c, s[lo..hi])
    requires Group(c, s, lo, start, i, hi) && Boundary(c, s, lo, start, hi)
    ensures Boundary(c, s, lo, i, hi)
  {
    forall j, k | lo <= j < i <= k < hi ensures c(s[j], s[k]) < 0 {
      if j >= start {
        var u := s[lo..hi];
        assert c(u[start - lo], u[i - lo]) <= 0;
        assert i < k ==> c(u[i - lo], u[k - lo]) <= 0;
        assert c(s[start], s[j]) == 0;
        StrictThrough(c, s[j], s[start], s[i], s[k]);
      }
    }
  }

  lemma StrictThrough<T(!new)>(c: (T, T) -> int, a: T, b: T, d: T, e: T)
    requires TotalPreorder(c) && c(b, a) == 0 && c(b, d) < 0 && (d == e || c(d, e) <= 0)
    ensures c(a, e) < 0
  {
    assert c(a, b) == 0 && c(d, b) > 0;
    assert c(d, d) == 0 && c(d, e) <= 0;
    assert c(e, a) <= 0 ==> c(e, b) <= 0;
    assert c(e, b) <= 0 ==> c(d, b) <= 0;
  }

  lemma RefineStart<T(!new)>(c: (T, T) -> int, f: (T, T) -> int, out: Arranger<T>, s: seq<T>, lo: nat, hi: nat)
    requires lo <= hi <= |s| && NothingFromNothing(out)
    ensures Refining(c, f, out, s, s, lo, lo, hi)
  {
  }

  /** Elements of one group are alike under `c`, pairwise. */
  lemma GroupAlike<T(!new)>(c: (T, T) -> int, s: seq<T>, lo: nat, start: nat, i: nat, hi: nat)
    requires TotalPreorder(c) && Group(c, s, lo, start, i, hi)
    ensures forall x, y :: x in s[start..i] && y in s[start..i] ==> c(x, y) == 0
  {
    var q := s[start..i];
    forall x, y | x in q && y in q ensures c(x, y) == 0 {
      var a :| 0 <= a < |q| && q[a] == x;
      var b :| 0 <= b < |q| && q[b] == y;
      assert c(s[start], s[start + a]) == 0 && c(s[start], s[start + b]) == 0;
      LikeTransitive(c, x, y, s[start]);
      assert c(x, s[start]) == 0 && c(y, s[start]) == 0;
    }
  }

  lemma SortedWithin<T>(c: (T, T) -> int, f: (T, T) -> int, q: seq<T>)
    requires Sorted(f, q) && forall x, y :: x in q && y in q ==> c(x, y) == 0
    ensures Sorted(Lex(c, f), q)
  {
  }

  lemma SortedAcross<T>(c: (T, T) -> int, f: (T, T) -> int, p: seq<T>, q: seq<T>)
    requires Sorted(Lex(c, f), p) && Sorted(Lex(c, f), q)
    requires forall x, y :: x in p && y in q ==> c(x, y) < 0
    ensures Sorted(Lex(c, f), p + q)
  {
  }

  /** Elements of the refined part come from before the boundary. */
  lemma AcrossBoundary<T(!new)>(c: (T, T) -> int, s: seq<T>, t: seq<T>, lo: nat, start: nat, i: nat, hi: nat, q: seq<T>)
    requires lo <= start <= i <= hi <= |s| == |t| && Boundary(c, s, lo, start, hi)
    requires multiset(t[lo..start]) == multiset(s[lo..start]) && multiset(q) == multiset(s[start..i])
    ensures forall x, y :: x in t[lo..start] && y in q ==> c(x, y) < 0
  {
    var a, b := s[lo..start], s[start..i];
    forall x, y | x in t[lo..start] && y in q ensures c(x, y) < 0 {
      assert x in multiset(t[lo..start]) && y in multiset(q);
      assert x in a && y in b;
      var j :| 0 <= j < |a| && a[j] == x;
      var k :| 0 <= k < |b| && b[k] == y;
      assert s[lo + j] == x && s[start + k] == y;
    }
  }

  /** Refining one more group. */
  lemma RefineStep<T(!new)>(c: (T, T) -> int, f: (T, T) -> int, out: Arranger<T>, s: seq<T>, t: seq<T>, t': seq<T>, lo: nat, start: nat, i: nat, hi: nat)
    requires TotalPreorder(c) && lo <= hi <= |s| && Sorted(c, s[lo..hi]) && NothingFromNothing(out)
    requires Refining(c, f, out, s, t, lo, start, hi) && Group(c, s, lo, start, i, hi)
    requires |t'| == |t| && forall k :: 0 <= k < |t| && !(start <= k < i) ==> t'[k] == t[k]
    requires Refined(f, out, s[start..i], t'[start..i])
    ensures Refining(c, f, out, s, t', lo, i, hi)
  {
    var p, q := t[lo..start], t'[start..i];
    assert t'[lo..start] == p;
    assert t'[lo..i] == p + q && s[lo..i] == s[lo..start] + s[start..i];
    GroupBoundary(c, s, lo, start, i, hi);
    hide Sorted, Project, TotalPreorder, Lex, GroupsOut, NothingFromNothing;
    RefineSorted(c, f, out, s, t, lo, start, i, hi, q);
    RefineClasses(c, f, out, s, t, lo, start, i, hi, q);
  }

  lemma RefineSorted<T(!new)>(c: (T, T) -> int, f: (T, T) -> int, out: Arranger<T>, s: seq<T>, t: seq<T>, lo: nat, start: nat, i: nat, hi: nat, q: seq<T>)
    requires TotalPreorder(c) && Refining(c, f, out, s, t, lo, start, hi) && Group(c, s, lo, start, i, hi)
    requires Sorted(f, q) && multiset(q) == multiset(s[start..i])
    ensures Sorted(Lex(c, f), t[lo..start] + q)
  {
    hide TotalPreorder, Sorted, Lex, GroupsOut;
    AcrossBoundary(c, s, t, lo, start, i, hi, q);
    GroupAlike(c, s, lo, start, i, hi);
    forall x | x in q ensures x in s[start..i] { assert x in multiset(q); }
    SortedWithin(c, f, q);
    SortedAcross(c, f, t[lo..start], q);
  }

  /** Nothing before the boundary is like a member of the next group. */
  lemma GroupIsNew<T(!new)>(c: (T, T) -> int, s: seq<T>, lo: nat, start: nat, i: nat, hi: nat, g: T)
    requires TotalPreorder(c) && Group(c, s, lo, start, i, hi) && Boundary(c, s, lo, start, hi) && c(s[start], g) == 0
    ensures Project(c, g, s[lo..start]) == []
  {
    var u := s[lo..start];
    forall x | x in u ensures !Like(c, g)(x) {
      var j :| 0 <= j < |u| && u[j] == x;
      assert c(s[lo + j], s[start]) < 0;
      LikeTransitive(c, x, s[start], g);
    }
    FilterNone(Like(c, g), u);
  }

  /** The group is, for each of its members, the whole class so far. */
  lemma GroupClass<T(!new)>(c: (T, T) -> int, s: seq<T>, lo: nat, start: nat, i: nat, hi: nat, g: T)
    requires TotalPreorder(c) && Group(c, s, lo, start, i, hi)
    ensures Project(c, g, s[start..i]) == if c(s[start], g) == 0 then s[start..i] else []
  {
    var q := s[start..i];
    forall x | x in q ensures Like(c, g)(x) <==> c(s[start], g) == 0 {
      var j :| 0 <= j < |q| && q[j] == x;
      assert c(s[start], s[start + j]) == 0;
      SameSide(c, s[start], x, g);
    }
    if c(s[start], g) == 0 {
      FilterAll(Like(c, g), q);
    } else {
      FilterNone(Like(c, g), q);
    }
  }

  /** Among elements like `g` under `c`, only `f` counts; elsewhere nothing is. */
  lemma ClassWithin<T(!new)>(c: (T, T) -> int, f: (T, T) -> int, q: seq<T>, g: T, alike: bool)
    requires forall x :: x in q ==> (c(x, g) == 0 <==> alike)
    ensures Project(Lex(c, f), g, q) == if alike then Project(f, g, q) else []
  {
    var l := Lex(c, f);
    if alike {
      FilterSame(Like(l, g), Like(f, g), q);
    } else {
      FilterNone(Like(l, g), q);
    }
  }

  lemma RefineClasses<T(!new)>(c: (T, T) -> int, f: (T, T) -> int, out: Arranger<T>, s: seq<T>, t: seq<T>, lo: nat, start: nat, i: nat, hi: nat, q: seq<T>)
    requires TotalPreorder(c) && NothingFromNothing(out)
    requires Refining(c, f, out, s, t, lo, start, hi) && Group(c, s, lo, start, i, hi)
    requires Refined(f, out, s[start..i], q)
    ensures GroupsOut(c, f, out, s[lo..start] + s[start..i], t[lo..start] + q)
  {
    hide TotalPreorder, Sorted, Lex, Filter;
    forall g ensures Project(Lex(c, f), g, t[lo..start] + q) == out(g, Project(c, g, s[lo..start] + s[start..i])) {
      FilterConcat(Like(Lex(c, f), g), t[lo..start], q);
      FilterConcat(Like(c, g), s[lo..start], s[start..i]);
      GroupClass(c, s, lo, start, i, hi, g);
      GroupOneClass(c, f, s, lo, start, i, hi, q, g);
      assert Project(Lex(c, f), g, t[lo..start]) == out(g, Project(c, g, s[lo..start]));
      if c(s[start], g) == 0 {
        GroupIsNew(c, s, lo, start, i, hi, g);
        assert Project(f, g, q) == out(g, s[start..i]);
        assert [] + s[start..i] == s[start..i];
      } else {
        assert Project(c, g, s[lo..start]) + [] == Project(c, g, s[lo..start]);
      }
    }
  }

  lemma GroupOneClass<T(!new)>(c: (T, T) -> int, f: (T, T) -> int, s: seq<T>, lo: nat, start: nat, i: nat, hi: nat, q: seq<T>, g: T)
    requires TotalPreorder(c) && Group(c, s, lo, start, i, hi) && multiset(q) == multiset(s[start..i])
    ensures Project(Lex(c, f), g, q) == if c(s[start], g) == 0 then Project(f, g, q) else []
  {
    forall x | x in q ensures c(x, g) == 0 <==> c(s[start], g) == 0 {
      assert x in multiset(q);
      assert x in s[start..i];
      var j :| 0 <= j < |s[start..i]| && s[start..i][j] == x;
      assert c(s[start], s[start + j]) == 0;
      SameSide(c, s[start], x, g);
    }
    ClassWithin(c, f, q, g, c(s[start], g) == 0);
  }

  /** A group of one is left alone. */
  lemma RefineKeep<T(!new)>(c: (T, T) -> int, f: (T, T) -> int, out: Arranger<T>, s: seq<T>, t: seq<T>, lo: nat, start: nat, i: nat, hi: nat)
    requires TotalPreorder(c) && lo <= hi <= |s| && Sorted(c, s[lo..hi]) && NothingFromNothing(out)
    requires Refining(c, f, out, s, t, lo, start, hi) && Group(c, s, lo, start, i, hi) && i == start + 1
    requires forall g :: Project(f, g, s[start..i]) == out(g, s[start..i])
    ensures Refining(c, f, out, s, t, lo, i, hi)
  {
    assert t[start..i] == s[start..i];
    assert |t[start..i]| == 1;
    assert Sorted(f, t[start..i]);
    assert Refined(f, out, s[start..i], t[start..i]) by { hide Sorted, Project; }
    hide *;
    RefineStep(c, f, out, s, t, t, lo, start, i, hi);
  }

  /** The scan so far: everything from `start` up to `i` is alike. */
  ghost predicate Alike<T>(c: (T, T) -> int, s: seq<T>, start: nat, i: nat) {
    i <= |s| && forall k :: start <= k < i ==> c(s[start], s[k]) == 0
  }

  lemma AlikeStart<T(!new)>(c: (T, T) -> int, s: seq<T>, start: nat)
    requires TotalPreorder(c) && start < |s|
    ensures Alike(c, s, start, start + 1)
  {
    assert c(s[start], s[start]) == 0;
  }

  lemma AlikeMore<T>(c: (T, T) -> int, s: seq<T>, start: nat, i: nat)
    requires Alike(c, s, start, i) && start < i < |s| && c(s[start], s[i]) == 0
    ensures Alike(c, s, start, i + 1)
  {
  }

  lemma GroupWhen<T>(c: (T, T) -> int, s: seq<T>, lo: nat, start: nat, i: nat, hi: nat)
    requires Alike(c, s, start, i) && lo <= start < i <= hi <= |s| && (i == hi || c(s[start], s[i]) != 0)
    ensures Group(c, s, lo, start, i, hi)
  {
  }

  /** The part not reached yet is as it was. */
  lemma RefiningUntouched<T(!new)>(c: (T, T) -> int, f: (T, T) -> int, out: Arranger<T>, s: seq<T>, t: seq<T>, lo: nat, start: nat, hi: nat)
    requires Refining(c, f, out, s, t, lo, start, hi)
    ensures lo <= start <= hi <= |s| == |t|
    ensures forall k :: 0 <= k < |s| && !(lo <= k < start) ==> t[k] == s[k]
  {
    hide Sorted, GroupsOut, Boundary;
  }

  /** First cut into classes by `c`, then arranged by `out`. */
  ghost function Then<T>(first: Arranger<T>, out: Arranger<T>): Arranger<T> {
    (g: T, s: seq<T>) => out(g, first(g, s))
  }

  lemma RefiningDone<T(!new)>(c: (T, T) -> int, f: (T, T) -> int, out: Arranger<T>, s: seq<T>, t: seq<T>, lo: nat, hi: nat)
    requires Refining(c, f, out, s, t, lo, hi, hi)
    ensures Refined(Lex(c, f), Then(Keeping(c), out), s[lo..hi], t[lo..hi])
  {
    hide Sorted, Project, Boundary, Lex;
  }

  /** Sorting by `c`, then refining its groups, is sorting by the composition. */
  lemma RefinedCompose<T(!new)>(c: (T, T) -> int, f: (T, T) -> int, first: Arranger<T>, out: Arranger<T>, s: seq<T>, u: seq<T>, t: seq<T>)
    requires Refined(c, first, s, u) && Refined(Lex(c, f), Then(Keeping(c), out), u, t)
    ensures Refined(Lex(c, f), Then(first, out), s, t)
  {
    hide Sorted, Project, Lex;
    forall g ensures Project(Lex(c, f), g, t) == Then(first, out)(g, s) {
      assert Project(c, g, u) == first(g, s);
      assert Project(Lex(c, f), g, t) == Then(Keeping(c), out)(g, u);
    }
  }

  lemma RefinedSorted<T(!new)>(c: (T, T) -> int, out: Arranger<T>, s: seq<T>, t: seq<T>)
    requires Refined(c, out, s, t)
    ensures Sorted(c, t) && multiset(t) == multiset(s) && |t| == |s|
  {
  }

  /** Only what an arranger makes of the range at hand matters. */
  lemma RefinedSame<T(!new)>(c: (T, T) -> int, out: Arranger<T>, out': Arranger<T>, s: seq<T>, t: seq<T>)
    requires Refined(c, out, s, t) && forall g :: out(g, s) == out'(g, s)
    ensures Refined(c, out', s, t)
  {
    hide Sorted, Project;
  }

  /** An order that has nothing more to say leaves the classes as they are. */
  lemma RefinedIndifferent<T(!new)>(c: (T, T) -> int, out: Arranger<T>, s: seq<T>, t: seq<T>)
    requires Refined(c, out, s, t)
    ensures Refined(Lex(c, Indifferent()), out, s, t)
  {
    forall g ensures Project(Lex(c, Indifferent()), g, t) == Project(c, g, t) {
      FilterSame(Like(Lex(c, Indifferent()), g), Like(c, g), t);
    }
    hide Project;
  }

  lemma StableIsRefined<T(!new)>(c: (T, T) -> int, s: seq<T>, t: seq<T>)
    requires TotalPreorder(c)
    ensures IsStableSort(c, s, t) <==> Refined(c, Keeping(c), s, t)
  {
    hide Project, Sorted;
    if IsStableSort(c, s, t) {
      SameClassesPermutes(c, s, t);
    }
  }

  /** The class under a composed order, found in two steps. */
  lemma ProjectTwice<T(!new)>(c: (T, T) -> int, f: (T, T) -> int, g: T, s: seq<T>)
    ensures Project(Lex(c, f), g, s) == Project(f, g, Project(c, g, s))
  {
    var l := Lex(c, f);
    FilterNarrow(Like(l, g), Like(c, g), s);
    var q := Project(c, g, s);
    forall x | x in q ensures Like(l, g)(x) == Like(f, g)(x) { FilterMember(Like(c, g), s, x); }
    FilterSame(Like(l, g), Like(f, g), q);
  }

  /** Sorting determines the result when it says how every class comes out. */
  lemma RefinedOnce<T(!new)>(c: (T, T) -> int, out: Arranger<T>, s: seq<T>, t: seq<T>, u: seq<T>)
    requires TotalPreorder(c) && Refined(c, out, s, t) && Refined(c, out, s, u)
    ensures t == u
  {
    hide Project, Sorted, TotalPreorder;
    forall g ensures Project(c, g, t) == Project(c, g, u) {
      assert Project(c, g, t) == out(g, s) && Project(c, g, u) == out(g, s);
    }
    SameClassesSortedEqual(c, t, u);
  }
}
