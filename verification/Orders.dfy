/** Comparators, sortedness, stability, and the stable sort they determine.

    A comparator returns a sign.  An arrangement of a sequence is its stable
    sort when it is sorted and, for every element, lists that element's
    equivalence class in the original order.  This definition does not mention
    any algorithm; `StableSortIsUnique` shows that it fixes the result. */
module Orders {

  ghost predicate TotalPreorder<T(!new)>(c: (T, T) -> int) {
    && (forall a, b :: c(a, b) < 0 <==> c(b, a) > 0)
    && (forall a, b, d :: c(a, b) <= 0 && c(b, d) <= 0 ==> c(a, d) <= 0)
  }

  ghost predicate Sorted<T>(c: (T, T) -> int, s: seq<T>) {
    forall i, j :: 0 <= i < j < |s| ==> c(s[i], s[j]) <= 0
  }

  function Filter<T>(p: T -> bool, s: seq<T>): (r: seq<T>)
    ensures |r| <= |s|
  {
    if s == [] then []
    else if p(s[|s| - 1]) then Filter(p, s[..|s| - 1]) + [s[|s| - 1]]
    else Filter(p, s[..|s| - 1])
  }

  /** Membership in the equivalence class of `g`. */
  function Like<T>(c: (T, T) -> int, g: T): T -> bool {
    (x: T) => c(x, g) == 0
  }

  /** The class of `g` in `s`, in the order of `s`. */
  function Project<T>(c: (T, T) -> int, g: T, s: seq<T>): seq<T> {
    Filter(Like(c, g), s)
  }

  /** `t` rearranges `s` without moving equivalent elements past each other. */
  ghost predicate SameClasses<T(!new)>(c: (T, T) -> int, s: seq<T>, t: seq<T>) {
    forall g :: Project(c, g, s) == Project(c, g, t)
  }

  ghost predicate IsStableSort<T(!new)>(c: (T, T) -> int, s: seq<T>, t: seq<T>) {
    Sorted(c, t) && SameClasses(c, s, t)
  }

  // ---------- Filter ----------

  lemma {:induction false} FilterConcat<T>(p: T -> bool, a: seq<T>, b: seq<T>)
    ensures Filter(p, a + b) == Filter(p, a) + Filter(p, b)
  {
    if b == [] {
      assert a + b == a;
    } else {
      var n := |b| - 1;
      assert (a + b)[..|a + b| - 1] == a + b[..n];
      FilterConcat(p, a, b[..n]);
    }
  }

  lemma {:induction false} FilterMember<T>(p: T -> bool, s: seq<T>, x: T)
    ensures x in Filter(p, s) <==> x in s && p(x)
  {
    if s != [] {
      var n := |s| - 1;
      FilterMember(p, s[..n], x);
      assert s == s[..n] + [s[n]];
    }
  }

  lemma {:induction false} FilterMultiset<T>(p: T -> bool, s: seq<T>, x: T)
    ensures multiset(Filter(p, s))[x] == if p(x) then multiset(s)[x] else 0
  {
    if s != [] {
      var n := |s| - 1;
      FilterMultiset(p, s[..n], x);
      assert s == s[..n] + [s[n]];
    }
  }

  lemma {:induction false} FilterAll<T>(p: T -> bool, s: seq<T>)
    requires forall x :: x in s ==> p(x)
    ensures Filter(p, s) == s
  {
    if s != [] {
      var n := |s| - 1;
      FilterAll(p, s[..n]);
      assert s == s[..n] + [s[n]];
    }
  }

  lemma {:induction false} FilterNone<T>(p: T -> bool, s: seq<T>)
    requires forall x :: x in s ==> !p(x)
    ensures Filter(p, s) == []
  {
    if s != [] {
      FilterNone(p, s[..|s| - 1]);
    }
  }

  /** A coarser filter applied first changes nothing. */
  lemma {:induction false} FilterNarrow<T>(p: T -> bool, q: T -> bool, s: seq<T>)
    requires forall x :: x in s && p(x) ==> q(x)
    ensures Filter(p, Filter(q, s)) == Filter(p, s)
  {
    if s != [] {
      var n := |s| - 1;
      FilterNarrow(p, q, s[..n]);
      if q(s[n]) {
        FilterConcat(p, Filter(q, s[..n]), [s[n]]);
        assert Filter(p, [s[n]]) == if p(s[n]) then [s[n]] else [];
      }
    }
  }

  lemma FilterDisjoint<T>(p: T -> bool, q: T -> bool, s: seq<T>)
    requires forall x :: x in s && p(x) ==> !q(x)
    ensures Filter(p, Filter(q, s)) == []
  {
    forall x | x in Filter(q, s) ensures !p(x) { FilterMember(q, s, x); }
    FilterNone(p, Filter(q, s));
  }

  lemma {:induction false} FilterSame<T>(p: T -> bool, q: T -> bool, s: seq<T>)
    requires forall x :: x in s ==> p(x) == q(x)
    ensures Filter(p, s) == Filter(q, s)
  {
    if s != [] {
      FilterSame(p, q, s[..|s| - 1]);
    }
  }

  // ---------- SameClasses ----------

  lemma SameClassesConcat<T(!new)>(c: (T, T) -> int, a: seq<T>, a': seq<T>, b: seq<T>, b': seq<T>)
    requires SameClasses(c, a, a') && SameClasses(c, b, b')
    ensures SameClasses(c, a + b, a' + b')
  {
    forall g ensures Project(c, g, a + b) == Project(c, g, a' + b') {
      FilterConcat(Like(c, g), a, b);
      FilterConcat(Like(c, g), a', b');
      assert Project(c, g, a) == Project(c, g, a') && Project(c, g, b) == Project(c, g, b');
    }
  }

  /** Same classes implies a permutation. */
  lemma SameClassesPermutes<T(!new)>(c: (T, T) -> int, s: seq<T>, t: seq<T>)
    requires TotalPreorder(c) && SameClasses(c, s, t)
    ensures multiset(s) == multiset(t)
    ensures |s| == |t|
    ensures forall x :: x in s <==> x in t
  {
    forall x ensures multiset(s)[x] == multiset(t)[x] {
      FilterMultiset(Like(c, x), s, x);
      FilterMultiset(Like(c, x), t, x);
      assert Project(c, x, s) == Project(c, x, t);
    }
    assert multiset(s) == multiset(t);
    assert |multiset(s)| == |s| && |multiset(t)| == |t|;
    forall x ensures x in s <==> x in t {
      assert x in s <==> x in multiset(s);
      assert x in t <==> x in multiset(t);
    }
  }

  // ---------- The stable sort is unique ----------

  lemma ProjectHead<T>(c: (T, T) -> int, g: T, s: seq<T>)
    requires s != []
    ensures Project(c, g, s) == (if c(s[0], g) == 0 then [s[0]] else []) + Project(c, g, s[1..])
  {
    assert s == s[..1] + s[1..];
    FilterConcat(Like(c, g), s[..1], s[1..]);
    assert s[..1][..0] == [];
  }

  /** Sorted arrangements with the same classes start with the same element... */
  lemma HeadsAgree<T(!new)>(c: (T, T) -> int, t: seq<T>, u: seq<T>)
    requires TotalPreorder(c) && SameClasses(c, t, u) && t != [] && u != []
    requires Sorted(c, t) && Sorted(c, u)
    ensures t[0] == u[0]
  {
    var x, y := t[0], u[0];
    assert c(x, x) == 0 && c(y, y) == 0;
    SameClassesPermutes(c, t, u);
    assert x in u && y in t;
    assert c(x, y) == 0 && c(y, x) == 0;
    ProjectHead(c, x, t);
    ProjectHead(c, x, u);
    assert Project(c, x, t) == Project(c, x, u);
    assert Project(c, x, t)[0] == x && Project(c, x, u)[0] == y;
  }

  /** ...and their tails again have the same classes. */
  lemma TailsAgree<T(!new)>(c: (T, T) -> int, t: seq<T>, u: seq<T>)
    requires SameClasses(c, t, u) && t != [] && u != [] && t[0] == u[0]
    ensures SameClasses(c, t[1..], u[1..])
  {
    forall g ensures Project(c, g, t[1..]) == Project(c, g, u[1..]) {
      assert Project(c, g, t) == Project(c, g, u);
      ProjectHead(c, g, t);
      ProjectHead(c, g, u);
      var k := if c(t[0], g) == 0 then 1 else 0;
      assert Project(c, g, t[1..]) == Project(c, g, t)[k..];
      assert Project(c, g, u[1..]) == Project(c, g, u)[k..];
    }
  }

  lemma {:induction false} SameClassesSortedEqual<T(!new)>(c: (T, T) -> int, t: seq<T>, u: seq<T>)
    requires TotalPreorder(c) && SameClasses(c, t, u) && Sorted(c, t) && Sorted(c, u)
    ensures t == u
  {
    SameClassesPermutes(c, t, u);
    if t != [] {
      HeadsAgree(c, t, u);
      TailsAgree(c, t, u);
      SameClassesSortedEqual(c, t[1..], u[1..]);
      assert t == [t[0]] + t[1..] && u == [u[0]] + u[1..];
    }
  }

  lemma StableSortIsUnique<T(!new)>(c: (T, T) -> int, s: seq<T>, t: seq<T>, u: seq<T>)
    requires TotalPreorder(c) && IsStableSort(c, s, t) && IsStableSort(c, s, u)
    ensures t == u
  {
    forall g ensures Project(c, g, t) == Project(c, g, u) {
      assert Project(c, g, s) == Project(c, g, t);
      assert Project(c, g, s) == Project(c, g, u);
    }
    SameClassesSortedEqual(c, t, u);
  }

  lemma StableVia<T(!new)>(c: (T, T) -> int, s: seq<T>, s': seq<T>, t: seq<T>)
    requires SameClasses(c, s, s') && IsStableSort(c, s', t)
    ensures IsStableSort(c, s, t)
  {
    forall g ensures Project(c, g, s) == Project(c, g, t) {
      assert Project(c, g, s) == Project(c, g, s');
      assert Project(c, g, s') == Project(c, g, t);
    }
  }

  lemma StableConcat<T(!new)>(c: (T, T) -> int, s1: seq<T>, t1: seq<T>, s2: seq<T>, t2: seq<T>)
    requires IsStableSort(c, s1, t1) && IsStableSort(c, s2, t2)
    requires forall x, y :: x in t1 && y in t2 ==> c(x, y) <= 0
    ensures IsStableSort(c, s1 + s2, t1 + t2)
  {
    SameClassesConcat(c, s1, t1, s2, t2);
  }

  // ---------- The stable sort as a function ----------

  function Insert<T>(c: (T, T) -> int, t: seq<T>, x: T): seq<T> {
    if t == [] then [x]
    else if c(t[|t| - 1], x) <= 0 then t + [x]
    else Insert(c, t[..|t| - 1], x) + [t[|t| - 1]]
  }

  function StableSort<T>(c: (T, T) -> int, s: seq<T>): seq<T> {
    if s == [] then [] else Insert(c, StableSort(c, s[..|s| - 1]), s[|s| - 1])
  }

  lemma SortedSnoc<T(!new)>(c: (T, T) -> int, t: seq<T>, x: T)
    requires TotalPreorder(c) && Sorted(c, t) && (t == [] || c(t[|t| - 1], x) <= 0)
    ensures Sorted(c, t + [x])
  {
    forall i | 0 <= i < |t| - 1 ensures c(t[i], x) <= 0 { assert c(t[i], t[|t| - 1]) <= 0; }
  }

  /** `x` goes before the last element `y` that is above it. */
  lemma InsertBefore<T(!new)>(c: (T, T) -> int, a: seq<T>, y: T, x: T, u: seq<T>)
    requires TotalPreorder(c) && Sorted(c, a + [y]) && c(y, x) > 0
    requires IsStableSort(c, a + [x], u)
    ensures IsStableSort(c, a + [y] + [x], u + [y])
  {
    assert c(x, y) < 0 && c(y, y) == 0;
    SameClassesPermutes(c, a + [x], u);
    var v := a + [y];
    forall z, w | z in u && w in [y] ensures c(z, w) <= 0 {
      assert z in a + [x];
      if z in a {
        var i :| 0 <= i < |a| && a[i] == z;
        assert c(v[i], v[|a|]) <= 0;
      }
    }
    hide TotalPreorder, Sorted, Project;
    assert IsStableSort(c, [y], [y]) by { SingletonStable(c, y); }
    StableConcat(c, a + [x], u, [y], [y]);
    forall g ensures Project(c, g, a + [y] + [x]) == Project(c, g, a + [x] + [y]) {
      SwapUnlike(c, g, a, y, x);
    }
    StableVia(c, a + [y] + [x], a + [x] + [y], u + [y]);
  }

  lemma SingletonStable<T(!new)>(c: (T, T) -> int, y: T)
    ensures IsStableSort(c, [y], [y])
  {
  }

  lemma {:induction false} InsertStable<T(!new)>(c: (T, T) -> int, t: seq<T>, x: T)
    requires TotalPreorder(c) && Sorted(c, t)
    ensures IsStableSort(c, t + [x], Insert(c, t, x))
  {
    var n := |t| - 1;
    if t == [] || c(t[n], x) <= 0 {
      SortedSnoc(c, t, x);
    } else {
      assert t == t[..n] + [t[n]];
      InsertStable(c, t[..n], x);
      InsertBefore(c, t[..n], t[n], x, Insert(c, t[..n], x));
    }
  }

  /** Exchanging two neighbours of different classes keeps every class. */
  lemma SwapUnlike<T(!new)>(c: (T, T) -> int, g: T, a: seq<T>, y: T, x: T)
    requires TotalPreorder(c) && c(x, y) != 0
    ensures Project(c, g, a + [y] + [x]) == Project(c, g, a + [x] + [y])
  {
    var p := Like(c, g);
    FilterConcat(p, a + [y], [x]);
    FilterConcat(p, a, [y]);
    FilterConcat(p, a + [x], [y]);
    FilterConcat(p, a, [x]);
    assert Filter(p, [x]) == if p(x) then [x] else [];
    assert Filter(p, [y]) == if p(y) then [y] else [];
    assert !(p(x) && p(y)) by { LikeTransitive(c, x, y, g); }
  }

  lemma LikeTransitive<T(!new)>(c: (T, T) -> int, x: T, y: T, g: T)
    requires TotalPreorder(c)
    ensures c(x, g) == 0 && c(y, g) == 0 ==> c(x, y) == 0
  {
    assert c(x, g) == 0 <==> c(g, x) == 0;
    assert c(y, g) == 0 <==> c(g, y) == 0;
    assert c(x, g) == 0 && c(y, g) == 0 ==> c(x, y) <= 0 && c(y, x) <= 0;
  }

  lemma {:induction false} StableSortStable<T(!new)>(c: (T, T) -> int, s: seq<T>)
    requires TotalPreorder(c)
    ensures IsStableSort(c, s, StableSort(c, s))
  {
    if s != [] {
      var n := |s| - 1;
      StableSortStable(c, s[..n]);
      var t := StableSort(c, s[..n]);
      assert s == s[..n] + [s[n]];
      SameClassesConcat(c, s[..n], t, [s[n]], [s[n]]);
      InsertStable(c, t, s[n]);
      StableVia(c, s, t + [s[n]], Insert(c, t, s[n]));
    }
  }

  lemma {:induction false} InsertLength<T>(c: (T, T) -> int, t: seq<T>, x: T)
    ensures |Insert(c, t, x)| == |t| + 1
  {
    if t != [] && c(t[|t| - 1], x) > 0 {
      InsertLength(c, t[..|t| - 1], x);
    }
  }

  lemma {:induction false} StableSortLength<T>(c: (T, T) -> int, s: seq<T>)
    ensures |StableSort(c, s)| == |s|
  {
    if s != [] {
      StableSortLength(c, s[..|s| - 1]);
      InsertLength(c, StableSort(c, s[..|s| - 1]), s[|s| - 1]);
    }
  }

  /** The reference result: whatever meets the definition is this sequence. */
  lemma StableSortIs<T(!new)>(c: (T, T) -> int, s: seq<T>, t: seq<T>)
    requires TotalPreorder(c)
    ensures IsStableSort(c, s, t) <==> t == StableSort(c, s)
  {
    StableSortStable(c, s);
    if IsStableSort(c, s, t) {
      StableSortIsUnique(c, s, t, StableSort(c, s));
    }
  }

  // ---------- Derived orders ----------

  /** Order by `c`, and by `f` among what `c` does not tell apart. */
  function Lex<T>(c: (T, T) -> int, f: (T, T) -> int): (T, T) -> int {
    (x: T, y: T) => if c(x, y) != 0 then c(x, y) else f(x, y)
  }

  function Indifferent<T>(): (T, T) -> int {
    (x: T, y: T) => 0
  }

  lemma LexPreorder<T(!new)>(c: (T, T) -> int, f: (T, T) -> int)
    requires TotalPreorder(c) && TotalPreorder(f)
    ensures TotalPreorder(Lex(c, f))
  {
    var l := Lex(c, f);
    forall x, y ensures l(x, y) < 0 <==> l(y, x) > 0 {
      assert c(x, y) < 0 <==> c(y, x) > 0;
      assert c(y, x) < 0 <==> c(x, y) > 0;
    }
    forall x, y, z | l(x, y) <= 0 && l(y, z) <= 0 ensures l(x, z) <= 0 {
      assert c(x, y) <= 0 && c(y, z) <= 0;
      assert c(x, z) <= 0;
      if c(x, z) == 0 {
        assert c(z, x) == 0;
        assert c(z, y) <= 0 && c(y, x) <= 0;
        assert c(x, y) == 0 && c(y, z) == 0;
        assert f(x, y) <= 0 && f(y, z) <= 0;
      }
    }
  }

  ghost function Map<A, B>(f: A -> B, s: seq<A>): (r: seq<B>)
    ensures |r| == |s|
    ensures forall i :: 0 <= i < |s| ==> r[i] == f(s[i])
  {
    seq(|s|, i requires 0 <= i < |s| => f(s[i]))
  }

  /** Order by what `f` makes of an element. */
  function Through<A, B>(f: A -> B, c: (B, B) -> int): (A, A) -> int {
    (x: A, y: A) => c(f(x), f(y))
  }

  function Reversed<T>(c: (T, T) -> int): (T, T) -> int {
    (x: T, y: T) => -c(x, y)
  }

  lemma ThroughPreorder<A(!new), B(!new)>(f: A -> B, c: (B, B) -> int)
    requires TotalPreorder(c)
    ensures TotalPreorder(Through(f, c))
  {
  }

  lemma ReversedPreorder<T(!new)>(c: (T, T) -> int)
    requires TotalPreorder(c)
    ensures TotalPreorder(Reversed(c))
  {
    var r := Reversed(c);
    forall x, y, z | r(x, y) <= 0 && r(y, z) <= 0 ensures r(x, z) <= 0 {
      assert c(y, x) <= 0 && c(z, y) <= 0;
      assert c(z, x) <= 0;
    }
  }

  lemma IndifferentPreorder<T(!new)>()
    ensures TotalPreorder(Indifferent<T>())
  {
  }

  // ---------- Sorted permutations ----------

  ghost predicate SameClassSizes<T(!new)>(c: (T, T) -> int, u: seq<T>, v: seq<T>) {
    forall g :: |Project(c, g, u)| == |Project(c, g, v)|
  }

  lemma {:induction false} FilterLength<T>(p: T -> bool, s: seq<T>, t: seq<T>)
    requires multiset(s) == multiset(t)
    ensures |Filter(p, s)| == |Filter(p, t)|
  {
    forall x ensures multiset(Filter(p, s))[x] == multiset(Filter(p, t))[x] {
      FilterMultiset(p, s, x);
      FilterMultiset(p, t, x);
    }
    SameCounts(Filter(p, s), Filter(p, t));
  }

  lemma SameCounts<T>(a: seq<T>, b: seq<T>)
    requires forall x :: multiset(a)[x] == multiset(b)[x]
    ensures |a| == |b|
  {
    assert multiset(a) == multiset(b);
    assert |multiset(a)| == |a| && |multiset(b)| == |b|;
  }

  lemma PermutationClassSizes<T(!new)>(c: (T, T) -> int, u: seq<T>, v: seq<T>)
    requires multiset(u) == multiset(v)
    ensures SameClassSizes(c, u, v) && |u| == |v|
  {
    forall g ensures |Project(c, g, u)| == |Project(c, g, v)| {
      FilterLength(Like(c, g), u, v);
    }
    assert |multiset(u)| == |u| && |multiset(v)| == |v|;
  }

  /** The first element of a sorted sequence is below everything like a member. */
  lemma HeadBelow<T(!new)>(c: (T, T) -> int, u: seq<T>, g: T)
    requires TotalPreorder(c) && Sorted(c, u) && Project(c, g, u) != []
    ensures u != [] && c(u[0], g) <= 0
  {
    var x := Project(c, g, u)[0];
    FilterMember(Like(c, g), u, x);
    var i :| 0 <= i < |u| && u[i] == x;
    assert i > 0 ==> c(u[0], u[i]) <= 0;
    assert c(x, g) == 0 && c(x, x) == 0;
  }

  lemma HeadsAlike<T(!new)>(c: (T, T) -> int, u: seq<T>, v: seq<T>)
    requires TotalPreorder(c) && Sorted(c, u) && Sorted(c, v) && SameClassSizes(c, u, v) && u != [] && v != []
    ensures c(u[0], v[0]) == 0
  {
    var x, y := u[0], v[0];
    ProjectHead(c, x, u);
    ProjectHead(c, y, v);
    assert c(x, x) == 0 && c(y, y) == 0;
    assert |Project(c, x, u)| == |Project(c, x, v)| && |Project(c, y, u)| == |Project(c, y, v)|;
    HeadBelow(c, u, y);
    HeadBelow(c, v, x);
  }

  lemma TailClassSizes<T(!new)>(c: (T, T) -> int, u: seq<T>, v: seq<T>)
    requires TotalPreorder(c) && SameClassSizes(c, u, v) && u != [] && v != [] && c(u[0], v[0]) == 0
    ensures SameClassSizes(c, u[1..], v[1..])
  {
    forall g ensures |Project(c, g, u[1..])| == |Project(c, g, v[1..])| {
      assert |Project(c, g, u)| == |Project(c, g, v)|;
      ProjectHead(c, g, u);
      ProjectHead(c, g, v);
      SameSide(c, u[0], v[0], g);
    }
  }

  lemma SameSide<T(!new)>(c: (T, T) -> int, x: T, y: T, g: T)
    requires TotalPreorder(c) && c(x, y) == 0
    ensures c(x, g) == 0 <==> c(y, g) == 0
  {
    assert c(y, x) == 0;
    assert c(x, g) == 0 <==> c(g, x) == 0;
    assert c(y, g) == 0 <==> c(g, y) == 0;
    assert c(x, g) == 0 ==> c(y, g) <= 0 && c(g, y) <= 0;
    assert c(y, g) == 0 ==> c(x, g) <= 0 && c(g, x) <= 0;
  }

  /** Two sorted arrangements of the same elements are alike place by place, so
      even an unstable engine fixes everything the order can see. */
  lemma {:induction false} SortedAlike<T(!new)>(c: (T, T) -> int, u: seq<T>, v: seq<T>)
    requires TotalPreorder(c) && Sorted(c, u) && Sorted(c, v) && SameClassSizes(c, u, v) && |u| == |v|
    ensures forall i :: 0 <= i < |u| ==> c(u[i], v[i]) == 0
  {
    if u != [] {
      HeadsAlike(c, u, v);
      TailClassSizes(c, u, v);
      SortedAlike(c, u[1..], v[1..]);
      forall i | 0 < i < |u| ensures c(u[i], v[i]) == 0 {
        assert c(u[1..][i - 1], v[1..][i - 1]) == 0;
      }
    }
  }
}
