/** Exactly when the keyed engine writes what the scalar engine writes.  A reversed
    key may leave a large group of tied lines in reverse (`KeyEngine.Turns`);
    whether that can be seen depends on what is written of the group: all of its
    lines, or under `-u` the first one. */
module KeyExact {
  import opened Bytes
  import opened Groups
  import opened Insertion
  import opened KeyEngine
  import opened Orders
  import opened StableRadix
  import opened Unique

  // ---------- The condition ----------

  /** What is written of lines that tie. */
  function Part<T>(unique: bool, q: seq<T>): seq<T> {
    if unique then First(q) else q
  }

  /** The texts written for the lines `out`, which are in order. */
  ghost function Shown<T>(p: Plan<T>, out: seq<T>): seq<Text> {
    Map(p.text, if p.unique then Dedup(OrderFrom(p, 0), out) else out)
  }

  /** Tied lines `q` that come out in reverse look as if they did not. */
  ghost predicate Unseen<T>(p: Plan<T>, q: seq<T>) {
    Map(p.text, Part(p.unique, Reverse(q))) == Map(p.text, Part(p.unique, q))
  }

  /** No group of tied lines of the input comes out visibly reversed. */
  ghost predicate Harmless<T>(p: Plan<T>, s: seq<T>) {
    forall g :: g in s && Turns(p, 0, s, g) ==> Unseen(p, Project(OrderFrom(p, 0), g, s))
  }

  // ---------- Texts class by class ----------

  lemma MapCons<T>(f: T -> Text, x: T, q: seq<T>)
    ensures Map(f, [x] + q) == [f(x)] + Map(f, q)
  {
  }

  lemma MapHead<T>(c: (T, T) -> int, f: T -> Text, g: T, a: seq<T>)
    requires a != []
    ensures Map(f, a) == [f(a[0])] + Map(f, a[1..])
    ensures Map(f, Project(c, g, a)) == (if c(a[0], g) == 0 then [f(a[0])] else []) + Map(f, Project(c, g, a[1..]))
  {
    hide *;
    ProjectHead(c, g, a);
    var q := Project(c, g, a[1..]);
    MapCons(f, a[0], a[1..]);
    MapCons(f, a[0], q);
    assert a == [a[0]] + a[1..] && [] + q == q;
  }

  ghost predicate ClassTextsAgree<T(!new)>(c: (T, T) -> int, f: T -> Text, a: seq<T>, b: seq<T>) {
    forall g :: Map(f, Project(c, g, a)) == Map(f, Project(c, g, b))
  }

  lemma ClassTextsHead<T(!new)>(c: (T, T) -> int, f: T -> Text, a: seq<T>, b: seq<T>)
    requires TotalPreorder(c) && a != [] && b != [] && c(a[0], b[0]) == 0
    ensures ClassTextsAgree(c, f, a, b) <==> f(a[0]) == f(b[0]) && ClassTextsAgree(c, f, a[1..], b[1..])
  {
    var x, y := a[0], b[0];
    assert c(x, x) == 0;
    hide Project, Map;
    MapHead(c, f, x, a);
    MapHead(c, f, x, b);
    SameSide(c, x, y, x);
    if ClassTextsAgree(c, f, a, b) {
      assert Map(f, Project(c, x, a))[0] == Map(f, Project(c, x, b))[0];
      forall g ensures Map(f, Project(c, g, a[1..])) == Map(f, Project(c, g, b[1..])) {
        assert Map(f, Project(c, g, a)) == Map(f, Project(c, g, b));
        MapHead(c, f, g, a);
        MapHead(c, f, g, b);
        SameSide(c, x, y, g);
        var k := if c(x, g) == 0 then 1 else 0;
        assert Map(f, Project(c, g, a))[k..] == Map(f, Project(c, g, a[1..]));
        assert Map(f, Project(c, g, b))[k..] == Map(f, Project(c, g, b[1..]));
      }
    }
    if f(x) == f(y) && ClassTextsAgree(c, f, a[1..], b[1..]) {
      forall g ensures Map(f, Project(c, g, a)) == Map(f, Project(c, g, b)) {
        assert Map(f, Project(c, g, a[1..])) == Map(f, Project(c, g, b[1..]));
        MapHead(c, f, g, a);
        MapHead(c, f, g, b);
        SameSide(c, x, y, g);
      }
    }
  }

  /** Arrangements that are alike place by place show the same texts exactly when
      every class does. */
  lemma {:induction false} ClassTexts<T(!new)>(c: (T, T) -> int, f: T -> Text, a: seq<T>, b: seq<T>)
    requires TotalPreorder(c) && |a| == |b| && forall i :: 0 <= i < |a| ==> c(a[i], b[i]) == 0
    ensures Map(f, a) == Map(f, b) <==> ClassTextsAgree(c, f, a, b)
  {
    if a != [] {
      ClassTexts(c, f, a[1..], b[1..]);
      ClassTextsHead(c, f, a, b);
      MapHead(c, f, a[0], a);
      MapHead(c, f, b[0], b);
      assert Map(f, a)[0] == f(a[0]) && Map(f, a)[1..] == Map(f, a[1..]);
      assert Map(f, b)[0] == f(b[0]) && Map(f, b)[1..] == Map(f, b[1..]);
    } else {
      assert a == b;
    }
  }

  /** Sorted sequences with classes of the same sizes have the same length. */
  lemma {:induction false} SizesAgree<T(!new)>(c: (T, T) -> int, u: seq<T>, v: seq<T>)
    requires TotalPreorder(c) && Sorted(c, u) && Sorted(c, v) && SameClassSizes(c, u, v)
    ensures |u| == |v|
    decreases |u|
  {
    if u == [] && v != [] {
      SizesAgree'(c, v, u);
    } else if u != [] {
      SizesAgree'(c, u, v);
      HeadsAlike(c, u, v);
      TailClassSizes(c, u, v);
      SizesAgree(c, u[1..], v[1..]);
    }
  }

  lemma SizesAgree'<T(!new)>(c: (T, T) -> int, u: seq<T>, v: seq<T>)
    requires TotalPreorder(c) && SameClassSizes(c, u, v) && u != []
    ensures v != []
  {
    assert c(u[0], u[0]) == 0;
    ProjectHead(c, u[0], u);
    assert |Project(c, u[0], u)| == |Project(c, u[0], v)|;
  }

  // ---------- The theorem ----------

  /** What is written of a sorted sequence, as elements. */
  ghost function Kept<T>(c: (T, T) -> int, unique: bool, t: seq<T>): seq<T> {
    if unique then Dedup(c, t) else t
  }

  lemma KeptClass<T(!new)>(c: (T, T) -> int, unique: bool, t: seq<T>)
    requires TotalPreorder(c) && Sorted(c, t)
    ensures Sorted(c, Kept(c, unique, t))
    ensures forall g :: Project(c, g, Kept(c, unique, t)) == Part(unique, Project(c, g, t))
  {
    hide Project, TotalPreorder, Sorted, Dedup;
    if unique {
      DedupSorted(c, t);
      forall g ensures Project(c, g, Dedup(c, t)) == First(Project(c, g, t)) { DedupClass(c, t, g); }
    }
  }

  /** Two sorted permutations write the same exactly when every class does. */
  lemma KeptTexts<T(!new)>(c: (T, T) -> int, f: T -> Text, unique: bool, t: seq<T>, u: seq<T>)
    requires TotalPreorder(c) && Sorted(c, t) && Sorted(c, u) && multiset(t) == multiset(u)
    ensures Map(f, Kept(c, unique, t)) == Map(f, Kept(c, unique, u)) <==> PartsAgree(c, f, unique, t, u)
  {
    var a, b := Kept(c, unique, t), Kept(c, unique, u);
    KeptClass(c, unique, t);
    KeptClass(c, unique, u);
    PermutationClassSizes(c, t, u);
    hide Project, TotalPreorder, Sorted, Map, Kept;
    forall g ensures |Project(c, g, a)| == |Project(c, g, b)| {
      assert |Project(c, g, t)| == |Project(c, g, u)|;
      assert Project(c, g, a) == Part(unique, Project(c, g, t));
    }
    SizesAgree(c, a, b);
    SortedAlike(c, a, b);
    ClassTexts(c, f, a, b);
    hide Part;
    assert ClassTextsAgree(c, f, a, b) <==> PartsAgree(c, f, unique, t, u) by {
      forall g ensures Project(c, g, a) == Part(unique, Project(c, g, t)) && Project(c, g, b) == Part(unique, Project(c, g, u)) {
      }
    }
  }

  ghost predicate PartsAgree<T(!new)>(c: (T, T) -> int, f: T -> Text, unique: bool, t: seq<T>, u: seq<T>) {
    forall g :: Map(f, Part(unique, Project(c, g, t))) == Map(f, Part(unique, Project(c, g, u)))
  }

  lemma ClassOfMember<T(!new)>(c: (T, T) -> int, g: T, x: T, s: seq<T>, t: seq<T>)
    requires TotalPreorder(c) && c(x, g) == 0
    ensures Project(c, g, s) == Project(c, x, s) && Project(c, g, t) == Project(c, x, t)
  {
    forall y ensures Like(c, g)(y) == Like(c, x)(y) {
      SameSide(c, x, g, y);
      assert c(y, g) == 0 <==> c(g, y) == 0;
      assert c(y, x) == 0 <==> c(x, y) == 0;
    }
    FilterSame(Like(c, g), Like(c, x), s);
    FilterSame(Like(c, g), Like(c, x), t);
  }

  lemma HarmlessParts<T(!new)>(p: Plan<T>, s: seq<T>, out: seq<T>)
    requires Refined(OrderFrom(p, 0), Finals(p, 0), s, out)
    ensures PartsAgree(OrderFrom(p, 0), p.text, p.unique, out, s) <==> Harmless(p, s)
  {
    var c := OrderFrom(p, 0);
    OrderFromPreorder(p, 0);
    hide OrderFrom, Turns, FinalClass, Part, Map, Reverse, TotalPreorder, Sorted, Project;
    forall g ensures Project(c, g, out) == if Turns(p, 0, s, g) then Reverse(Project(c, g, s)) else Project(c, g, s) {
      FinalClassIs(p, 0, s, g);
      assert Project(c, g, out) == Finals(p, 0)(g, s);
    }
    if Harmless(p, s) {
      forall g ensures Map(p.text, Part(p.unique, Project(c, g, out))) == Map(p.text, Part(p.unique, Project(c, g, s))) {
        if Project(c, g, s) == [] {
          NoTurn<T>();
        } else {
          var x := Project(c, g, s)[0];
          FilterMember(Like(c, g), s, x);
          ClassOfMember(c, g, x, s, out);
        }
      }
    }
  }

  lemma NoTurn<T>()
    ensures Reverse<T>([]) == []
  {
  }

  /** For any keys, any flags and any lines: the keyed engine's output is written
      as the oracle's is, if and only if no group comes out visibly reversed. */
  lemma KeysExact<T(!new)>(p: Plan<T>, s: seq<T>, out: seq<T>)
    requires Refined(OrderFrom(p, 0), Finals(p, 0), s, out)
    ensures Shown(p, out) == Shown(p, StableSort(OrderFrom(p, 0), s)) <==> Harmless(p, s)
  {
    var c := OrderFrom(p, 0);
    var u := StableSort(c, s);
    OrderFromPreorder(p, 0);
    StableSortStable(c, s);
    SameClassesPermutes(c, s, u);
    RefinedSorted(c, Finals(p, 0), s, out);
    assert PartsAgree(c, p.text, p.unique, out, u) <==> PartsAgree(c, p.text, p.unique, out, s) by {
      hide StableSort, OrderFrom, TotalPreorder, Sorted, Project, Part, Map, Refined;
      forall g ensures Project(c, g, u) == Project(c, g, s) {
      }
    }
    hide StableSort, OrderFrom, TotalPreorder, Sorted, Project, Part, Map, Refined, Harmless, PartsAgree;
    KeptTexts(c, p.text, p.unique, out, u);
    HarmlessParts(p, s, out);
  }

  // ---------- Where nothing can be seen ----------

  lemma ForwardHarmless<T(!new)>(p: Plan<T>, s: seq<T>)
    requires Forward(p)
    ensures Harmless(p, s)
  {
    forall g ensures !Turns(p, 0, s, g) { ForwardNeverTurns(p, 0, s, g); }
  }

  lemma FewHarmless<T(!new)>(p: Plan<T>, s: seq<T>)
    requires |s| <= KEY_THRESHOLD && !p.LastResort()
    ensures Harmless(p, s)
  {
    forall g ensures !Turns(p, 0, s, g) { FewNeverTurn(p, 0, s, g); }
  }

  /** Lines that the last resort does not tell apart read the same. */
  lemma LastResortHarmless<T(!new)>(p: Plan<T>, s: seq<T>)
    requires p.LastResort()
    ensures Harmless(p, s)
  {
    var c := OrderFrom(p, 0);
    hide OrderFrom, Turns, Reverse, Project;
    forall g ensures Unseen(p, Project(c, g, s)) {
      var q := Project(c, g, s);
      forall i | 0 <= i < |q| ensures p.text(q[i]) == p.text(g) {
        FilterMember(Like(c, g), s, q[i]);
        TiesAreEqualTexts(p, 0, q[i], g);
      }
    }
  }

  // ---------- The condition on texts ----------

  /** `p` sees of an element what `q` sees of its image. */
  ghost predicate Views<A(!new), B>(f: A -> B, p: Plan<A>, q: Plan<B>) {
    && |p.keys| == |q.keys| && p.reverse == q.reverse && p.stable == q.stable && p.unique == q.unique
    && (forall i :: 0 <= i < |p.keys| ==> p.keys[i].reverse == q.keys[i].reverse)
    && (forall i, a :: 0 <= i < |p.keys| ==> p.keys[i].span(a) == q.keys[i].span(f(a)))
    && (forall a :: p.text(a) == q.text(f(a)))
  }

  lemma {:induction false} FilterMap<A(!new), B>(f: A -> B, d: A -> bool, e: B -> bool, s: seq<A>)
    requires forall a :: d(a) == e(f(a))
    ensures Map(f, Filter(d, s)) == Filter(e, Map(f, s))
  {
    if s != [] {
      var n := |s| - 1;
      FilterMap(f, d, e, s[..n]);
      assert Map(f, s)[..n] == Map(f, s[..n]);
      assert Map(f, Filter(d, s[..n]) + [s[n]]) == Map(f, Filter(d, s[..n])) + [f(s[n])];
    }
  }

  lemma MemberMap<A, B>(f: A -> B, s: seq<A>, y: B)
    ensures y in Map(f, s) <==> exists x :: x in s && f(x) == y
  {
    var m := Map(f, s);
    if y in m {
      var i :| 0 <= i < |m| && m[i] == y;
      assert s[i] in s;
    }
    if x :| x in s && f(x) == y {
      var i :| 0 <= i < |s| && s[i] == x;
      assert m[i] == y;
    }
  }

  lemma FlipsMap<A(!new), B(!new)>(f: A -> B, d: Engine<A>, e: Engine<B>, s: seq<A>, k: Text)
    requires d.skipsPrefix == e.skipsPrefix && d.reverse == e.reverse && d.threshold == e.threshold
    requires forall a :: d.key(a) == e.key(f(a))
    ensures Flips(d, 0, s, k) <==> Flips(e, 0, Map(f, s), k)
  {
    FilterMap(f, HasKey(d.key, k), HasKey(e.key, k), s);
    forall y | y in Map(f, s) ensures exists x :: x in s && f(x) == y { MemberMap(f, s, y); }
    forall x | x in s ensures f(x) in Map(f, s) { MemberMap(f, s, f(x)); }
  }

  lemma AscendsMap<A(!new), B(!new)>(f: A -> B, c: (A, A) -> int, d: (B, B) -> int, s: seq<A>)
    requires forall a, b :: c(a, b) == d(f(a), f(b))
    ensures Ascends(c, s) <==> Ascends(d, Map(f, s))
  {
    if Ascends(d, Map(f, s)) {
      forall i | 0 < i < |s| ensures c(s[i - 1], s[i]) <= 0 {
        assert d(Map(f, s)[i - 1], Map(f, s)[i]) <= 0;
      }
    }
  }

  lemma KeyClassMap<A(!new), B(!new)>(f: A -> B, p: Plan<A>, q: Plan<B>, i: nat, s: seq<A>, g: A)
    requires Views(f, p, q) && i < |p.keys|
    ensures KeyTurns(p, i, s, g) <==> KeyTurns(q, i, Map(f, s), f(g))
    ensures Map(f, KeyClass(p, i, s, g)) == KeyClass(q, i, Map(f, s), f(g))
  {
    var c, d := KeyOrderAt(p.keys[i]), KeyOrderAt(q.keys[i]);
    assert forall a, b :: c(a, b) == d(f(a), f(b));
    FlipsMap(f, KeyRadix(p.keys[i]), KeyRadix(q.keys[i]), s, p.keys[i].span(g));
    AscendsMap(f, c, d, s);
    FilterMap(f, Like(c, g), Like(d, f(g)), s);
    hide Flips, Ascends, KeyOrderAt, Map, Filter, Reverse;
    MapReverse(f, Project(c, g, s));
  }

  lemma {:induction false} TurnsMap<A(!new), B(!new)>(f: A -> B, p: Plan<A>, q: Plan<B>, i: nat, s: seq<A>, g: A)
    requires Views(f, p, q)
    ensures Turns(p, i, s, g) <==> Turns(q, i, Map(f, s), f(g))
    decreases |p.keys| - i
  {
    if i < |p.keys| {
      hide KeyClass, KeyTurns, Map;
      KeyClassMap(f, p, q, i, s, g);
      TurnsMap(f, p, q, i + 1, KeyClass(p, i, s, g), g);
    }
  }

  lemma {:induction false} OrderMap<A(!new), B(!new)>(f: A -> B, p: Plan<A>, q: Plan<B>, i: nat, a: A, b: A)
    requires Views(f, p, q)
    ensures OrderFrom(p, i)(a, b) == OrderFrom(q, i)(f(a), f(b))
    decreases |p.keys| - i
  {
    if i < |p.keys| {
      OrderMap(f, p, q, i + 1, a, b);
    }
  }

  lemma PartMap<A, B>(f: A -> B, unique: bool, s: seq<A>)
    ensures Map(f, Part(unique, s)) == Part(unique, Map(f, s))
  {
  }

  lemma UnseenMap<A(!new), B(!new)>(f: A -> B, p: Plan<A>, q: Plan<B>, s: seq<A>)
    requires Views(f, p, q)
    ensures Unseen(p, s) <==> Unseen(q, Map(f, s))
  {
    MapReverse(f, s);
    PartMap(f, p.unique, s);
    PartMap(f, p.unique, Reverse(s));
    hide Reverse, Part;
    forall t: seq<A> ensures Map(p.text, t) == Map(q.text, Map(f, t)) {
    }
  }

  /** Only the texts of the lines decide. */
  lemma HarmlessMap<A(!new), B(!new)>(f: A -> B, p: Plan<A>, q: Plan<B>, s: seq<A>)
    requires Views(f, p, q)
    ensures Harmless(p, s) <==> Harmless(q, Map(f, s))
  {
    hide Turns, OrderFrom, Unseen, Views;
    forall g ensures Turns(p, 0, s, g) <==> Turns(q, 0, Map(f, s), f(g)) { TurnsMap(f, p, q, 0, s, g); }
    forall g ensures Unseen(p, Project(OrderFrom(p, 0), g, s)) <==> Unseen(q, Project(OrderFrom(q, 0), f(g), Map(f, s))) {
      forall a ensures Like(OrderFrom(p, 0), g)(a) == Like(OrderFrom(q, 0), f(g))(f(a)) { OrderMap(f, p, q, 0, a, g); }
      FilterMap(f, Like(OrderFrom(p, 0), g), Like(OrderFrom(q, 0), f(g)), s);
      UnseenMap(f, p, q, Project(OrderFrom(p, 0), g, s));
    }
    hide Project;
    forall y | y in Map(f, s) ensures exists x :: x in s && f(x) == y { MemberMap(f, s, y); }
    forall x | x in s ensures f(x) in Map(f, s) { MemberMap(f, s, f(x)); }
  }
}
