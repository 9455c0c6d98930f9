/** Exactly when keyed runs, sorted one by one, stand for all of their records.  A
    group of tied lines may lie in several runs; under `-u` only the first of those
    runs decides. */
module KeyedRuns {
  import opened Bytes
  import opened Groups
  import opened HeapMerge
  import opened Insertion
  import opened KeyEngine
  import opened KeyExact
  import opened Orders
  import opened Unique

  // ---------- One run ----------

  /** The lines of `s` that tie with `g`, as the keyed engine leaves them. */
  ghost function Turned<T>(p: Plan<T>, s: seq<T>, g: T): seq<T> {
    var q := Project(OrderFrom(p, 0), g, s);
    if Turns(p, 0, s, g) then Reverse(q) else q
  }

  /** `w` is what the keyed engine makes of `s`. */
  ghost predicate Laid<T>(p: Plan<T>, s: seq<T>, w: seq<T>) {
    && (forall y :: y in w ==> y in s)
    && forall g :: g in s ==> Project(OrderFrom(p, 0), g, w) == Turned(p, s, g)
  }

  lemma RefinedTurns<T(!new)>(p: Plan<T>, s: seq<T>, out: seq<T>, g: T)
    requires Refined(OrderFrom(p, 0), Finals(p, 0), s, out)
    ensures Project(OrderFrom(p, 0), g, out) == Turned(p, s, g)
  {
    FinalClassIs(p, 0, s, g);
    assert Project(OrderFrom(p, 0), g, out) == Finals(p, 0)(g, s);
  }

  lemma ClassMap<A(!new), B(!new)>(f: A -> B, p: Plan<A>, q: Plan<B>, s: seq<A>, g: A)
    requires Views(f, p, q)
    ensures Map(f, Project(OrderFrom(p, 0), g, s)) == Project(OrderFrom(q, 0), f(g), Map(f, s))
  {
    hide OrderFrom, Views;
    forall a ensures Like(OrderFrom(p, 0), g)(a) == Like(OrderFrom(q, 0), f(g))(f(a)) { OrderMap(f, p, q, 0, a, g); }
    FilterMap(f, Like(OrderFrom(p, 0), g), Like(OrderFrom(q, 0), f(g)), s);
  }

  lemma TurnedMap<A(!new), B(!new)>(f: A -> B, p: Plan<A>, q: Plan<B>, s: seq<A>, g: A)
    requires Views(f, p, q)
    ensures Map(f, Turned(p, s, g)) == Turned(q, Map(f, s), f(g))
  {
    hide Turns, Views, OrderFrom, Project, Map, Reverse;
    ClassMap(f, p, q, s, g);
    TurnsMap(f, p, q, 0, s, g);
    MapReverse(f, Project(OrderFrom(p, 0), g, s));
  }

  /** Sorting lines lays out their texts. */
  lemma TextsLaid<A(!new), B(!new)>(f: A -> B, p: Plan<A>, q: Plan<B>, s: seq<A>, out: seq<A>)
    requires Views(f, p, q) && Refined(OrderFrom(p, 0), Finals(p, 0), s, out)
    ensures Laid(q, Map(f, s), Map(f, out))
  {
    hide OrderFrom, Finals, Turned, Views, Project, Map;
    forall y | y in Map(f, out) ensures y in Map(f, s) {
      MemberMap(f, out, y);
      var x :| x in out && f(x) == y;
      assert x in multiset(out);
      MemberMap(f, s, y);
    }
    forall g | g in Map(f, s) ensures Project(OrderFrom(q, 0), g, Map(f, out)) == Turned(q, Map(f, s), g) {
      MemberMap(f, s, g);
      var x :| x in s && f(x) == g;
      RefinedTurns(p, s, out, x);
      ClassMap(f, p, q, out, x);
      TurnedMap(f, p, q, s, x);
    }
  }

  lemma SameClass<T(!new)>(p: Plan<T>, g: T, x: T, s: seq<T>)
    requires OrderFrom(p, 0)(x, g) == 0
    ensures Project(OrderFrom(p, 0), g, s) == Project(OrderFrom(p, 0), x, s)
  {
    OrderFromPreorder(p, 0);
    ClassOfMember(OrderFrom(p, 0), g, x, s, s);
  }

  lemma MemberOfClass<T>(c: (T, T) -> int, g: T, s: seq<T>)
    requires Project(c, g, s) != []
    ensures var x := Project(c, g, s)[0]; x in s && c(x, g) == 0
  {
    FilterMember(Like(c, g), s, Project(c, g, s)[0]);
  }

  lemma LaidLength<T(!new)>(p: Plan<T>, s: seq<T>, w: seq<T>, g: T)
    requires Laid(p, s, w)
    ensures |Project(OrderFrom(p, 0), g, w)| == |Project(OrderFrom(p, 0), g, s)|
  {
    var c := OrderFrom(p, 0);
    hide OrderFrom, Turns, Project;
    if Project(c, g, s) != [] {
      var x := Project(c, g, s)[0];
      MemberOfClass(c, g, s);
      SameClass(p, g, x, s);
      SameClass(p, g, x, w);
      assert Project(c, x, w) == Turned(p, s, x);
    } else if Project(c, g, w) != [] {
      var y := Project(c, g, w)[0];
      MemberOfClass(c, g, w);
      FilterMember(Like(c, g), s, y);
      ProjectIsFilter(c, g, s);
      assert false;
    }
  }

  lemma ProjectIsFilter<T>(c: (T, T) -> int, g: T, s: seq<T>)
    ensures Project(c, g, s) == Filter(Like(c, g), s)
  {
  }

  // ---------- All runs ----------

  ghost predicate LaidRuns<T>(p: Plan<T>, cut: seq<seq<T>>, runs: seq<seq<T>>) {
    |cut| == |runs| && forall k :: 0 <= k < |cut| ==> Laid(p, cut[k], runs[k])
  }

  /** Under `-u` an earlier run already holds a line that ties with `g`. */
  ghost predicate Settled<T>(p: Plan<T>, cut: seq<seq<T>>, k: nat, g: T)
    requires k <= |cut|
  {
    p.unique && Project(OrderFrom(p, 0), g, Flatten(cut[..k])) != []
  }

  /** No group of a run comes out visibly reversed, unless an earlier run settles
      what is written of it. */
  ghost predicate HarmlessRuns<T>(p: Plan<T>, cut: seq<seq<T>>) {
    forall k, g :: 0 <= k < |cut| && g in cut[k] && Turns(p, 0, cut[k], g) && !Settled(p, cut, k, g) ==>
      Unseen(p, Project(OrderFrom(p, 0), g, cut[k]))
  }

  /** What is written of the lines that tie with `g` is the same. */
  ghost predicate SamePart<T>(c: (T, T) -> int, unique: bool, g: T, s: seq<T>, t: seq<T>) {
    Part(unique, Project(c, g, s)) == Part(unique, Project(c, g, t))
  }

  lemma PartConcat<T>(unique: bool, a: seq<T>, b: seq<T>, a': seq<T>, b': seq<T>)
    requires |a| == |a'| && |b| == |b'|
    ensures Part(unique, a + b) == Part(unique, a' + b') <==>
      Part(unique, a) == Part(unique, a') && ((unique && a != []) || Part(unique, b) == Part(unique, b'))
  {
    if a + b == a' + b' {
      assert a == (a + b)[..|a|] && b == (a + b)[|a|..];
      assert a' == (a' + b')[..|a|] && b' == (a' + b')[|a|..];
    }
    if a != [] {
      assert (a + b)[0] == a[0] && (a' + b')[0] == a'[0];
    } else {
      assert a + b == b && a' + b' == b';
    }
  }

  lemma FlattenNext<T>(c: (T, T) -> int, g: T, ss: seq<seq<T>>, n: nat)
    requires n < |ss|
    ensures Project(c, g, Flatten(ss[..n + 1])) == Project(c, g, Flatten(ss[..n])) + Project(c, g, ss[n])
  {
    hide Flatten, Project;
    FlattenSnoc(ss[..n + 1]);
    assert ss[..n + 1][..n] == ss[..n];
    ClassOf(c, g, Flatten(ss[..n]), ss[n]);
  }

  /** Run by run. */
  ghost predicate PartsSame<T>(p: Plan<T>, cut: seq<seq<T>>, runs: seq<seq<T>>, g: T, n: nat)
    requires n <= |cut| == |runs|
  {
    forall k :: 0 <= k < n ==> Settled(p, cut, k, g) || SamePart(OrderFrom(p, 0), p.unique, g, cut[k], runs[k])
  }

  lemma PartsNext<T(!new)>(p: Plan<T>, cut: seq<seq<T>>, runs: seq<seq<T>>, g: T, n: nat)
    requires LaidRuns(p, cut, runs) && n < |cut|
    ensures |Project(OrderFrom(p, 0), g, cut[n])| == |Project(OrderFrom(p, 0), g, runs[n])|
    ensures PartsSame(p, cut, runs, g, n + 1) <==>
      PartsSame(p, cut, runs, g, n) && (Settled(p, cut, n, g) || SamePart(OrderFrom(p, 0), p.unique, g, cut[n], runs[n]))
  {
    assert Laid(p, cut[n], runs[n]);
    hide OrderFrom, Project, Laid, SamePart, Settled;
    LaidLength(p, cut[n], runs[n], g);
  }

  lemma PartNext<T>(p: Plan<T>, cut: seq<seq<T>>, runs: seq<seq<T>>, g: T, n: nat)
    requires n < |cut| == |runs| && |Project(OrderFrom(p, 0), g, cut[n])| == |Project(OrderFrom(p, 0), g, runs[n])|
    requires |Project(OrderFrom(p, 0), g, Flatten(cut[..n]))| == |Project(OrderFrom(p, 0), g, Flatten(runs[..n]))|
    ensures |Project(OrderFrom(p, 0), g, Flatten(cut[..n + 1]))| == |Project(OrderFrom(p, 0), g, Flatten(runs[..n + 1]))|
    ensures SamePart(OrderFrom(p, 0), p.unique, g, Flatten(cut[..n + 1]), Flatten(runs[..n + 1])) <==>
      SamePart(OrderFrom(p, 0), p.unique, g, Flatten(cut[..n]), Flatten(runs[..n])) &&
      (Settled(p, cut, n, g) || SamePart(OrderFrom(p, 0), p.unique, g, cut[n], runs[n]))
  {
    var c := OrderFrom(p, 0);
    hide OrderFrom, Flatten, Project, Part;
    FlattenNext(c, g, cut, n);
    FlattenNext(c, g, runs, n);
    PartConcat(p.unique, Project(c, g, Flatten(cut[..n])), Project(c, g, cut[n]), Project(c, g, Flatten(runs[..n])), Project(c, g, runs[n]));
  }

  lemma {:induction false} ClassAcross<T(!new)>(p: Plan<T>, cut: seq<seq<T>>, runs: seq<seq<T>>, g: T, n: nat)
    requires LaidRuns(p, cut, runs) && n <= |cut|
    ensures |Project(OrderFrom(p, 0), g, Flatten(cut[..n]))| == |Project(OrderFrom(p, 0), g, Flatten(runs[..n]))|
    ensures SamePart(OrderFrom(p, 0), p.unique, g, Flatten(cut[..n]), Flatten(runs[..n])) <==> PartsSame(p, cut, runs, g, n)
  {
    if n == 0 {
      assert cut[..0] == runs[..0];
    } else {
      LaidCount(p, cut, runs);
      hide *;
      ClassAcross(p, cut, runs, g, n - 1);
      PartsNext(p, cut, runs, g, n - 1);
      PartNext(p, cut, runs, g, n - 1);
    }
  }

  lemma LaidCount<T>(p: Plan<T>, cut: seq<seq<T>>, runs: seq<seq<T>>)
    requires LaidRuns(p, cut, runs)
    ensures |cut| == |runs|
  {
  }

  lemma MapSelf(f: Text -> Text, s: seq<Text>)
    requires forall t :: f(t) == t
    ensures Map(f, s) == s
  {
  }

  lemma UnseenIs(p: Plan<Text>, q: seq<Text>)
    requires forall t :: p.text(t) == t
    ensures Unseen(p, q) <==> Part(p.unique, Reverse(q)) == Part(p.unique, q)
  {
    MapSelf(p.text, Part(p.unique, Reverse(q)));
    MapSelf(p.text, Part(p.unique, q));
  }

  lemma RunSame(p: Plan<Text>, s: seq<Text>, w: seq<Text>, g: Text)
    requires (forall t :: p.text(t) == t) && Laid(p, s, w) && g in s
    ensures SamePart(OrderFrom(p, 0), p.unique, g, s, w) <==> (Turns(p, 0, s, g) ==> Unseen(p, Project(OrderFrom(p, 0), g, s)))
  {
    hide OrderFrom, Turns, Project, Part, Unseen, Reverse;
    UnseenIs(p, Project(OrderFrom(p, 0), g, s));
  }

  lemma PartAt(p: Plan<Text>, cut: seq<seq<Text>>, runs: seq<seq<Text>>, k: nat, g: Text)
    requires (forall t :: p.text(t) == t) && HarmlessRuns(p, cut) && k < |cut| == |runs| && Laid(p, cut[k], runs[k])
    ensures Settled(p, cut, k, g) || SamePart(OrderFrom(p, 0), p.unique, g, cut[k], runs[k])
  {
    var c := OrderFrom(p, 0);
    hide OrderFrom, Turns, Project, Part, Unseen, Flatten, Laid;
    LaidLength(p, cut[k], runs[k], g);
    if Project(c, g, cut[k]) != [] {
      var x := Project(c, g, cut[k])[0];
      MemberOfClass(c, g, cut[k]);
      SameClass(p, g, x, cut[k]);
      SameClass(p, g, x, runs[k]);
      SameClass(p, g, x, Flatten(cut[..k]));
      RunSame(p, cut[k], runs[k], x);
    }
  }

  lemma SeenAt(p: Plan<Text>, cut: seq<seq<Text>>, runs: seq<seq<Text>>, k: nat, g: Text)
    requires (forall t :: p.text(t) == t) && LaidRuns(p, cut, runs) && PartsSame(p, cut, runs, g, |cut|)
    requires k < |cut| && g in cut[k] && Turns(p, 0, cut[k], g) && !Settled(p, cut, k, g)
    ensures Unseen(p, Project(OrderFrom(p, 0), g, cut[k]))
  {
    assert Laid(p, cut[k], runs[k]);
    assert SamePart(OrderFrom(p, 0), p.unique, g, cut[k], runs[k]);
    hide OrderFrom, Turns, Project, Unseen, Laid, SamePart, Settled;
    RunSame(p, cut[k], runs[k], g);
  }

  lemma PartsWhen(p: Plan<Text>, cut: seq<seq<Text>>, runs: seq<seq<Text>>, g: Text)
    requires (forall t :: p.text(t) == t) && LaidRuns(p, cut, runs) && HarmlessRuns(p, cut)
    ensures PartsSame(p, cut, runs, g, |cut|)
  {
    hide OrderFrom, Turns, Project, Unseen, Laid, SamePart, Settled, HarmlessRuns;
    forall k | 0 <= k < |cut| ensures Settled(p, cut, k, g) || SamePart(OrderFrom(p, 0), p.unique, g, cut[k], runs[k]) {
      assert Laid(p, cut[k], runs[k]);
      PartAt(p, cut, runs, k, g);
    }
  }

  lemma WholeRuns<T(!new)>(p: Plan<T>, cut: seq<seq<T>>, runs: seq<seq<T>>, g: T)
    requires LaidRuns(p, cut, runs)
    ensures |cut| == |runs|
    ensures SamePart(OrderFrom(p, 0), p.unique, g, Flatten(cut), Flatten(runs)) <==> PartsSame(p, cut, runs, g, |cut|)
  {
    LaidCount(p, cut, runs);
    assert cut[..|cut|] == cut && runs[..|runs|] == runs;
    hide *;
    ClassAcross(p, cut, runs, g, |cut|);
  }

  ghost predicate AllPartsSame<T(!new)>(p: Plan<T>, cut: seq<seq<T>>, runs: seq<seq<T>>)
    requires |cut| == |runs|
  {
    forall g :: PartsSame(p, cut, runs, g, |cut|)
  }

  lemma RunsHarmless(p: Plan<Text>, cut: seq<seq<Text>>, runs: seq<seq<Text>>)
    requires (forall t :: p.text(t) == t) && LaidRuns(p, cut, runs)
    ensures |cut| == |runs| && (AllPartsSame(p, cut, runs) <==> HarmlessRuns(p, cut))
  {
    LaidCount(p, cut, runs);
    hide OrderFrom, Turns, Project, Unseen, Flatten, LaidRuns, SamePart, Settled, PartsSame;
    if AllPartsSame(p, cut, runs) {
      forall k, g | 0 <= k < |cut| && g in cut[k] && Turns(p, 0, cut[k], g) && !Settled(p, cut, k, g)
        ensures Unseen(p, Project(OrderFrom(p, 0), g, cut[k]))
      {
        SeenAt(p, cut, runs, k, g);
      }
    }
    if HarmlessRuns(p, cut) {
      forall g ensures PartsSame(p, cut, runs, g, |cut|) { PartsWhen(p, cut, runs, g); }
    }
  }

  /** What is written of every group of ties is the same. */
  ghost predicate SameParts<T(!new)>(c: (T, T) -> int, unique: bool, s: seq<T>, t: seq<T>) {
    forall g :: SamePart(c, unique, g, s, t)
  }

  /** The runs stand for all the records exactly when no run shows a reversal that
      matters. */
  lemma RunsExact(p: Plan<Text>, cut: seq<seq<Text>>, runs: seq<seq<Text>>)
    requires (forall t :: p.text(t) == t) && LaidRuns(p, cut, runs)
    ensures SameParts(OrderFrom(p, 0), p.unique, Flatten(cut), Flatten(runs)) <==> HarmlessRuns(p, cut)
  {
    hide OrderFrom, Flatten, LaidRuns, SamePart, PartsSame, HarmlessRuns;
    RunsHarmless(p, cut, runs);
    forall g ensures SamePart(OrderFrom(p, 0), p.unique, g, Flatten(cut), Flatten(runs)) <==> PartsSame(p, cut, runs, g, |cut|) {
      WholeRuns(p, cut, runs, g);
    }
  }

  /** If each run on its own shows nothing, then all together do; unless `-u` drops
      lines, only then. */
  lemma RunByRun<T>(p: Plan<T>, cut: seq<seq<T>>)
    ensures (forall k :: 0 <= k < |cut| ==> Harmless(p, cut[k])) ==> HarmlessRuns(p, cut)
    ensures !p.unique && HarmlessRuns(p, cut) ==> forall k :: 0 <= k < |cut| ==> Harmless(p, cut[k])
  {
    hide OrderFrom, Turns, Project, Unseen, Flatten;
    if forall k :: 0 <= k < |cut| ==> Harmless(p, cut[k]) {
      forall k, g | 0 <= k < |cut| && g in cut[k] && Turns(p, 0, cut[k], g) ensures Unseen(p, Project(OrderFrom(p, 0), g, cut[k])) {
        assert Harmless(p, cut[k]);
      }
    }
  }

  /** A single run. */
  lemma OneRun<T>(p: Plan<T>, s: seq<T>)
    ensures HarmlessRuns(p, [s]) <==> Harmless(p, s)
  {
    assert [s][..0] == [] && Flatten<T>([]) == [];
    forall g ensures !Settled(p, [s], 0, g) {
    }
    hide OrderFrom, Turns, Project, Unseen, Settled, Flatten;
    if HarmlessRuns(p, [s]) {
      forall g | g in s && Turns(p, 0, s, g) ensures Unseen(p, Project(OrderFrom(p, 0), g, s)) {
        assert g in [s][0] && !Settled(p, [s], 0, g);
      }
    }
  }
}
