/** `rank_radix_sort_key` (src/radix.c): the keyed engine.  Key by key, each
    group of lines that earlier keys leave tied is sorted by the next key, and
    ties of all keys by the whole line unless that is switched off. */
module KeyEngine {
  import opened Arrays
  import opened Bytes
  import opened Groups
  import opened InPlaceRadix
  import opened Insertion
  import opened Orders
  import P = ParallelRadix
  import opened StableRadix
  import Threads
  import opened Unique

  const KEY_THRESHOLD := 48
  const LINE_THRESHOLD := 24

  /** A key as this engine sees it: where its bytes are, and its direction. */
  datatype Key<!T> = Key(span: T -> Text, reverse: bool)

  /** The options that matter to keyed sorting, with the whole-line bytes. */
  datatype Plan<!T> = Plan(keys: seq<Key<T>>, text: T -> Text, reverse: bool, stable: bool, unique: bool) {
    predicate LastResort() {
      !stable && !unique
    }
  }

  function KeyOrderAt<T>(k: Key<T>): (T, T) -> int {
    KeyOrder(k.span, k.reverse)
  }

  /** The keyed radix: common-prefix scan, 48-element insertion threshold. */
  function KeyRadix<T>(k: Key<T>): Engine<T> {
    Engine(k.span, k.reverse, KEY_THRESHOLD, true)
  }

  /** The stable whole-line radix of the last resort. */
  function LineRadix<T>(text: T -> Text): Engine<T> {
    Engine(text, false, LINE_THRESHOLD, false)
  }

  function LastOrder<T>(p: Plan<T>): (T, T) -> int {
    if p.LastResort() then KeyOrder(p.text, p.reverse) else Indifferent()
  }

  /** The order of keys `i`, `i` + 1, ..., and then the last resort. */
  function OrderFrom<T>(p: Plan<T>, i: nat): (T, T) -> int
    decreases |p.keys| - i
  {
    if i >= |p.keys| then LastOrder(p) else Lex(KeyOrderAt(p.keys[i]), OrderFrom(p, i + 1))
  }

  lemma {:induction false} OrderFromPreorder<T(!new)>(p: Plan<T>, i: nat)
    ensures TotalPreorder(OrderFrom(p, i))
    decreases |p.keys| - i
  {
    if i >= |p.keys| {
      KeyOrderPreorder(p.text, p.reverse);
    } else {
      KeyOrderPreorder(p.keys[i].span, p.keys[i].reverse);
      OrderFromPreorder(p, i + 1);
      LexPreorder(KeyOrderAt(p.keys[i]), OrderFrom(p, i + 1));
    }
  }

  // ---------- How the classes come out ----------

  /** Before handing a range to the radix of key `i`, the source looks whether it
      is in order already: for later keys always, for the first only when it is
      the single key of a stable sort. */
  predicate LooksFirst<T>(p: Plan<T>, i: nat) {
    i >= 1 || (p.stable && !p.unique && |p.keys| == 1)
  }

  /** Sorting the range `s` by key `i` reverses the lines that share the key of
      `g`. */
  ghost predicate KeyTurns<T>(p: Plan<T>, i: nat, s: seq<T>, g: T)
    requires i < |p.keys|
  {
    && !(LooksFirst(p, i) && Ascends(KeyOrderAt(p.keys[i]), s))
    && Flips(KeyRadix(p.keys[i]), 0, s, p.keys[i].span(g))
  }

  ghost function KeyClass<T>(p: Plan<T>, i: nat, s: seq<T>, g: T): seq<T>
    requires i < |p.keys|
  {
    var q := Project(KeyOrderAt(p.keys[i]), g, s);
    if KeyTurns(p, i, s, g) then Reverse(q) else q
  }

  /** Sorting the range `s` by the keys from `i` on, and by the last resort,
      leaves the lines that nothing tells from `g` in reverse: the steps that
      reverse them are odd in number.  What later keys see is what the earlier
      ones left. */
  ghost predicate Turns<T>(p: Plan<T>, i: nat, s: seq<T>, g: T)
    decreases |p.keys| - i
  {
    if i < |p.keys| then KeyTurns(p, i, s, g) != Turns(p, i + 1, KeyClass(p, i, s, g), g)
    else p.LastResort() && p.reverse
  }

  /** These lines, as they come out. */
  ghost function FinalClass<T>(p: Plan<T>, i: nat, s: seq<T>, g: T): seq<T>
    decreases |p.keys| - i
  {
    if i < |p.keys| then FinalClass(p, i + 1, KeyClass(p, i, s, g), g)
    else
      var q := Project(LastOrder(p), g, s);
      if p.LastResort() && p.reverse then Reverse(q) else q
  }

  ghost function KeyClasses<T>(p: Plan<T>, i: nat): Arranger<T>
    requires i < |p.keys|
  {
    (g: T, s: seq<T>) => KeyClass(p, i, s, g)
  }

  ghost function Finals<T>(p: Plan<T>, i: nat): Arranger<T> {
    (g: T, s: seq<T>) => FinalClass(p, i, s, g)
  }

  lemma ReverseTwice<T>(s: seq<T>)
    ensures Reverse(Reverse(s)) == s
  {
  }

  lemma FinalStep<T(!new)>(p: Plan<T>, i: nat, s: seq<T>, g: T)
    requires i < |p.keys|
    ensures FinalClass(p, i, s, g) == FinalClass(p, i + 1, KeyClass(p, i, s, g), g)
    ensures Turns(p, i, s, g) <==> (KeyTurns(p, i, s, g) != Turns(p, i + 1, KeyClass(p, i, s, g), g))
    ensures KeyClass(p, i, s, g) == if KeyTurns(p, i, s, g) then Reverse(Project(KeyOrderAt(p.keys[i]), g, s)) else Project(KeyOrderAt(p.keys[i]), g, s)
    ensures Project(OrderFrom(p, i), g, s) == Project(OrderFrom(p, i + 1), g, Project(KeyOrderAt(p.keys[i]), g, s))
  {
    hide KeyTurns, KeyOrderAt, Reverse, Project;
    ProjectTwice(KeyOrderAt(p.keys[i]), OrderFrom(p, i + 1), g, s);
  }

  lemma FinalBase<T>(p: Plan<T>, i: nat, s: seq<T>, g: T)
    requires i >= |p.keys|
    ensures var q := Project(OrderFrom(p, i), g, s);
      FinalClass(p, i, s, g) == if Turns(p, i, s, g) then Reverse(q) else q
  {
    hide Project, Reverse, LastOrder;
  }

  /** They come out in their order or in its reverse, as `Turns` says. */
  lemma {:induction false} FinalClassIs<T(!new)>(p: Plan<T>, i: nat, s: seq<T>, g: T)
    ensures var q := Project(OrderFrom(p, i), g, s);
      FinalClass(p, i, s, g) == if Turns(p, i, s, g) then Reverse(q) else q
    decreases |p.keys| - i
  {
    hide *;
    if i >= |p.keys| {
      FinalBase(p, i, s, g);
    } else {
      var q := Project(KeyOrderAt(p.keys[i]), g, s);
      FinalStep(p, i, s, g);
      FinalClassIs(p, i + 1, KeyClass(p, i, s, g), g);
      ProjectReverse(OrderFrom(p, i + 1), g, q);
      ReverseTwice(Project(OrderFrom(p, i + 1), g, q));
    }
  }

  lemma ProjectReverse<T>(c: (T, T) -> int, g: T, s: seq<T>)
    ensures Project(c, g, Reverse(s)) == Reverse(Project(c, g, s))
  {
    FilterReverse(Like(c, g), s);
  }

  /** Fewer than two lines come out as they are. */
  lemma FewStay<T(!new)>(p: Plan<T>, i: nat, s: seq<T>)
    requires |s| <= 1
    ensures forall g :: FinalClass(p, i, s, g) == Project(OrderFrom(p, i), g, s)
  {
    forall g ensures FinalClass(p, i, s, g) == Project(OrderFrom(p, i), g, s) {
      FinalClassIs(p, i, s, g);
      ShortReverse(Project(OrderFrom(p, i), g, s));
    }
  }

  lemma FinalsFromNothing<T(!new)>(p: Plan<T>, i: nat)
    ensures NothingFromNothing(Finals(p, i))
  {
    FewStay(p, i, []);
    hide FinalClass, OrderFrom;
  }

  // ---------- One radix call ----------

  lemma ArrangedPermutes<T(!new)>(e: Engine<T>, depth: nat, s: seq<T>, t: seq<T>)
    requires Arranged(e, depth, s, t)
    ensures multiset(t) == multiset(s)
  {
    hide Sorted, Filter, Flips, Reverse;
    KeyOrderPreorder(e.key, e.reverse);
    var c := EngineOrder(e);
    forall x ensures multiset(t)[x] == multiset(s)[x] {
      FilterMultiset(Like(c, x), t, x);
      FilterMultiset(Like(c, x), s, x);
      assert Project(c, x, t) == Arrangement(e, depth, s, x);
      ReversePermutes(Project(c, x, s));
      assert Like(c, x)(x);
    }
    assert multiset(t) == multiset(s);
  }

  lemma {:induction false} ReversePermutes<T>(s: seq<T>)
    ensures multiset(Reverse(s)) == multiset(s)
  {
    if s != [] {
      ReversePermutes(s[..|s| - 1]);
      assert s == s[..|s| - 1] + [s[|s| - 1]];
    }
  }

  ghost function Arrangements<T>(e: Engine<T>): Arranger<T> {
    (g: T, s: seq<T>) => Arrangement(e, 0, s, g)
  }

  lemma ArrangedRefines<T(!new)>(e: Engine<T>, s: seq<T>, t: seq<T>)
    requires Arranged(e, 0, s, t)
    ensures Refined(EngineOrder(e), Arrangements(e), s, t)
  {
    ArrangedPermutes(e, 0, s, t);
    ArrangedSorted(e, 0, s, t);
    hide Sorted, Project, EngineOrder, Arrangement;
  }

  /** An engine that does not scan for common prefixes is stable. */
  lemma ArrangedKeeps<T(!new)>(e: Engine<T>, s: seq<T>, t: seq<T>)
    requires Arranged(e, 0, s, t) && !e.skipsPrefix
    ensures Refined(EngineOrder(e), Keeping(EngineOrder(e)), s, t)
  {
    ArrangedRefines(e, s, t);
    hide Refined, Project;
    RefinedSame(EngineOrder(e), Arrangements(e), Keeping(EngineOrder(e)), s, t);
  }

  lemma ReverseSorts<T(!new)>(key: T -> Text, s: seq<T>)
    requires Sorted(KeyOrder(key, false), s)
    ensures Sorted(KeyOrder(key, true), Reverse(s))
  {
    var r := Reverse(s);
    forall i, j | 0 <= i < j < |r| ensures KeyOrder(key, true)(r[i], r[j]) <= 0 {
      assert KeyOrder(key, false)(s[|s| - 1 - j], s[|s| - 1 - i]) <= 0;
      CompareTotal(key(r[i]), key(r[j]));
    }
  }

  /** Last resort on one group: whole-line radix, then the global reverse. */
  method SortGroupByLine<T(!new)>(p: Plan<T>, items: array<T>, aux: array<T>, start: nat, i: nat)
    requires start < i <= items.Length == aux.Length && items != aux && p.LastResort()
    modifies items, aux
    ensures Refined(LastOrder(p), Finals(p, |p.keys|), old(items[start..i]), items[start..i])
    ensures forall k :: 0 <= k < items.Length && !(start <= k < i) ==> items[k] == old(items[k]) && aux[k] == old(aux[k])
  {
    ghost var s := items[start..i];
    var e := LineRadix(p.text);
    RootShares(p.text, s);
    assert e.threshold == 24 && EngineOrder(e) == KeyOrder(p.text, false) && !e.skipsPrefix;
    hide *;
    StableRadix.RadixRange(e, items, aux, start, i, 0);
    ghost var t := items[start..i];
    ArrangedKeeps(e, s, t);
    if p.reverse {
      ReverseRange(items, start, i);
    }
    LineGroupRefined(p, s, t, items[start..i]);
  }

  lemma SameTextClass<T(!new)>(text: T -> Text, reverse: bool, g: T, s: seq<T>)
    ensures Project(KeyOrder(text, reverse), g, s) == Project(KeyOrder(text, false), g, s)
  {
    KeyOrderPreorder(text, reverse);
    KeyOrderPreorder(text, false);
    FilterSame(Like(KeyOrder(text, reverse), g), Like(KeyOrder(text, false), g), s);
  }

  lemma LineGroupRefined<T(!new)>(p: Plan<T>, s: seq<T>, t: seq<T>, u: seq<T>)
    requires p.LastResort() && Refined(KeyOrder(p.text, false), Keeping(KeyOrder(p.text, false)), s, t)
    requires u == if p.reverse then Reverse(t) else t
    ensures Refined(LastOrder(p), Finals(p, |p.keys|), s, u)
  {
    if p.reverse {
      ReverseSorts(p.text, t);
      ReversePermutes(t);
    }
    hide Reverse, Project, Sorted;
    forall g ensures Project(LastOrder(p), g, u) == Finals(p, |p.keys|)(g, s) {
      SameTextClass(p.text, p.reverse, g, s);
      SameTextClass(p.text, p.reverse, g, u);
      ProjectReverse(KeyOrder(p.text, false), g, t);
      assert Project(KeyOrder(p.text, false), g, t) == Keeping(KeyOrder(p.text, false))(g, s);
    }
  }

  // ---------- The monotonic shortcut on a range ----------

  ghost predicate Ascends<T>(c: (T, T) -> int, s: seq<T>) {
    forall i :: 0 < i < |s| ==> c(s[i - 1], s[i]) <= 0
  }

  ghost predicate StrictlyDescends<T>(c: (T, T) -> int, s: seq<T>) {
    forall i :: 0 < i < |s| ==> c(s[i - 1], s[i]) > 0
  }

  lemma {:induction false} AscendsSorted<T(!new)>(c: (T, T) -> int, s: seq<T>)
    requires TotalPreorder(c) && Ascends(c, s)
    ensures Sorted(c, s)
  {
    if s != [] {
      var n := |s| - 1;
      AscendsSorted(c, s[..n]);
      forall i | 0 <= i < n ensures c(s[i], s[n]) <= 0 {
        assert i < n - 1 ==> c(s[i], s[n - 1]) <= 0;
        assert c(s[n - 1], s[n]) <= 0;
      }
    }
  }

  /** A strictly descending range has no ties, so reversing it is its stable sort. */
  lemma DescendsReversed<T(!new)>(c: (T, T) -> int, s: seq<T>)
    requires TotalPreorder(c) && StrictlyDescends(c, s)
    ensures IsStableSort(c, s, Reverse(s))
  {
    var r := Reverse(s);
    forall i | 0 < i < |r| ensures c(r[i - 1], r[i]) < 0 {
      var j := |s| - i;
      assert c(s[j - 1], s[j]) > 0;
    }
    AscendsSorted(c, r);
    forall g ensures Project(c, g, s) == Project(c, g, r) { DescendingClass(c, g, s); }
  }

  /** Everything earlier in a strictly descending range is strictly above. */
  lemma {:induction false} DescendsFar<T(!new)>(c: (T, T) -> int, s: seq<T>, i: nat, j: nat)
    requires TotalPreorder(c) && StrictlyDescends(c, s) && i < j < |s|
    ensures c(s[i], s[j]) > 0
    decreases j
  {
    assert c(s[j - 1], s[j]) > 0;
    if i < j - 1 {
      DescendsFar(c, s, i, j - 1);
      assert c(s[j], s[j - 1]) < 0 && c(s[j - 1], s[i]) < 0;
      StrictLeft(c, s[j], s[j - 1], s[i]);
    }
  }

  /** The last element's class holds nothing else. */
  lemma LastIsAlone<T(!new)>(c: (T, T) -> int, g: T, s: seq<T>)
    requires TotalPreorder(c) && StrictlyDescends(c, s) && s != [] && c(s[|s| - 1], g) == 0
    ensures Project(c, g, s[..|s| - 1]) == []
  {
    var n := |s| - 1;
    forall x | x in s[..n] ensures !Like(c, g)(x) {
      var i :| 0 <= i < n && s[i] == x;
      DescendsFar(c, s, i, n);
      LikeTransitive(c, s[i], s[n], g);
    }
    FilterNone(Like(c, g), s[..n]);
  }

  lemma ProjectEnds<T>(c: (T, T) -> int, g: T, s: seq<T>, t: seq<T>)
    requires s != []
    ensures var x := if c(s[|s| - 1], g) == 0 then [s[|s| - 1]] else [];
      && Project(c, g, s) == Project(c, g, s[..|s| - 1]) + x
      && Project(c, g, [s[|s| - 1]] + t) == x + Project(c, g, t)
  {
    FilterConcat(Like(c, g), [s[|s| - 1]], t);
    assert [s[|s| - 1]][..0] == [];
  }

  lemma {:induction false} DescendingClass<T(!new)>(c: (T, T) -> int, g: T, s: seq<T>)
    requires TotalPreorder(c) && StrictlyDescends(c, s)
    ensures Project(c, g, s) == Project(c, g, Reverse(s))
  {
    if s != [] {
      var n := |s| - 1;
      assert StrictlyDescends(c, s[..n]);
      hide *;
      DescendingClass(c, g, s[..n]);
      ReverseStep(s);
      ProjectEnds(c, g, s, Reverse(s[..n]));
      if c(s[n], g) == 0 {
        LastIsAlone(c, g, s);
      }
    } else {
      assert Reverse(s) == [];
    }
  }

  lemma ScanStep<T>(c: (T, T) -> int, s: seq<T>, i: nat)
    requires 0 < i < |s|
    ensures Ascends(c, s[..i + 1]) <==> Ascends(c, s[..i]) && c(s[i - 1], s[i]) <= 0
    ensures StrictlyDescends(c, s[..i + 1]) <==> StrictlyDescends(c, s[..i]) && c(s[i - 1], s[i]) > 0
  {
    var a, b := s[..i], s[..i + 1];
    if Ascends(c, b) {
      forall k | 0 < k < i ensures c(a[k - 1], a[k]) <= 0 { assert c(b[k - 1], b[k]) <= 0; }
      assert c(b[i - 1], b[i]) <= 0;
    }
    if StrictlyDescends(c, b) {
      forall k | 0 < k < i ensures c(a[k - 1], a[k]) > 0 { assert c(b[k - 1], b[k]) > 0; }
      assert c(b[i - 1], b[i]) > 0;
    }
    if Ascends(c, a) && c(s[i - 1], s[i]) <= 0 {
      forall k | 0 < k < |b| ensures c(b[k - 1], b[k]) <= 0 { assert k < i ==> c(a[k - 1], a[k]) <= 0; }
    }
    if StrictlyDescends(c, a) && c(s[i - 1], s[i]) > 0 {
      forall k | 0 < k < |b| ensures c(b[k - 1], b[k]) > 0 { assert k < i ==> c(a[k - 1], a[k]) > 0; }
    }
  }

  lemma ScanWhole<T>(c: (T, T) -> int, s: seq<T>, i: nat)
    requires i <= |s|
    ensures Ascends(c, s) ==> Ascends(c, s[..i])
    ensures StrictlyDescends(c, s) ==> StrictlyDescends(c, s[..i])
    ensures i <= 1 ==> Ascends(c, s[..i]) && StrictlyDescends(c, s[..i])
  {
  }

  /** The scan of `maybe_use_key_monotonic` and its range version. */
  method ScanMonotonic<T>(items: array<T>, lo: nat, hi: nat, c: (T, T) -> int) returns (monotonic: bool, descending: bool)
    requires lo < hi <= items.Length
    ensures monotonic && !descending ==> Ascends(c, items[lo..hi])
    ensures monotonic && descending ==> StrictlyDescends(c, items[lo..hi])
    ensures monotonic <==> Ascends(c, items[lo..hi]) || StrictlyDescends(c, items[lo..hi])
  {
    hide *;
    ghost var s := items[lo..hi];
    var ascending := true;
    descending := true;
    var i := lo + 1;
    ScanWhole(c, s, 1);
    while i < hi
      invariant lo < i <= hi && (ascending || descending)
      invariant ascending <==> Ascends(c, s[..i - lo])
      invariant descending <==> StrictlyDescends(c, s[..i - lo])
    {
      var cmp := c(items[i - 1], items[i]);
      assert s[i - lo - 1] == items[i - 1] && s[i - lo] == items[i];
      ScanStep(c, s, i - lo);
      if cmp > 0 {
        ascending := false;
      }
      if cmp <= 0 {
        descending := false;
      }
      i := i + 1;
      if !ascending && !descending {
        ScanWhole(c, s, i - lo);
        return false, descending;
      }
    }
    assert s[..hi - lo] == s;
    return true, descending;
  }

  /** One later key on one range: already in order, in strictly reverse order, or
      handed to the radix. */
  method SortByKey<T(!new)>(p: Plan<T>, i: nat, items: array<T>, aux: array<T>, lo: nat, hi: nat)
    requires lo < hi <= items.Length == aux.Length && items != aux && 1 <= i < |p.keys|
    modifies items, aux
    ensures Refined(KeyOrderAt(p.keys[i]), KeyClasses(p, i), old(items[lo..hi]), items[lo..hi])
    ensures forall j :: 0 <= j < items.Length && !(lo <= j < hi) ==> items[j] == old(items[j]) && aux[j] == old(aux[j])
  {
    ghost var s := items[lo..hi];
    assert LooksFirst(p, i);
    hide *;
    var monotonic, descending := ScanMonotonic(items, lo, hi, KeyOrderAt(p.keys[i]));
    if monotonic {
      if descending {
        ReverseRange(items, lo, hi);
      }
      InOrderRefined(p, i, s, descending);
    } else {
      RadixByKey(p, i, items, aux, lo, hi);
    }
  }

  lemma KeyPreorder<T(!new)>(k: Key<T>)
    ensures TotalPreorder(KeyOrderAt(k))
  {
    KeyOrderPreorder(k.span, k.reverse);
  }

  /** A range that the look finds in order, or in strictly reverse order. */
  lemma InOrderRefined<T(!new)>(p: Plan<T>, i: nat, s: seq<T>, descending: bool)
    requires i < |p.keys| && LooksFirst(p, i)
    requires if descending then StrictlyDescends(KeyOrderAt(p.keys[i]), s) else Ascends(KeyOrderAt(p.keys[i]), s)
    ensures Refined(KeyOrderAt(p.keys[i]), KeyClasses(p, i), s, if descending then Reverse(s) else s)
  {
    var c := KeyOrderAt(p.keys[i]);
    KeyPreorder(p.keys[i]);
    hide KeyOrderAt, LooksFirst, Flips, Reverse, Sorted, Project, TotalPreorder;
    if descending {
      hide Ascends, StrictlyDescends;
      DescendsReversed(c, s);
      ReversePermutes(s);
      forall g ensures Project(c, g, Reverse(s)) == KeyClasses(p, i)(g, s) {
        assert Project(c, g, s) == Project(c, g, Reverse(s));
        ProjectReverse(c, g, s);
      }
    } else {
      AscendsSorted(c, s);
    }
  }

  /** The radix of key `i`, where the look has found nothing or was not taken. */
  method RadixByKey<T(!new)>(p: Plan<T>, i: nat, items: array<T>, aux: array<T>, lo: nat, hi: nat)
    requires lo < hi <= items.Length == aux.Length && items != aux && i < |p.keys|
    requires !(LooksFirst(p, i) && Ascends(KeyOrderAt(p.keys[i]), items[lo..hi]))
    modifies items, aux
    ensures Refined(KeyOrderAt(p.keys[i]), KeyClasses(p, i), old(items[lo..hi]), items[lo..hi])
    ensures forall j :: 0 <= j < items.Length && !(lo <= j < hi) ==> items[j] == old(items[j]) && aux[j] == old(aux[j])
  {
    ghost var s := items[lo..hi];
    var e := KeyRadix(p.keys[i]);
    KeyRadixIs(p.keys[i]);
    hide *;
    RootShares(e.key, s);
    StableRadix.RadixRange(e, items, aux, lo, hi, 0);
    RadixRefined(p, i, s, items[lo..hi]);
  }

  /** The first key, on the whole array: with several threads the buckets of the top
      pass are sorted by workers. */
  method RadixFirstKey<T(!new)>(p: Plan<T>, items: array<T>, aux: array<T>, par: Threads.Parallelism)
    requires 0 < items.Length == aux.Length && items != aux && |p.keys| >= 1
    requires !(LooksFirst(p, 0) && Ascends(KeyOrderAt(p.keys[0]), items[0..items.Length]))
    modifies items, aux
    ensures Refined(KeyOrderAt(p.keys[0]), KeyClasses(p, 0), old(items[0..items.Length]), items[0..items.Length])
  {
    hide *;
    ghost var s := items[0..items.Length];
    var threads := Threads.ThreadsFor(par, items.Length);
    if threads > 1 {
      KeyRadixIs(p.keys[0]);
      P.RadixThreaded(KeyRadix(p.keys[0]), items, aux, 0, items.Length, threads, par.world);
      RadixRefined(p, 0, s, items[0..items.Length]);
    } else {
      RadixByKey(p, 0, items, aux, 0, items.Length);
    }
  }

  lemma RadixRefined<T(!new)>(p: Plan<T>, i: nat, s: seq<T>, t: seq<T>)
    requires i < |p.keys| && Arranged(KeyRadix(p.keys[i]), 0, s, t)
    requires !(LooksFirst(p, i) && Ascends(KeyOrderAt(p.keys[i]), s))
    ensures Refined(KeyOrderAt(p.keys[i]), KeyClasses(p, i), s, t)
  {
    var e := KeyRadix(p.keys[i]);
    KeyRadixIs(p.keys[i]);
    ArrangedRefines(e, s, t);
    assert e.key == p.keys[i].span;
    hide Refined, LooksFirst, Ascends, Flips, Reverse, Project, KeyRadix, EngineOrder, KeyOrderAt;
    RefinedSame(EngineOrder(e), Arrangements(e), KeyClasses(p, i), s, t);
  }

  lemma KeyRadixIs<T>(k: Key<T>)
    ensures var e := KeyRadix(k); e.threshold == 48 && EngineOrder(e) == KeyOrderAt(k) && e.reverse == k.reverse && e.skipsPrefix
  {
  }

  /** `sort_line_last_resort_groups`: order the ties of key `i` by whole line. */
  method SortLastResortGroups<T(!new)>(p: Plan<T>, i: nat, items: array<T>, aux: array<T>, lo: nat, hi: nat)
    requires lo < hi <= items.Length == aux.Length && items != aux && p.LastResort() && i < |p.keys|
    requires Sorted(KeyOrderAt(p.keys[i]), items[lo..hi])
    modifies items, aux
    ensures Refined(Lex(KeyOrderAt(p.keys[i]), LastOrder(p)), Then(Keeping(KeyOrderAt(p.keys[i])), Finals(p, |p.keys|)), old(items[lo..hi]), items[lo..hi])
    ensures forall k :: 0 <= k < items.Length && !(lo <= k < hi) ==> items[k] == old(items[k]) && aux[k] == old(aux[k])
  {
    hide *;
    var c := KeyOrderAt(p.keys[i]);
    ghost var f, out, s := LastOrder(p), Finals(p, |p.keys|), items[..];
    assert s[lo..hi] == items[lo..hi];
    KeyPreorder(p.keys[i]);
    FinalsFromNothing(p, |p.keys|);
    RefineStart(c, f, out, s, lo, hi);
    AlikeStart(c, s, lo);
    var start := lo;
    var j := lo + 1;
    while j <= hi
      invariant lo < j <= hi + 1 && lo <= start <= hi && (j <= hi ==> start < j) && (j > hi ==> start == hi)
      invariant Refining(c, f, out, s, items[..], lo, start, hi)
      invariant j <= hi ==> Alike(c, s, start, j)
      invariant forall k :: 0 <= k < items.Length && !(lo <= k < hi) ==> items[k] == old(items[k]) && aux[k] == old(aux[k])
    {
      RefiningUntouched(c, f, out, s, items[..], lo, start, hi);
      if j < hi && c(items[start], items[j]) == 0 {
        AlikeMore(c, s, start, j);
      } else {
        GroupWhen(c, s, lo, start, j, hi);
        LastResortGroup(p, c, items, aux, lo, start, j, hi, s);
        start := j;
        if j < hi {
          AlikeStart(c, s, j);
        }
      }
      j := j + 1;
    }
    RefiningDone(c, f, out, s, items[..], lo, hi);
    assert items[..][lo..hi] == items[lo..hi];
  }

  method LastResortGroup<T(!new)>(p: Plan<T>, c: (T, T) -> int, items: array<T>, aux: array<T>, lo: nat, start: nat, j: nat, hi: nat, ghost s: seq<T>)
    requires lo <= start < j <= hi <= items.Length == aux.Length == |s| && items != aux && p.LastResort()
    requires TotalPreorder(c) && Sorted(c, s[lo..hi]) && NothingFromNothing(Finals(p, |p.keys|))
    requires Refining(c, LastOrder(p), Finals(p, |p.keys|), s, items[..], lo, start, hi) && Group(c, s, lo, start, j, hi)
    modifies items, aux
    ensures Refining(c, LastOrder(p), Finals(p, |p.keys|), s, items[..], lo, j, hi)
    ensures forall k :: 0 <= k < items.Length && !(lo <= k < hi) ==> items[k] == old(items[k]) && aux[k] == old(aux[k])
  {
    hide *;
    ghost var t := items[..];
    RefiningUntouched(c, LastOrder(p), Finals(p, |p.keys|), s, t, lo, start, hi);
    if j - start > 1 {
      assert items[start..j] == s[start..j];
      SortGroupByLine(p, items, aux, start, j);
      assert items[..][start..j] == items[start..j];
      RefineStep(c, LastOrder(p), Finals(p, |p.keys|), s, t, items[..], lo, start, j, hi);
    } else {
      OneStays(p, |p.keys|, s[start..j]);
      RefineKeep(c, LastOrder(p), Finals(p, |p.keys|), s, t, lo, start, j, hi);
    }
  }

  lemma OneStays<T(!new)>(p: Plan<T>, i: nat, s: seq<T>)
    requires |s| <= 1
    ensures forall g :: Project(OrderFrom(p, i), g, s) == Finals(p, i)(g, s)
    ensures i >= |p.keys| ==> OrderFrom(p, i) == LastOrder(p)
  {
    FewStay(p, i, s);
    hide Project, FinalClass;
  }

  lemma OrderFromStep<T>(p: Plan<T>, i: nat)
    ensures i < |p.keys| ==> OrderFrom(p, i) == Lex(KeyOrderAt(p.keys[i]), OrderFrom(p, i + 1))
    ensures i >= |p.keys| ==> OrderFrom(p, i) == LastOrder(p)
    ensures !p.LastResort() ==> LastOrder(p) == Indifferent()
  {
  }

  /** `sort_next_key_groups`: order the ties of key `i` by the keys after it. */
  method SortNextKeyGroups<T(!new)>(p: Plan<T>, i: nat, items: array<T>, aux: array<T>, lo: nat, hi: nat)
    requires lo < hi <= items.Length == aux.Length && items != aux && i + 1 < |p.keys|
    requires Sorted(KeyOrderAt(p.keys[i]), items[lo..hi])
    modifies items, aux
    ensures Refined(OrderFrom(p, i), Then(Keeping(KeyOrderAt(p.keys[i])), Finals(p, i + 1)), old(items[lo..hi]), items[lo..hi])
    ensures forall k :: 0 <= k < items.Length && !(lo <= k < hi) ==> items[k] == old(items[k]) && aux[k] == old(aux[k])
    decreases |p.keys| - i, 1
  {
    hide *;
    var c := KeyOrderAt(p.keys[i]);
    ghost var f, out, s := OrderFrom(p, i + 1), Finals(p, i + 1), items[..];
    assert s[lo..hi] == items[lo..hi];
    KeyPreorder(p.keys[i]);
    FinalsFromNothing(p, i + 1);
    RefineStart(c, f, out, s, lo, hi);
    AlikeStart(c, s, lo);
    var start := lo;
    var j := lo + 1;
    while j <= hi
      invariant lo < j <= hi + 1 && lo <= start <= hi && (j <= hi ==> start < j) && (j > hi ==> start == hi)
      invariant Refining(c, f, out, s, items[..], lo, start, hi)
      invariant j <= hi ==> Alike(c, s, start, j)
      invariant forall k :: 0 <= k < items.Length && !(lo <= k < hi) ==> items[k] == old(items[k]) && aux[k] == old(aux[k])
    {
      RefiningUntouched(c, f, out, s, items[..], lo, start, hi);
      if j < hi && c(items[start], items[j]) == 0 {
        AlikeMore(c, s, start, j);
      } else {
        GroupWhen(c, s, lo, start, j, hi);
        NextKeyGroup(p, i, c, items, aux, lo, start, j, hi, s);
        start := j;
        if j < hi {
          AlikeStart(c, s, j);
        }
      }
      j := j + 1;
    }
    RefiningDone(c, f, out, s, items[..], lo, hi);
    assert items[..][lo..hi] == items[lo..hi];
    OrderFromStep(p, i);
  }

  method NextKeyGroup<T(!new)>(p: Plan<T>, i: nat, c: (T, T) -> int, items: array<T>, aux: array<T>, lo: nat, start: nat, j: nat, hi: nat, ghost s: seq<T>)
    requires lo <= start < j <= hi <= items.Length == aux.Length == |s| && items != aux && i + 1 < |p.keys|
    requires TotalPreorder(c) && Sorted(c, s[lo..hi]) && NothingFromNothing(Finals(p, i + 1))
    requires Refining(c, OrderFrom(p, i + 1), Finals(p, i + 1), s, items[..], lo, start, hi) && Group(c, s, lo, start, j, hi)
    modifies items, aux
    ensures Refining(c, OrderFrom(p, i + 1), Finals(p, i + 1), s, items[..], lo, j, hi)
    ensures forall k :: 0 <= k < items.Length && !(lo <= k < hi) ==> items[k] == old(items[k]) && aux[k] == old(aux[k])
    decreases |p.keys| - i, 0
  {
    hide *;
    ghost var t := items[..];
    RefiningUntouched(c, OrderFrom(p, i + 1), Finals(p, i + 1), s, t, lo, start, hi);
    if j - start > 1 {
      assert items[start..j] == s[start..j];
      SortByKeysFrom(p, i + 1, items, aux, start, j);
      assert items[..][start..j] == items[start..j];
      RefineStep(c, OrderFrom(p, i + 1), Finals(p, i + 1), s, t, items[..], lo, start, j, hi);
    } else {
      OneStays(p, i + 1, s[start..j]);
      RefineKeep(c, OrderFrom(p, i + 1), Finals(p, i + 1), s, t, lo, start, j, hi);
    }
  }

  /** A range by key `i`, then its ties by what follows. */
  method SortByKeysFrom<T(!new)>(p: Plan<T>, i: nat, items: array<T>, aux: array<T>, lo: nat, hi: nat)
    requires lo < hi <= items.Length == aux.Length && items != aux && 1 <= i < |p.keys|
    modifies items, aux
    ensures Refined(OrderFrom(p, i), Finals(p, i), old(items[lo..hi]), items[lo..hi])
    ensures forall k :: 0 <= k < items.Length && !(lo <= k < hi) ==> items[k] == old(items[k]) && aux[k] == old(aux[k])
    decreases |p.keys| - i, 3
  {
    hide *;
    ghost var s := items[lo..hi];
    SortByKey(p, i, items, aux, lo, hi);
    SortTies(p, i, items, aux, lo, hi, s);
  }

  /** After key `i`: the next key, the last resort, or nothing. */
  method SortTies<T(!new)>(p: Plan<T>, i: nat, items: array<T>, aux: array<T>, lo: nat, hi: nat, ghost s: seq<T>)
    requires lo < hi <= items.Length == aux.Length && items != aux && i < |p.keys|
    requires Refined(KeyOrderAt(p.keys[i]), KeyClasses(p, i), s, items[lo..hi])
    modifies items, aux
    ensures Refined(OrderFrom(p, i), Finals(p, i), s, items[lo..hi])
    ensures forall k :: 0 <= k < items.Length && !(lo <= k < hi) ==> items[k] == old(items[k]) && aux[k] == old(aux[k])
    decreases |p.keys| - i, 2
  {
    hide *;
    ghost var c, u := KeyOrderAt(p.keys[i]), items[lo..hi];
    RefinedSorted(c, KeyClasses(p, i), s, u);
    if i + 1 < |p.keys| {
      SortNextKeyGroups(p, i, items, aux, lo, hi);
      TiesSorted(p, i, s, u, items[lo..hi]);
    } else if p.LastResort() {
      SortLastResortGroups(p, i, items, aux, lo, hi);
      OrderFromStep(p, i);
      OrderFromStep(p, i + 1);
      TiesSorted(p, i, s, u, items[lo..hi]);
    } else {
      OneKeyRefined(p, i, s, u);
    }
  }

  lemma TiesSorted<T(!new)>(p: Plan<T>, i: nat, s: seq<T>, u: seq<T>, t: seq<T>)
    requires i < |p.keys| && Refined(KeyOrderAt(p.keys[i]), KeyClasses(p, i), s, u)
    requires Refined(OrderFrom(p, i), Then(Keeping(KeyOrderAt(p.keys[i])), Finals(p, i + 1)), u, t)
    ensures Refined(OrderFrom(p, i), Finals(p, i), s, t)
  {
    OrderFromStep(p, i);
    hide Refined, KeyOrderAt, KeyClass, OrderFrom;
    RefinedCompose(KeyOrderAt(p.keys[i]), OrderFrom(p, i + 1), KeyClasses(p, i), Finals(p, i + 1), s, u, t);
    RefinedSame(OrderFrom(p, i), Then(KeyClasses(p, i), Finals(p, i + 1)), Finals(p, i), s, t);
  }

  lemma OneKeyRefined<T(!new)>(p: Plan<T>, i: nat, s: seq<T>, t: seq<T>)
    requires i + 1 == |p.keys| && !p.LastResort() && Refined(KeyOrderAt(p.keys[i]), KeyClasses(p, i), s, t)
    ensures Refined(OrderFrom(p, i), Finals(p, i), s, t)
  {
    OrderFromStep(p, i);
    OrderFromStep(p, i + 1);
    hide Refined, KeyOrderAt, KeyClass, OrderFrom;
    RefinedIndifferent(KeyOrderAt(p.keys[i]), KeyClasses(p, i), s, t);
    forall g ensures KeyClasses(p, i)(g, s) == Finals(p, i)(g, s) {
      AllAlike(KeyClass(p, i, s, g), g);
      assert FinalClass(p, i, s, g) == FinalClass(p, i + 1, KeyClass(p, i, s, g), g);
      assert FinalClass(p, i + 1, KeyClass(p, i, s, g), g) == Project(LastOrder(p), g, KeyClass(p, i, s, g));
    }
    RefinedSame(OrderFrom(p, i), KeyClasses(p, i), Finals(p, i), s, t);
  }

  lemma AllAlike<T>(s: seq<T>, g: T)
    ensures Project(Indifferent(), g, s) == s
  {
    FilterAll(Like(Indifferent(), g), s);
  }

  // ---------- The public entry point ----------

  /** What is written: a flag may ask for the array in reverse. */
  ghost function Output<T>(items: seq<T>, reversed: bool): seq<T> {
    if reversed then Reverse(items) else items
  }

  /** `maybe_use_key_monotonic`, if it applies. */
  method LookAtInput<T>(p: Plan<T>, items: array<T>) returns (monotonic: bool, descending: bool)
    requires |p.keys| >= 1 && items.Length >= 1
    ensures monotonic ==> LooksFirst(p, 0)
    ensures monotonic ==> if descending then StrictlyDescends(KeyOrderAt(p.keys[0]), items[..]) else Ascends(KeyOrderAt(p.keys[0]), items[..])
    ensures !monotonic && LooksFirst(p, 0) ==> !Ascends(KeyOrderAt(p.keys[0]), items[..]) && !StrictlyDescends(KeyOrderAt(p.keys[0]), items[..])
  {
    monotonic, descending := false, false;
    if p.stable && !p.unique && |p.keys| == 1 {
      assert items[0..items.Length] == items[..];
      monotonic, descending := ScanMonotonic(items, 0, items.Length, KeyOrderAt(p.keys[0]));
    }
  }

  /** `rank_radix_sort_key`, single-threaded or not: the result is the same, and
      `Groups.RefinedOnce` says that this contract fixes it. */
  method RadixSortKey<T(!new)>(p: Plan<T>, items: array<T>, par: Threads.Parallelism) returns (reversed: bool)
    requires |p.keys| >= 1
    modifies items
    ensures Refined(OrderFrom(p, 0), Finals(p, 0), old(items[..]), Output(items[..], reversed))
  {
    hide *;
    ghost var s := items[..];
    reversed := false;
    OutputIs(s, false);
    if items.Length < 2 {
      ShortRefined(p, s);
      return;
    }
    var monotonic, descending := LookAtInput(p, items);
    if monotonic {
      ShortcutRefined(p, s, descending);
      return descending;
    }
    SortAllKeys(p, items, par);
    OutputIs(items[..], false);
  }

  lemma OutputIs<T>(items: seq<T>, reversed: bool)
    ensures Output(items, reversed) == if reversed then Reverse(items) else items
  {
  }

  lemma ShortRefined<T(!new)>(p: Plan<T>, s: seq<T>)
    requires |s| < 2
    ensures Refined(OrderFrom(p, 0), Finals(p, 0), s, s)
  {
    FewStay(p, 0, s);
    hide OrderFrom, FinalClass;
  }

  lemma ShortcutRefined<T(!new)>(p: Plan<T>, s: seq<T>, descending: bool)
    requires |p.keys| >= 1 && LooksFirst(p, 0)
    requires if descending then StrictlyDescends(KeyOrderAt(p.keys[0]), s) else Ascends(KeyOrderAt(p.keys[0]), s)
    ensures Refined(OrderFrom(p, 0), Finals(p, 0), s, Output(s, descending))
  {
    hide KeyOrderAt, Ascends, StrictlyDescends, Refined;
    InOrderRefined(p, 0, s, descending);
    OneKeyRefined(p, 0, s, Output(s, descending));
  }

  method SortAllKeys<T(!new)>(p: Plan<T>, items: array<T>, par: Threads.Parallelism)
    requires |p.keys| >= 1 && items.Length >= 2
    requires !(LooksFirst(p, 0) && Ascends(KeyOrderAt(p.keys[0]), items[..]))
    modifies items
    ensures Refined(OrderFrom(p, 0), Finals(p, 0), old(items[..]), items[..])
  {
    hide *;
    ghost var s := items[..];
    var aux := new T[items.Length](_ requires items.Length > 0 reads items => items[0]);
    assert items[0..items.Length] == s;
    RadixFirstKey(p, items, aux, par);
    SortTies(p, 0, items, aux, 0, items.Length, s);
    assert items[0..items.Length] == items[..];
  }

  // ---------- Agreement with the oracle ----------

  /** Every class that turns reads the same backwards. */
  ghost predicate TurnsAreIdle<T(!new)>(p: Plan<T>, s: seq<T>) {
    forall g :: Turns(p, 0, s, g) ==> Project(OrderFrom(p, 0), g, s) == Reverse(Project(OrderFrom(p, 0), g, s))
  }

  /** The engine's output is the stable sort that the scalar engine computes,
      line for line, exactly when no class that turns is changed by it. */
  lemma ElementsExact<T(!new)>(p: Plan<T>, s: seq<T>, out: seq<T>)
    requires Refined(OrderFrom(p, 0), Finals(p, 0), s, out)
    ensures out == StableSort(OrderFrom(p, 0), s) <==> TurnsAreIdle(p, s)
  {
    var c := OrderFrom(p, 0);
    OrderFromPreorder(p, 0);
    StableSortIs(c, s, out);
    hide OrderFrom, TotalPreorder, Reverse, StableSort, Turns, FinalClass;
    forall g ensures Project(c, g, out) == if Turns(p, 0, s, g) then Reverse(Project(c, g, s)) else Project(c, g, s) {
      FinalClassIs(p, 0, s, g);
      assert Project(c, g, out) == Finals(p, 0)(g, s);
    }
    hide Project;
    StableWhen(c, s, out);
  }

  lemma StableWhen<T(!new)>(c: (T, T) -> int, s: seq<T>, t: seq<T>)
    requires Sorted(c, t)
    ensures IsStableSort(c, s, t) <==> forall g :: Project(c, g, s) == Project(c, g, t)
  {
    hide Project, Sorted;
  }

  /** No key is reversed, and the last resort is not either. */
  predicate Forward<T>(p: Plan<T>) {
    (forall k :: 0 <= k < |p.keys| ==> !p.keys[k].reverse) && (p.LastResort() ==> !p.reverse)
  }

  lemma {:induction false} ForwardNeverTurns<T>(p: Plan<T>, i: nat, s: seq<T>, g: T)
    requires Forward(p)
    ensures !Turns(p, i, s, g)
    decreases |p.keys| - i
  {
    if i < |p.keys| {
      ForwardNeverTurns(p, i + 1, KeyClass(p, i, s, g), g);
    }
  }

  /** A class turns only where a range of more than 48 lines is sorted by a
      reversed key. */
  lemma {:induction false} FewNeverTurn<T>(p: Plan<T>, i: nat, s: seq<T>, g: T)
    requires |s| <= KEY_THRESHOLD && !(p.LastResort() && p.reverse)
    ensures !Turns(p, i, s, g)
    decreases |p.keys| - i
  {
    if i < |p.keys| {
      FewNeverTurn(p, i + 1, KeyClass(p, i, s, g), g);
    }
  }

  /** With no reversed key, and no reversed last resort, the engine's output is
      the stable sort that the scalar engine computes. */
  lemma ForwardKeysRefineOracle<T(!new)>(p: Plan<T>, s: seq<T>, out: seq<T>)
    requires Forward(p) && Refined(OrderFrom(p, 0), Finals(p, 0), s, out)
    ensures out == StableSort(OrderFrom(p, 0), s)
  {
    hide Forward, Refined, Turns;
    forall g ensures !Turns(p, 0, s, g) { ForwardNeverTurns(p, 0, s, g); }
    ElementsExact(p, s, out);
  }

  lemma {:induction false} TiesAreEqualTexts<T(!new)>(p: Plan<T>, i: nat, x: T, y: T)
    requires p.LastResort()
    ensures OrderFrom(p, i)(x, y) == 0 ==> p.text(x) == p.text(y)
    decreases |p.keys| - i
  {
    if i < |p.keys| {
      TiesAreEqualTexts(p, i + 1, x, y);
    } else {
      CompareTotal(p.text(x), p.text(y));
    }
  }

  /** With the last resort, whatever is reversed, the lines written are the ones
      the oracle writes. */
  lemma LastResortRefinesOracle<T(!new)>(p: Plan<T>, s: seq<T>, out: seq<T>)
    requires p.LastResort() && Refined(OrderFrom(p, 0), Finals(p, 0), s, out)
    ensures Map(p.text, out) == Map(p.text, StableSort(OrderFrom(p, 0), s))
  {
    var c := OrderFrom(p, 0);
    OrderFromPreorder(p, 0);
    hide OrderFrom;
    var u := StableSort(c, s);
    StableSortStable(c, s);
    SameClassesPermutes(c, s, u);
    PermutationClassSizes(c, out, u);
    SortedAlike(c, out, u);
    forall i | 0 <= i < |out| ensures p.text(out[i]) == p.text(u[i]) {
      TiesAreEqualTexts(p, 0, out[i], u[i]);
    }
  }
}
