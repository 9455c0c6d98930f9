/** The parallel forms of the radix engines: one pass at the top emits the
    bucket ranges as tasks instead of recursing (src/radix.c, the `emit` path),
    and `rank_run_tasks` sorts them in any interleaving. */
module ParallelRadix {
  import opened Arrays
  import opened Buckets
  import opened Bytes
  import opened Insertion
  import opened Orders
  import opened StableRadix
  import opened Threads
  import opened Worklists

  /** The ranges emitted for buckets 1 to `n` - 1. */
  function Children(counts: seq<nat>, starts: seq<nat>, d: nat, n: nat): seq<Child>
    requires |counts| == |starts| == BUCKETS && n <= BUCKETS
  {
    if n <= 1 then []
    else Children(counts, starts, d, n - 1) + ChildAt(counts, starts, d, n - 1)
  }

  function ChildAt(counts: seq<nat>, starts: seq<nat>, d: nat, b: nat): seq<Child>
    requires |counts| == |starts| == BUCKETS && b < BUCKETS
  {
    if counts[b] > 1 then [Child(starts[b], starts[b] + counts[b], d + 1)] else []
  }

  lemma {:induction false} ChildOfBucket(counts: seq<nat>, starts: seq<nat>, d: nat, n: nat, b: nat)
    requires |counts| == |starts| == BUCKETS && 1 <= b < n <= BUCKETS && counts[b] > 1
    ensures Child(starts[b], starts[b] + counts[b], d + 1) in Children(counts, starts, d, n)
  {
    if b < n - 1 {
      ChildOfBucket(counts, starts, d, n - 1, b);
    }
  }

  lemma {:induction false} BucketOfChild(counts: seq<nat>, starts: seq<nat>, d: nat, n: nat, i: nat) returns (b: nat)
    requires |counts| == |starts| == BUCKETS && n <= BUCKETS && i < |Children(counts, starts, d, n)|
    ensures 1 <= b < n && counts[b] > 1
    ensures Children(counts, starts, d, n)[i] == Child(starts[b], starts[b] + counts[b], d + 1)
  {
    var front := Children(counts, starts, d, n - 1);
    if i < |front| {
      b := BucketOfChild(counts, starts, d, n - 1, i);
    } else {
      b := n - 1;
    }
  }

  lemma LayoutSizes(counts: seq<nat>, lo: nat, reverse: bool, starts: seq<nat>)
    requires Layout(counts, lo, reverse, starts)
    ensures |counts| == |starts| == BUCKETS
  {
  }

  lemma ChildrenStep(counts: seq<nat>, starts: seq<nat>, d: nat, n: nat, j: nat)
    requires |counts| == |starts| == BUCKETS && n <= BUCKETS && j < |Children(counts, starts, d, n)|
    ensures 1 < n && Children(counts, starts, d, n - 1) <= Children(counts, starts, d, n)
    ensures var front := Children(counts, starts, d, n - 1);
      j >= |front| ==> j == |front| && Children(counts, starts, d, n)[j] == Child(starts[n - 1], starts[n - 1] + counts[n - 1], d + 1)
  {
  }

  /** Different tasks come from different buckets. */
  lemma {:induction false} ChildrenDistinct(counts: seq<nat>, starts: seq<nat>, lo: nat, reverse: bool, d: nat, n: nat, i: nat, j: nat)
    requires Layout(counts, lo, reverse, starts) && n <= BUCKETS
    requires i < j < |Children(counts, starts, d, n)|
    ensures var c, c' := Children(counts, starts, d, n)[i], Children(counts, starts, d, n)[j];
      c.hi <= c'.lo || c'.hi <= c.lo
  {
    hide *;
    LayoutSizes(counts, lo, reverse, starts);
    ChildrenStep(counts, starts, d, n, j);
    var front := Children(counts, starts, d, n - 1);
    if j < |front| {
      ChildrenDistinct(counts, starts, lo, reverse, d, n - 1, i, j);
    } else {
      var b := BucketOfChild(counts, starts, d, n - 1, i);
      LayoutDisjoint(counts, lo, reverse, starts, b, n - 1);
    }
  }

  // ---------- Emitting from the stable engine ----------

  /** What the engine makes of a range is this relation between before and after. */
  ghost function Arranges<T(!new)>(e: Engine<T>): Relation<T> {
    (d: nat, a: seq<T>, b: seq<T>) => Arranged(e, d, a, b)
  }

  /** The engine accepts ranges whose keys share the bytes before the depth. */
  ghost function SharesAt<T>(key: T -> Text): Domain<T> {
    (d: nat, q: seq<T>) => Shares(key, q, d)
  }

  lemma BucketIsTask<T>(e: Engine<T>, s: seq<T>, d: nat, lo: nat, counts: seq<nat>, starts: seq<nat>, u: seq<T>, b: nat)
    requires Counts(e.key, d, s, counts) && Layout(counts, lo, e.reverse, starts) && Grouped(e, d, s, counts, starts, u)
    requires Shares(e.key, s, d) && d < DEPTH_LIMIT && lo + |s| <= |u| && 1 <= b < BUCKETS && counts[b] > 1
    ensures Task(SharesAt(e.key), DEPTH_LIMIT, lo, lo + |s|, u, Child(starts[b], starts[b] + counts[b], d + 1))
  {
    hide Layout, Counts, Shares, Bucket;
    LayoutInRange(e.key, d, s, counts, lo, e.reverse, starts, b);
    BucketShares(e, s, d, b);
  }

  lemma EmittedTasks<T>(e: Engine<T>, s: seq<T>, d: nat, lo: nat, counts: seq<nat>, starts: seq<nat>, u: seq<T>)
    requires Counts(e.key, d, s, counts) && Layout(counts, lo, e.reverse, starts) && Grouped(e, d, s, counts, starts, u)
    requires Shares(e.key, s, d) && d < DEPTH_LIMIT && lo + |s| <= |u|
    ensures |counts| == |starts| == BUCKETS
    ensures Tasks(SharesAt(e.key), DEPTH_LIMIT, lo, lo + |s|, u, Children(counts, starts, d, BUCKETS))
  {
    hide *;
    LayoutSizes(counts, lo, e.reverse, starts);
    var children := Children(counts, starts, d, BUCKETS);
    forall i | 0 <= i < |children| ensures Task(SharesAt(e.key), DEPTH_LIMIT, lo, lo + |s|, u, children[i]) {
      var b := BucketOfChild(counts, starts, d, BUCKETS, i);
      BucketIsTask(e, s, d, lo, counts, starts, u, b);
    }
    forall i, j | 0 <= i < j < |children| ensures children[i].hi <= children[j].lo || children[j].hi <= children[i].lo {
      ChildrenDistinct(counts, starts, lo, e.reverse, d, BUCKETS, i, j);
    }
    assert Apart(children) by { ApartWhen(children); }
    TasksWhen(SharesAt(e.key), DEPTH_LIMIT, lo, lo + |s|, u, children);
  }

  /** A bucket that was not emitted is untouched by the tasks. */
  lemma NotEmitted<T(!new)>(e: Engine<T>, d: nat, lo: nat, counts: seq<nat>, starts: seq<nat>, u: seq<T>, t: seq<T>, b: nat)
    requires Layout(counts, lo, e.reverse, starts) && TasksDone(Arranges(e), u, Children(counts, starts, d, BUCKETS), t)
    requires b < BUCKETS && (b == 0 || counts[b] <= 1) && starts[b] + counts[b] <= |u|
    ensures t[starts[b]..starts[b] + counts[b]] == u[starts[b]..starts[b] + counts[b]]
  {
    assert |counts| == |starts| == BUCKETS;
    hide TaskDone, Layout, Children;
    var children := Children(counts, starts, d, BUCKETS);
    forall k | starts[b] <= k < starts[b] + counts[b] ensures t[k] == u[k] {
      if InSome(children, k) {
        var i :| 0 <= i < |children| && children[i].lo <= k < children[i].hi;
        var b' := BucketOfChild(counts, starts, d, BUCKETS, i);
        LayoutDisjoint(counts, lo, e.reverse, starts, b, b');
      }
    }
  }

  lemma EmittedPiece<T(!new)>(e: Engine<T>, s: seq<T>, d: nat, lo: nat, counts: seq<nat>, starts: seq<nat>, u: seq<T>, t: seq<T>, b: nat)
    requires Counts(e.key, d, s, counts) && Layout(counts, lo, e.reverse, starts) && Grouped(e, d, s, counts, starts, u)
    requires Shares(e.key, s, d) && e.threshold >= 1 && TasksDone(Arranges(e), u, Children(counts, starts, d, BUCKETS), t)
    requires b < BUCKETS
    ensures Piece(e, d, s, counts, starts, t, b)
  {
    hide Counts, Layout, Shares, Arranged, Bucket, Children;
    var children := Children(counts, starts, d, BUCKETS);
    if b >= 1 && counts[b] > 1 {
      ChildOfBucket(counts, starts, d, BUCKETS, b);
      var i :| 0 <= i < |children| && children[i] == Child(starts[b], starts[b] + counts[b], d + 1);
      assert TaskDone(Arranges(e), u, children[i], t);
    } else {
      SkippedBucket(e, s, d, b, counts);
      NotEmitted(e, d, lo, counts, starts, u, t, b);
    }
  }

  lemma EmissionSuffices<T(!new)>(e: Engine<T>, s: seq<T>, depth: nat, d: nat, lo: nat, counts: seq<nat>, starts: seq<nat>, u: seq<T>)
    requires Scanned(e, s, depth, d) && Counts(e.key, d, s, counts) && Layout(counts, lo, e.reverse, starts)
    requires Grouped(e, d, s, counts, starts, u) && e.threshold >= 1 && lo + |s| <= |u|
    ensures |counts| == |starts| == BUCKETS
    ensures Suffices(Arranges(e), depth, s, lo, u, Children(counts, starts, d, BUCKETS))
  {
    ScannedFacts(e, s, depth, d, counts);
    hide Scanned, Counts, Shares, Arranged, Children, Bucket;
    forall t | TasksDone(Arranges(e), u, Children(counts, starts, d, BUCKETS), t) ensures Arranged(e, depth, s, t[lo..lo + |s|]) {
      forall b | 0 <= b < BUCKETS ensures Piece(e, d, s, counts, starts, t, b) {
        EmittedPiece(e, s, d, lo, counts, starts, u, t, b);
      }
      Assemble(e, s, depth, d, lo, counts, starts, t);
    }
  }

  /** The top call of the keyed engine when several threads are available. */
  method RadixEmit<T(!new)>(e: Engine<T>, items: array<T>, aux: array<T>, lo: nat, hi: nat) returns (children: seq<Child>)
    requires lo < hi <= items.Length == aux.Length && items != aux && e.threshold >= 1
    modifies items, aux
    ensures Tasks(SharesAt(e.key), DEPTH_LIMIT, lo, hi, items[..], children)
    ensures Suffices(Arranges(e), 0, old(items[lo..hi]), lo, items[..], children)
    ensures forall k :: 0 <= k < items.Length && !(lo <= k < hi) ==> items[k] == old(items[k]) && aux[k] == old(aux[k])
  {
    ghost var s := items[lo..hi];
    hide *;
    RootShares(e.key, s);
    var d := ScanDepth(e, items, lo, hi, 0);
    if hi - lo <= e.threshold || d >= DEPTH_LIMIT {
      InsertionRange(items, lo, hi, KeyOrderFrom(e.key, e.reverse, d));
      InsertionArranged(e, s, 0, d);
      assert items[..][lo..lo + |s|] == items[lo..hi];
      NothingLeft(Arranges(e), SharesAt(e.key), DEPTH_LIMIT, 0, s, lo, items[..]);
      children := [];
    } else {
      children := EmitPass(e, items, aux, lo, hi, d);
    }
  }

  method EmitPass<T(!new)>(e: Engine<T>, items: array<T>, aux: array<T>, lo: nat, hi: nat, d: nat) returns (children: seq<Child>)
    requires lo < hi <= items.Length == aux.Length && items != aux && e.threshold >= 1
    requires d < DEPTH_LIMIT && Scanned(e, items[lo..hi], 0, d)
    modifies items, aux
    ensures Tasks(SharesAt(e.key), DEPTH_LIMIT, lo, hi, items[..], children)
    ensures Suffices(Arranges(e), 0, old(items[lo..hi]), lo, items[..], children)
    ensures forall k :: 0 <= k < items.Length && !(lo <= k < hi) ==> items[k] == old(items[k]) && aux[k] == old(aux[k])
  {
    hide *;
    ghost var s := items[lo..hi];
    var counts, starts := Pass(e, items, aux, lo, hi, d);
    ScannedFacts(e, s, 0, d, counts);
    EmissionSuffices(e, s, 0, d, lo, counts, starts, items[..]);
    EmittedTasks(e, s, d, lo, counts, starts, items[..]);
    children := EmitLoop(counts, starts, d);
  }

  method EmitLoop(counts: seq<nat>, starts: seq<nat>, d: nat) returns (children: seq<Child>)
    requires |counts| == |starts| == BUCKETS
    ensures children == Children(counts, starts, d, BUCKETS)
  {
    children := [];
    for b := 1 to BUCKETS
      invariant children == Children(counts, starts, d, b)
    {
      var start := starts[b];
      var end := start + counts[b];
      if end - start > 1 {
        children := children + [Child(start, end, d + 1)];
      }
    }
  }

  // ---------- The tasks ----------

  function CountsOf<T>(key: T -> Text, d: nat, s: seq<T>): (counts: seq<nat>)
    ensures |counts| == BUCKETS && Counts(key, d, s, counts)
  {
    seq(BUCKETS, b requires 0 <= b < BUCKETS => |Bucket(key, d, b, s)|)
  }

  function StartsOf(counts: seq<nat>, reverse: bool): (starts: seq<nat>)
    requires |counts| == BUCKETS
    ensures |starts| == BUCKETS && Layout(counts, 0, reverse, starts)
  {
    seq(BUCKETS, b requires 0 <= b < BUCKETS => Offset(counts, reverse, Place(reverse, b)))
  }

  /** The range is small or deep enough for insertion. */
  predicate AtBase<T>(e: Engine<T>, depth: nat, q: seq<T>)
    requires q != []
  {
    |q| <= e.threshold || SkipDepth(e, q, depth) >= DEPTH_LIMIT
  }

  /** What one call of the recursive sort does before it calls itself: insertion,
      or one pass that leaves the buckets to sort. */
  function SplitRange<T>(e: Engine<T>, depth: nat, q: seq<T>): (seq<T>, seq<Child>) {
    if q == [] then (q, [])
    else
      var d := SkipDepth(e, q, depth);
      if AtBase(e, depth, q) then (Inserted(KeyOrderFrom(e.key, e.reverse, d), q), [])
      else
        var counts := CountsOf(e.key, d, q);
        (Regrouped(e, d, q), Children(counts, StartsOf(counts, e.reverse), d, BUCKETS))
  }

  lemma ChildrenDeeper(counts: seq<nat>, starts: seq<nat>, d: nat, depth: nat)
    requires |counts| == |starts| == BUCKETS && depth <= d
    ensures forall i :: 0 <= i < |Children(counts, starts, d, BUCKETS)| ==> Children(counts, starts, d, BUCKETS)[i].depth > depth
  {
    hide Children;
    forall i | 0 <= i < |Children(counts, starts, d, BUCKETS)| ensures Children(counts, starts, d, BUCKETS)[i].depth > depth {
      var b := BucketOfChild(counts, starts, d, BUCKETS, i);
    }
  }

  lemma InsertedSplit<T(!new)>(e: Engine<T>, depth: nat, q: seq<T>)
    requires e.threshold >= 1 && q != [] && depth <= DEPTH_LIMIT && Shares(e.key, q, depth) && AtBase(e, depth, q)
    ensures var r := SplitRange(e, depth, q); GoodSplit(Arranges(e), SharesAt(e.key), DEPTH_LIMIT, depth, q, r.0, r.1)
  {
    hide SkipDepth, Sentinel, Shares, Inserted, Arranged;
    var d := SkipDepth(e, q, depth);
    SkipDepthIs(e, q, depth);
    InsertionArranged(e, q, depth, d);
    var r := Inserted(KeyOrderFrom(e.key, e.reverse, d), q);
    assert r[0..0 + |q|] == r;
    NothingLeft(Arranges(e), SharesAt(e.key), DEPTH_LIMIT, depth, q, 0, r);
  }

  lemma PassedIs<T>(e: Engine<T>, depth: nat, q: seq<T>)
    requires q != [] && !AtBase(e, depth, q)
    ensures var d := SkipDepth(e, q, depth);
      var counts := CountsOf(e.key, d, q);
      SplitRange(e, depth, q) == (Regrouped(e, d, q), Children(counts, StartsOf(counts, e.reverse), d, BUCKETS))
  {
    hide SkipDepth, Regrouped, Children, AtBase;
  }

  lemma PassedScans<T>(e: Engine<T>, depth: nat, q: seq<T>)
    requires q != [] && depth <= DEPTH_LIMIT && Shares(e.key, q, depth) && !AtBase(e, depth, q)
    ensures var d := SkipDepth(e, q, depth); depth <= d < DEPTH_LIMIT && Scanned(e, q, depth, d)
  {
    hide SkipDepth, Sentinel, Shares;
    SkipDepthIs(e, q, depth);
  }

  lemma PassedSplit<T(!new)>(e: Engine<T>, depth: nat, q: seq<T>)
    requires e.threshold >= 1 && q != [] && depth <= DEPTH_LIMIT && Shares(e.key, q, depth) && !AtBase(e, depth, q)
    ensures var r := SplitRange(e, depth, q); GoodSplit(Arranges(e), SharesAt(e.key), DEPTH_LIMIT, depth, q, r.0, r.1)
  {
    var d := SkipDepth(e, q, depth);
    var counts := CountsOf(e.key, d, q);
    var starts := StartsOf(counts, e.reverse);
    assert BUCKETS == 257 && DEPTH_LIMIT == 4096;
    hide *;
    PassedIs(e, depth, q);
    PassedScans(e, depth, q);
    ScannedFacts(e, q, depth, d, counts);
    RegroupedIsGrouped(e, d, q, counts, starts);
    EmissionSuffices(e, q, depth, d, 0, counts, starts, Regrouped(e, d, q));
    EmittedTasks(e, q, d, 0, counts, starts, Regrouped(e, d, q));
    ChildrenDeeper(counts, starts, d, depth);
    GoodSplitWhen(Arranges(e), SharesAt(e.key), DEPTH_LIMIT, depth, q, Regrouped(e, d, q), Children(counts, starts, d, BUCKETS));
  }

  function RangeSplitter<T>(e: Engine<T>): Splitter<T> {
    (depth: nat, q: seq<T>) => SplitRange(e, depth, q)
  }

  /** Splitting ranges in this way sorts them. */
  lemma RangesSplit<T(!new)>(e: Engine<T>)
    requires e.threshold >= 1
    ensures Splits(Arranges(e), SharesAt(e.key), DEPTH_LIMIT, RangeSplitter(e))
  {
    hide SplitRange, GoodSplit, AtBase;
    forall depth: nat, q | depth <= DEPTH_LIMIT && q != [] && SharesAt(e.key)(depth, q)
      ensures GoodSplit(Arranges(e), SharesAt(e.key), DEPTH_LIMIT, depth, q, RangeSplitter(e)(depth, q).0, RangeSplitter(e)(depth, q).1)
    {
      if AtBase(e, depth, q) {
        InsertedSplit(e, depth, q);
      } else {
        PassedSplit(e, depth, q);
      }
    }
  }

  // ---------- Two arrays ----------

  /** The cells at one index: workers move lines in `items` through `aux`. */
  datatype Cell<T> = Cell(item: T, spare: T)

  function Items<T>(mem: seq<Cell<T>>): (r: seq<T>)
    ensures |r| == |mem|
    ensures forall i :: 0 <= i < |mem| ==> r[i] == mem[i].item
  {
    seq(|mem|, i requires 0 <= i < |mem| => mem[i].item)
  }

  /** The step in both arrays: a pass leaves its result in the spare one too. */
  function SplitCells<T>(e: Engine<T>, depth: nat, q: seq<Cell<T>>): (seq<Cell<T>>, seq<Child>) {
    if q == [] then (q, [])
    else
      var (r, parts) := SplitRange(e, depth, Items(q));
      if |r| != |q| then (q, [])
      else
        (seq(|q|, i requires 0 <= i < |q| => Cell(r[i], if AtBase(e, depth, Items(q)) then q[i].spare else r[i])), parts)
  }

  function CellSplitter<T>(e: Engine<T>): Splitter<Cell<T>> {
    (depth: nat, q: seq<Cell<T>>) => SplitCells(e, depth, q)
  }

  ghost function OnItems<T>(rel: Relation<T>): Relation<Cell<T>> {
    (d: nat, a: seq<Cell<T>>, b: seq<Cell<T>>) => rel(d, Items(a), Items(b))
  }

  ghost function OfItems<T>(ok: Domain<T>): Domain<Cell<T>> {
    (d: nat, a: seq<Cell<T>>) => ok(d, Items(a))
  }

  lemma ItemsSlice<T>(mem: seq<Cell<T>>, lo: nat, hi: nat)
    requires lo <= hi <= |mem|
    ensures Items(mem[lo..hi]) == Items(mem)[lo..hi]
  {
  }

  lemma CellTasksDone<T>(rel: Relation<T>, u: seq<Cell<T>>, children: seq<Child>, t: seq<Cell<T>>)
    requires TasksDone(OnItems(rel), u, children, t)
    ensures TasksDone(rel, Items(u), children, Items(t))
  {
    forall i | 0 <= i < |children| ensures TaskDone(rel, Items(u), children[i], Items(t)) {
      assert TaskDone(OnItems(rel), u, children[i], t);
      ItemsSlice(u, children[i].lo, children[i].hi);
      ItemsSlice(t, children[i].lo, children[i].hi);
    }
  }

  lemma CellTasks<T>(ok: Domain<T>, limit: nat, lo: nat, hi: nat, u: seq<Cell<T>>, children: seq<Child>)
    ensures Tasks(OfItems(ok), limit, lo, hi, u, children) <==> Tasks(ok, limit, lo, hi, Items(u), children)
  {
    forall i | 0 <= i < |children|
      ensures Task(OfItems(ok), limit, lo, hi, u, children[i]) <==> Task(ok, limit, lo, hi, Items(u), children[i])
    {
      if lo <= children[i].lo < children[i].hi <= hi <= |u| {
        ItemsSlice(u, children[i].lo, children[i].hi);
      }
    }
    hide Task;
  }

  lemma CellsSuffice<T(!new)>(rel: Relation<T>, depth: nat, s: seq<Cell<T>>, lo: nat, u: seq<Cell<T>>, children: seq<Child>)
    requires Suffices(rel, depth, Items(s), lo, Items(u), children)
    ensures Suffices(OnItems(rel), depth, s, lo, u, children)
  {
    hide TasksDone;
    forall t | TasksDone(OnItems(rel), u, children, t) ensures lo + |s| <= |t| && OnItems(rel)(depth, s, t[lo..lo + |s|]) {
      CellTasksDone(rel, u, children, t);
      ItemsSlice(t, lo, lo + |s|);
    }
  }

  lemma CellsSplit<T(!new)>(e: Engine<T>)
    requires e.threshold >= 1
    ensures Splits(OnItems(Arranges(e)), OfItems(SharesAt(e.key)), DEPTH_LIMIT, CellSplitter(e))
  {
    RangesSplit(e);
    forall depth: nat, q | depth <= DEPTH_LIMIT && q != [] && OfItems(SharesAt(e.key))(depth, q)
      ensures GoodSplit(OnItems(Arranges(e)), OfItems(SharesAt(e.key)), DEPTH_LIMIT, depth, q, CellSplitter(e)(depth, q).0, CellSplitter(e)(depth, q).1)
    {
      var r, parts := SplitRange(e, depth, Items(q)).0, SplitRange(e, depth, Items(q)).1;
      assert RangeSplitter(e)(depth, Items(q)) == SplitRange(e, depth, Items(q));
      assert GoodSplit(Arranges(e), SharesAt(e.key), DEPTH_LIMIT, depth, Items(q), r, parts);
      var t := SplitCells(e, depth, q).0;
      assert Items(t) == r && SplitCells(e, depth, q).1 == parts;
      hide SplitRange, Suffices, Tasks, Splits, SharesAt, Arranges, SplitCells;
      CellsSuffice(Arranges(e), depth, q, 0, t, parts);
      CellTasks(SharesAt(e.key), DEPTH_LIMIT, 0, |q|, t, parts);
    }
  }

  // ---------- Running the tasks ----------

  /** What the engine makes of a range is determined. */
  lemma ArrangedOnce<T(!new)>(e: Engine<T>, depth: nat, s: seq<T>, t: seq<T>, u: seq<T>)
    requires Arranged(e, depth, s, t) && Arranged(e, depth, s, u)
    ensures t == u
  {
    KeyOrderPreorder(e.key, e.reverse);
    hide Project, Sorted, Arrangement, EngineOrder, TotalPreorder;
    forall g ensures Project(EngineOrder(e), g, t) == Project(EngineOrder(e), g, u) {
      assert Project(EngineOrder(e), g, t) == Arrangement(e, depth, s, g) && Project(EngineOrder(e), g, u) == Arrangement(e, depth, s, g);
    }
    EngineOrderIs(e);
    SameClassesSortedEqual(EngineOrder(e), t, u);
  }

  lemma EngineOrderIs<T>(e: Engine<T>)
    ensures EngineOrder(e) == KeyOrder(e.key, e.reverse)
  {
  }

  lemma ParallelArranges<T(!new)>(e: Engine<T>, s: seq<T>, lo: nat, children: seq<Child>, m0: seq<Cell<T>>, workers: nat, schedule: seq<nat>)
    requires e.threshold >= 1 && Suffices(Arranges(e), 0, s, lo, Items(m0), children)
    requires Tasks(SharesAt(e.key), DEPTH_LIMIT, lo, lo + |s|, Items(m0), children)
    requires var p := Workers(children, CellSplitter(e)); WellFormed(p, |m0|) && Joined(RunFromStart(p, m0, workers, schedule))
    ensures var t := RunFromStart(Workers(children, CellSplitter(e)), m0, workers, schedule).mem;
      && |t| == |m0| && lo + |s| <= |t| && Arranged(e, 0, s, Items(t)[lo..lo + |s|])
      && forall k :: 0 <= k < |t| && !(lo <= k < lo + |s|) ==> t[k] == m0[k]
  {
    var r := RunFromStart(Workers(children, CellSplitter(e)), m0, workers, schedule);
    CellsSplit(e);
    CellTasks(SharesAt(e.key), DEPTH_LIMIT, lo, lo + |s|, m0, children);
    hide Splits, Tasks, RunFromStart, Arranged, TasksDone;
    JoinedTasksDone(OnItems(Arranges(e)), OfItems(SharesAt(e.key)), DEPTH_LIMIT, CellSplitter(e), lo, lo + |s|, children, m0, r);
    CellTasksDone(Arranges(e), m0, children, r.mem);
    OnlyInRange(OnItems(Arranges(e)), OfItems(SharesAt(e.key)), DEPTH_LIMIT, lo, lo + |s|, m0, children, r.mem);
  }

  lemma OnlyInRange<T>(rel: Relation<T>, ok: Domain<T>, limit: nat, lo: nat, hi: nat, u: seq<T>, children: seq<Child>, t: seq<T>)
    requires Tasks(ok, limit, lo, hi, u, children) && TasksDone(rel, u, children, t)
    ensures |t| == |u| && forall k :: 0 <= k < |t| && !(lo <= k < hi) ==> t[k] == u[k]
  {
    forall k | 0 <= k < |t| && !(lo <= k < hi) ensures t[k] == u[k] {
      forall i | 0 <= i < |children| ensures !(children[i].lo <= k < children[i].hi) {
        assert Task(ok, limit, lo, hi, u, children[i]);
      }
      assert !InSome(children, k);
    }
  }

  /** Whatever the number of workers and their interleaving, a joined run of the
      emitted tasks leaves the array that the sequential recursion leaves. */
  lemma ParallelSorts<T(!new)>(e: Engine<T>, s: seq<T>, lo: nat, children: seq<Child>, m0: seq<Cell<T>>, workers: nat, schedule: seq<nat>, sequential: seq<T>)
    requires e.threshold >= 1 && Suffices(Arranges(e), 0, s, lo, Items(m0), children)
    requires Tasks(SharesAt(e.key), DEPTH_LIMIT, lo, lo + |s|, Items(m0), children)
    requires var p := Workers(children, CellSplitter(e)); WellFormed(p, |m0|) && Joined(RunFromStart(p, m0, workers, schedule))
    requires Arranged(e, 0, s, sequential)
    ensures var t := Items(RunFromStart(Workers(children, CellSplitter(e)), m0, workers, schedule).mem);
      lo + |s| <= |t| && t[lo..lo + |s|] == sequential
  {
    hide Suffices, Tasks, RunFromStart, Arranged;
    ParallelArranges(e, s, lo, children, m0, workers, schedule);
    var t := Items(RunFromStart(Workers(children, CellSplitter(e)), m0, workers, schedule).mem);
    ArrangedOnce(e, 0, s, t[lo..lo + |s|], sequential);
  }

  /** The emitted ranges, sorted by workers. */
  method SortEmitted<T(!new)>(e: Engine<T>, items: array<T>, aux: array<T>, lo: nat, hi: nat, children: seq<Child>, threads: nat, world: Scheduler, ghost s: seq<T>)
    requires lo < hi <= items.Length == aux.Length && items != aux && e.threshold >= 1 && |s| == hi - lo
    requires Tasks(SharesAt(e.key), DEPTH_LIMIT, lo, hi, items[..], children) && Suffices(Arranges(e), 0, s, lo, items[..], children)
    modifies items, aux
    ensures Arranged(e, 0, s, items[..][lo..lo + |s|])
    ensures forall k :: 0 <= k < items.Length && !(lo <= k < hi) ==> items[k] == old(items[k]) && aux[k] == old(aux[k])
  {
    assert DEPTH_LIMIT == 4096;
    hide *;
    var m0 := Cells(items, aux);
    CellsSplit(e);
    CellTasks(SharesAt(e.key), DEPTH_LIMIT, lo, hi, m0, children);
    WorkersBounded(OnItems(Arranges(e)), OfItems(SharesAt(e.key)), DEPTH_LIMIT, CellSplitter(e), lo, hi, children, m0);
    ghost var p := Workers(children, CellSplitter(e));
    var mem := RunTasks(Workers(children, CellSplitter(e)), m0, threads, world, Costs(children, DEPTH_LIMIT));
    ghost var workers := WorkerCount(|p.lo|, threads, world.spawned);
    ghost var schedule := OutcomeMeans(p, m0, workers, mem);
    ParallelArranges(e, s, lo, children, m0, workers, schedule);
    StoreCells(items, aux, mem);
  }

  /** Emission, the workers, and the join: the threaded form of the recursive sort
      has the contract of the sequential one. */
  method RadixThreaded<T(!new)>(e: Engine<T>, items: array<T>, aux: array<T>, lo: nat, hi: nat, threads: nat, world: Scheduler)
    requires lo < hi <= items.Length == aux.Length && items != aux && e.threshold >= 1
    modifies items, aux
    ensures Arranged(e, 0, old(items[lo..hi]), items[lo..hi])
    ensures forall k :: 0 <= k < items.Length && !(lo <= k < hi) ==> items[k] == old(items[k]) && aux[k] == old(aux[k])
  {
    hide *;
    ghost var s := items[lo..hi];
    var children := RadixEmit(e, items, aux, lo, hi);
    if |children| == 0 {
      NoneEmitted(e, s, lo, items[..]);
    } else {
      SortEmitted(e, items, aux, lo, hi, children, threads, world, s);
    }
    assert items[..][lo..lo + |s|] == items[lo..hi];
  }

  lemma NoneEmitted<T(!new)>(e: Engine<T>, s: seq<T>, lo: nat, u: seq<T>)
    requires Suffices(Arranges(e), 0, s, lo, u, []) && lo + |s| <= |u|
    ensures Arranged(e, 0, s, u[lo..lo + |s|])
  {
    hide Arranged;
    assert TasksDone(Arranges(e), u, [], u);
  }

  method Cells<T>(items: array<T>, aux: array<T>) returns (mem: seq<Cell<T>>)
    requires items.Length == aux.Length
    ensures Items(mem) == items[..] && forall i :: 0 <= i < |mem| ==> mem[i] == Cell(items[i], aux[i])
  {
    mem := seq(items.Length, i requires 0 <= i < items.Length && items.Length == aux.Length reads items, aux => Cell(items[i], aux[i]));
  }

  method StoreCells<T>(items: array<T>, aux: array<T>, mem: seq<Cell<T>>)
    requires items.Length == aux.Length == |mem| && items != aux
    modifies items, aux
    ensures items[..] == Items(mem) && forall i :: 0 <= i < |mem| ==> items[i] == mem[i].item && aux[i] == mem[i].spare
  {
    for i := 0 to |mem|
      invariant forall k :: 0 <= k < i ==> items[k] == mem[k].item && aux[k] == mem[k].spare
    {
      items[i], aux[i] := mem[i].item, mem[i].spare;
    }
  }
}
