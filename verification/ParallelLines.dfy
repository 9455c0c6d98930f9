/** The whole-line engine in parallel (src/radix.c, `rank_radix_sort_lines` with
    several threads): the top pass cycles in place, emits its buckets as tasks,
    and the tasks sort them in any interleaving. */
module ParallelLines {
  import opened Buckets
  import opened Bytes
  import opened InPlaceRadix
  import opened Insertion
  import opened Orders
  import opened ParallelRadix
  import opened StableRadix
  import opened Threads
  import opened Worklists

  // ---------- What the tasks leave ----------

  /** What this engine promises of a range. */
  ghost function Permutes<T>(key: T -> Text): Relation<T> {
    (d: nat, a: seq<T>, b: seq<T>) => SortedPermutation(key, a, b)
  }

  // ---------- From the tasks back to the buckets ----------

  /** Index `k` lies in a bucket from `b` on. */
  ghost predicate InLater(counts: seq<nat>, starts: seq<nat>, b: nat, k: nat)
    requires |counts| == |starts| == BUCKETS
  {
    exists i :: b <= i < BUCKETS && starts[i] <= k < starts[i] + counts[i]
  }

  /** The tasks of the buckets below `b` done, the later ones not yet. */
  ghost function Halfway<T>(counts: seq<nat>, starts: seq<nat>, u: seq<T>, t: seq<T>, b: nat): (m: seq<T>)
    requires |counts| == |starts| == BUCKETS && |t| == |u|
    ensures |m| == |u|
    ensures forall k :: 0 <= k < |u| ==> m[k] == if InLater(counts, starts, b, k) then u[k] else t[k]
  {
    seq(|u|, k requires 0 <= k < |u| => if InLater(counts, starts, b, k) then u[k] else t[k])
  }

  lemma LaterStep(counts: seq<nat>, starts: seq<nat>, b: nat, k: nat)
    requires |counts| == |starts| == BUCKETS && b < BUCKETS
    ensures InLater(counts, starts, b, k) <==> InLater(counts, starts, b + 1, k) || starts[b] <= k < starts[b] + counts[b]
  {
    if InLater(counts, starts, b + 1, k) {
      var i :| b + 1 <= i < BUCKETS && starts[i] <= k < starts[i] + counts[i];
      assert b <= i;
    }
  }

  /** A bucket has no index in common with later ones. */
  lemma OwnOnly<T>(key: T -> Text, d: nat, s: seq<T>, lo: nat, counts: seq<nat>, starts: seq<nat>, b: nat, k: nat)
    requires Ready(key, d, s, lo, counts, starts) && b < BUCKETS
    ensures |counts| == |starts| == BUCKETS
    ensures starts[b] <= k < starts[b] + counts[b] ==> !InLater(counts, starts, b + 1, k)
  {
    ReadyBounds(key, d, s, lo, counts, starts, b);
    hide Ready;
    if starts[b] <= k < starts[b] + counts[b] && InLater(counts, starts, b + 1, k) {
      var i :| b + 1 <= i < BUCKETS && starts[i] <= k < starts[i] + counts[i];
      Disjoint(key, d, s, lo, counts, starts, b, i);
    }
  }

  lemma HalfwaySlices<T>(key: T -> Text, d: nat, s: seq<T>, lo: nat, counts: seq<nat>, starts: seq<nat>, u: seq<T>, t: seq<T>, b: nat)
    requires Ready(key, d, s, lo, counts, starts) && b < BUCKETS && |t| == |u| && lo + |s| <= |u|
    requires |counts| == |starts| == BUCKETS
    ensures lo <= starts[b] <= starts[b] + counts[b] <= |u|
    ensures Halfway(counts, starts, u, t, b)[starts[b]..starts[b] + counts[b]] == u[starts[b]..starts[b] + counts[b]]
    ensures Halfway(counts, starts, u, t, b + 1)[starts[b]..starts[b] + counts[b]] == t[starts[b]..starts[b] + counts[b]]
    ensures forall k :: 0 <= k < |u| && !(starts[b] <= k < starts[b] + counts[b]) ==>
      Halfway(counts, starts, u, t, b + 1)[k] == Halfway(counts, starts, u, t, b)[k]
  {
    ReadyBounds(key, d, s, lo, counts, starts, b);
    forall k | 0 <= k < |u|
      ensures starts[b] <= k < starts[b] + counts[b] ==>
        Halfway(counts, starts, u, t, b)[k] == u[k] && Halfway(counts, starts, u, t, b + 1)[k] == t[k]
      ensures !(starts[b] <= k < starts[b] + counts[b]) ==>
        Halfway(counts, starts, u, t, b + 1)[k] == Halfway(counts, starts, u, t, b)[k]
    {
      LaterStep(counts, starts, b, k);
      OwnOnly(key, d, s, lo, counts, starts, b, k);
    }
    hide Halfway, InLater, Ready;
  }

  /** A bucket that was not emitted is untouched by the tasks. */
  lemma BucketNotEmitted<T>(key: T -> Text, d: nat, s: seq<T>, lo: nat, counts: seq<nat>, starts: seq<nat>, u: seq<T>, t: seq<T>, b: nat)
    requires Ready(key, d, s, lo, counts, starts) && b < BUCKETS && (b == 0 || counts[b] <= 1)
    requires |counts| == |starts| == BUCKETS && starts[b] + counts[b] <= |u|
    requires TasksDone(Permutes(key), u, Children(counts, starts, d, BUCKETS), t)
    ensures t[starts[b]..starts[b] + counts[b]] == u[starts[b]..starts[b] + counts[b]]
  {
    hide TaskDone, Ready, Children;
    var children := Children(counts, starts, d, BUCKETS);
    forall k | starts[b] <= k < starts[b] + counts[b] ensures t[k] == u[k] {
      NotInChildren(key, d, s, lo, counts, starts, b, k);
    }
  }

  lemma NotInChildren<T>(key: T -> Text, d: nat, s: seq<T>, lo: nat, counts: seq<nat>, starts: seq<nat>, b: nat, k: nat)
    requires Ready(key, d, s, lo, counts, starts) && b < BUCKETS && |counts| == |starts| == BUCKETS
    requires (b == 0 || counts[b] <= 1) && starts[b] <= k < starts[b] + counts[b]
    ensures !InSome(Children(counts, starts, d, BUCKETS), k)
  {
    hide Ready, Children;
    var children := Children(counts, starts, d, BUCKETS);
    forall i | 0 <= i < |children| ensures !(children[i].lo <= k < children[i].hi) {
      var j := BucketOfChild(counts, starts, d, BUCKETS, i);
      Disjoint(key, d, s, lo, counts, starts, b, j);
    }
  }

  lemma SortedAt<T>(key: T -> Text, u: seq<T>, children: seq<Child>, t: seq<T>, i: nat)
    requires TasksDone(Permutes(key), u, children, t) && i < |children|
    ensures children[i].lo <= children[i].hi <= |u| == |t|
    ensures SortedPermutation(key, u[children[i].lo..children[i].hi], t[children[i].lo..children[i].hi])
  {
    hide SortedPermutation, InSome;
    assert TaskDone(Permutes(key), u, children[i], t);
  }

  lemma ChildSorted<T>(key: T -> Text, counts: seq<nat>, starts: seq<nat>, d: nat, u: seq<T>, t: seq<T>, b: nat)
    requires |counts| == |starts| == BUCKETS && 1 <= b < BUCKETS && counts[b] > 1
    requires TasksDone(Permutes(key), u, Children(counts, starts, d, BUCKETS), t)
    ensures starts[b] + counts[b] <= |u| == |t|
    ensures SortedPermutation(key, u[starts[b]..starts[b] + counts[b]], t[starts[b]..starts[b] + counts[b]])
  {
    hide *;
    ChildOfBucket(counts, starts, d, BUCKETS, b);
    var children := Children(counts, starts, d, BUCKETS);
    var i: nat :| i < |children| && children[i] == Child(starts[b], starts[b] + counts[b], d + 1);
    SortedAt(key, u, children, t, i);
  }

  /** Bucket after bucket the tasks settle the range. */
  lemma HalfwayStep<T>(key: T -> Text, d: nat, s: seq<T>, lo: nat, counts: seq<nat>, starts: seq<nat>, u: seq<T>, t: seq<T>, b: nat)
    requires Ready(key, d, s, lo, counts, starts) && |counts| == |starts| == BUCKETS && 1 <= b < BUCKETS
    requires TasksDone(Permutes(key), u, Children(counts, starts, d, BUCKETS), t) && |t| == |u| && lo + |s| <= |u|
    requires Settled(key, d, s, lo, counts, starts, Halfway(counts, starts, u, t, b), b)
    ensures Settled(key, d, s, lo, counts, starts, Halfway(counts, starts, u, t, b + 1), b + 1)
  {
    hide *;
    HalfwaySlices(key, d, s, lo, counts, starts, u, t, b);
    var m, m' := Halfway(counts, starts, u, t, b), Halfway(counts, starts, u, t, b + 1);
    if counts[b] > 1 {
      ChildSorted(key, counts, starts, d, u, t, b);
      SettledStep(key, d, s, lo, counts, starts, m, m', b);
    } else {
      BucketNotEmitted(key, d, s, lo, counts, starts, u, t, b);
      SameSlices(m, m', starts[b], starts[b] + counts[b]);
      SettledSkip(key, d, s, lo, counts, starts, m, b);
    }
  }

  lemma SameSlices<T>(m: seq<T>, m': seq<T>, from: nat, to: nat)
    requires from <= to <= |m| == |m'| && m[from..to] == m'[from..to]
    requires forall k :: 0 <= k < |m| && !(from <= k < to) ==> m'[k] == m[k]
    ensures m == m'
  {
    forall k | 0 <= k < |m| ensures m[k] == m'[k] {
      if from <= k < to {
        assert m[from..to][k - from] == m'[from..to][k - from];
      }
    }
  }

  lemma HalfwayStart<T>(key: T -> Text, d: nat, s: seq<T>, lo: nat, counts: seq<nat>, starts: seq<nat>, u: seq<T>, t: seq<T>)
    requires |counts| == |starts| == BUCKETS && TasksDone(Permutes(key), u, Children(counts, starts, d, BUCKETS), t) && |t| == |u|
    ensures Halfway(counts, starts, u, t, 1) == u
  {
    hide TaskDone, Children;
    var children := Children(counts, starts, d, BUCKETS);
    forall k | 0 <= k < |u| ensures Halfway(counts, starts, u, t, 1)[k] == u[k] {
      if !InLater(counts, starts, 1, k) {
        forall i | 0 <= i < |children| ensures !(children[i].lo <= k < children[i].hi) {
          var j := BucketOfChild(counts, starts, d, BUCKETS, i);
        }
        assert !InSome(children, k);
      }
    }
  }

  lemma HalfwayEnd<T>(counts: seq<nat>, starts: seq<nat>, u: seq<T>, t: seq<T>)
    requires |counts| == |starts| == BUCKETS && |t| == |u|
    ensures Halfway(counts, starts, u, t, BUCKETS) == t
  {
    forall k | 0 <= k < |u| ensures Halfway(counts, starts, u, t, BUCKETS)[k] == t[k] {
      assert !InLater(counts, starts, BUCKETS, k);
    }
  }

  lemma {:induction false} HalfwaySettled<T>(key: T -> Text, d: nat, s: seq<T>, lo: nat, counts: seq<nat>, starts: seq<nat>, u: seq<T>, t: seq<T>, b: nat)
    requires Ready(key, d, s, lo, counts, starts) && |counts| == |starts| == BUCKETS && 1 <= b <= BUCKETS
    requires TasksDone(Permutes(key), u, Children(counts, starts, d, BUCKETS), t) && |t| == |u| && lo + |s| <= |u|
    requires Shares(key, s, d) && Partitioned(key, d, s, lo, counts, starts, u)
    ensures Settled(key, d, s, lo, counts, starts, Halfway(counts, starts, u, t, b), b)
  {
    hide *;
    if b == 1 {
      HalfwayStart(key, d, s, lo, counts, starts, u, t);
      SettledStart(key, d, s, lo, counts, starts, u);
    } else {
      HalfwaySettled(key, d, s, lo, counts, starts, u, t, b - 1);
      HalfwayStep(key, d, s, lo, counts, starts, u, t, b - 1);
    }
  }

  lemma DoneSorts<T(!new)>(key: T -> Text, d: nat, s: seq<T>, lo: nat, counts: seq<nat>, starts: seq<nat>, u: seq<T>, t: seq<T>)
    requires Ready(key, d, s, lo, counts, starts) && |counts| == |starts| == BUCKETS
    requires TasksDone(Permutes(key), u, Children(counts, starts, d, BUCKETS), t) && |t| == |u| && lo + |s| <= |u|
    requires Shares(key, s, d) && Partitioned(key, d, s, lo, counts, starts, u)
    ensures lo + |s| <= |t| && SortedPermutation(key, s, t[lo..lo + |s|])
  {
    assert BUCKETS == 257;
    hide *;
    HalfwaySettled(key, d, s, lo, counts, starts, u, t, BUCKETS);
    HalfwayEnd(counts, starts, u, t);
    SettledDone(key, d, s, lo, counts, starts, t);
  }

  // ---------- Emitting ----------

  lemma LineTasks<T>(key: T -> Text, d: nat, s: seq<T>, lo: nat, counts: seq<nat>, starts: seq<nat>, u: seq<T>)
    requires Ready(key, d, s, lo, counts, starts) && |counts| == |starts| == BUCKETS && d < DEPTH_LIMIT
    requires Shares(key, s, d) && Partitioned(key, d, s, lo, counts, starts, u)
    ensures Tasks(SharesAt(key), DEPTH_LIMIT, lo, lo + |s|, u, Children(counts, starts, d, BUCKETS))
  {
    LineEngineIs(key, d, s, lo, counts, starts);
    assert DEPTH_LIMIT == 4096;
    hide *;
    var children := Children(counts, starts, d, BUCKETS);
    forall i | 0 <= i < |children| ensures Task(SharesAt(key), DEPTH_LIMIT, lo, lo + |s|, u, children[i]) {
      var b := BucketOfChild(counts, starts, d, BUCKETS, i);
      BucketContents(key, d, s, lo, counts, starts, u, b);
      LineTask(key, lo, lo + |s|, u, children[i]);
    }
    forall i, j | 0 <= i < j < |children| ensures children[i].hi <= children[j].lo || children[j].hi <= children[i].lo {
      ChildrenDistinct(counts, starts, lo, false, d, BUCKETS, i, j);
    }
    ApartWhen(children);
    BucketContents(key, d, s, lo, counts, starts, u, 0);
    TasksWhen(SharesAt(key), DEPTH_LIMIT, lo, lo + |s|, u, children);
  }

  lemma LineTask<T>(key: T -> Text, lo: nat, hi: nat, u: seq<T>, c: Child)
    requires lo <= c.lo < c.hi <= hi <= |u| && c.depth <= DEPTH_LIMIT && Shares(key, u[c.lo..c.hi], c.depth)
    ensures Task(SharesAt(key), DEPTH_LIMIT, lo, hi, u, c)
  {
  }

  lemma PartitionedLength<T>(key: T -> Text, d: nat, s: seq<T>, lo: nat, counts: seq<nat>, starts: seq<nat>, u: seq<T>)
    requires Partitioned(key, d, s, lo, counts, starts, u)
    ensures |counts| == |starts| == BUCKETS && lo + |s| <= |u|
  {
  }

  lemma EmittedSuffice<T(!new)>(key: T -> Text, d: nat, s: seq<T>, lo: nat, counts: seq<nat>, starts: seq<nat>, u: seq<T>)
    requires Ready(key, d, s, lo, counts, starts) && Shares(key, s, d) && Partitioned(key, d, s, lo, counts, starts, u)
    ensures |counts| == |starts| == BUCKETS
    ensures Suffices(Permutes(key), 0, s, lo, u, Children(counts, starts, d, BUCKETS))
  {
    PartitionedLength(key, d, s, lo, counts, starts, u);
    hide Ready, Shares, Partitioned, Children, SortedPermutation;
    forall t | TasksDone(Permutes(key), u, Children(counts, starts, d, BUCKETS), t)
      ensures lo + |s| <= |t| && SortedPermutation(key, s, t[lo..lo + |s|])
    {
      DoneSorts(key, d, s, lo, counts, starts, u, t);
    }
  }

  /** The top call when several threads are available. */
  method LinesEmit<T(!new)>(items: array<T>, lo: nat, hi: nat, key: T -> Text) returns (children: seq<Child>)
    requires lo < hi <= items.Length
    modifies items
    ensures Tasks(SharesAt(key), DEPTH_LIMIT, lo, hi, items[..], children)
    ensures Suffices(Permutes(key), 0, old(items[lo..hi]), lo, items[..], children)
    ensures forall k :: 0 <= k < items.Length && !(lo <= k < hi) ==> items[k] == old(items[k])
  {
    ghost var s := items[lo..hi];
    RootShares(key, s);
    hide *;
    var sorted, d, counts, starts := InPlaceRadix.SplitRange(items, lo, hi, key, 0);
    assert items[..][lo..lo + |s|] == items[lo..hi];
    if sorted {
      NothingLeft(Permutes(key), SharesAt(key), DEPTH_LIMIT, 0, s, lo, items[..]);
      return [];
    }
    EmittedSuffice(key, d, s, lo, counts, starts, items[..]);
    LineTasks(key, d, s, lo, counts, starts, items[..]);
    children := EmitLoop(counts, starts, d);
  }

  // ---------- The tasks ----------

  predicate OneBucketOnly<T>(key: T -> Text, d: nat, q: seq<T>)
    requires q != []
  {
    forall i :: 0 <= i < |q| ==> BucketAt(key(q[i]), d) == BucketAt(key(q[0]), d)
  }

  /** The depth at which the loop stops that deepens while one bucket takes all. */
  function SplitDepth<T>(key: T -> Text, q: seq<T>, d: nat): nat
    requires q != []
    decreases DEPTH_LIMIT - d
  {
    if |q| <= INSERTION_THRESHOLD || d >= DEPTH_LIMIT || !OneBucketOnly(key, d, q) || BucketAt(key(q[0]), d) == 0 then d
    else SplitDepth(key, q, d + 1)
  }

  /** The cycled range, and the buckets left to sort. */
  function CycledRange<T>(key: T -> Text, d: nat, q: seq<T>): (seq<T>, seq<Child>) {
    var counts := CountsOf(key, d, q);
    var starts := StartsOf(counts, false);
    CycledWithin(key, d, q, counts, starts);
    (CycleFrom(key, d, Ends(counts, starts), starts, q, 0), Children(counts, starts, d, BUCKETS))
  }

  lemma CycledWithin<T>(key: T -> Text, d: nat, q: seq<T>, counts: seq<nat>, starts: seq<nat>)
    requires Counts(key, d, q, counts) && Layout(counts, 0, false, starts)
    ensures |counts| == |starts| == BUCKETS
    ensures Within(starts, Ends(counts, starts), |q|)
    ensures Ready(key, d, q, 0, counts, starts) && Cycling(key, d, q, 0, counts, starts, starts, q)
  {
    assert q[0..0 + |q|] == q;
    CyclingStart(key, d, q, 0, counts, starts, q);
    CyclingWithin(key, d, q, 0, counts, starts, starts, q);
    hide Counts, Layout, Cycling, Within;
  }

  /** What one call of the in-place sort does before it calls itself. */
  function SplitLines<T>(key: T -> Text, depth: nat, q: seq<T>): (seq<T>, seq<Child>) {
    if q == [] then (q, [])
    else
      var d := SplitDepth(key, q, SkipDepth(LineEngine(key), q, depth));
      if |q| <= INSERTION_THRESHOLD || d >= DEPTH_LIMIT then (Inserted(KeyOrderFrom(key, false, d), q), [])
      else if OneBucketOnly(key, d, q) then (q, [])
      else CycledRange(key, d, q)
  }

  function LineSplitter<T>(key: T -> Text): Splitter<T> {
    (depth: nat, q: seq<T>) => SplitLines(key, depth, q)
  }

  lemma SharesOneMore<T>(key: T -> Text, q: seq<T>, d: nat)
    requires q != [] && Shares(key, q, d) && OneBucketOnly(key, d, q)
    ensures BucketAt(key(q[0]), d) != 0 ==> Shares(key, q, d + 1)
    ensures BucketAt(key(q[0]), d) == 0 ==> Sorted(KeyOrder(key, false), q)
  {
    forall x | x in q ensures BucketAt(key(x), d) == BucketAt(key(q[0]), d) {
      var i :| 0 <= i < |q| && q[i] == x;
    }
    OneBucketShares(key, d, q, BucketAt(key(q[0]), d));
  }

  lemma {:induction false} SplitDepthIs<T>(key: T -> Text, q: seq<T>, d: nat)
    requires q != [] && d <= DEPTH_LIMIT && Shares(key, q, d)
    ensures d <= SplitDepth(key, q, d) <= DEPTH_LIMIT && Shares(key, q, SplitDepth(key, q, d))
    ensures var r := SplitDepth(key, q, d);
      |q| <= INSERTION_THRESHOLD || r >= DEPTH_LIMIT || !OneBucketOnly(key, r, q) || BucketAt(key(q[0]), r) == 0
    decreases DEPTH_LIMIT - d
  {
    if !(|q| <= INSERTION_THRESHOLD || d >= DEPTH_LIMIT || !OneBucketOnly(key, d, q) || BucketAt(key(q[0]), d) == 0) {
      SharesOneMore(key, q, d);
      hide OneBucketOnly, Shares;
      SplitDepthIs(key, q, d + 1);
    }
  }

  lemma LinesInserted<T(!new)>(key: T -> Text, depth: nat, q: seq<T>, d: nat)
    requires q != [] && depth <= DEPTH_LIMIT && Shares(key, q, depth)
    requires d == SplitDepth(key, q, SkipDepth(LineEngine(key), q, depth)) && (|q| <= INSERTION_THRESHOLD || d >= DEPTH_LIMIT)
    ensures SortedPermutation(key, q, Inserted(KeyOrderFrom(key, false, d), q))
  {
    SkipDepthIs(LineEngine(key), q, depth);
    var first := SkipDepth(LineEngine(key), q, depth);
    assert LineEngine(key).key == key;
    hide SkipDepth, Sentinel, Shares, OneBucketOnly, LineEngine;
    if Sentinel(LineEngine(key), q, depth) {
      assert d == first;
    } else {
      SplitDepthIs(key, q, first);
    }
    hide SplitDepth;
    InsertionSorts(key, q, depth, d);
  }

  lemma LinesCycled<T(!new)>(key: T -> Text, depth: nat, q: seq<T>, d: nat)
    requires q != [] && depth <= d < DEPTH_LIMIT && Shares(key, q, d)
    ensures var r := CycledRange(key, d, q); GoodSplit(Permutes(key), SharesAt(key), DEPTH_LIMIT, depth, q, r.0, r.1)
  {
    var counts := CountsOf(key, d, q);
    var starts := StartsOf(counts, false);
    assert BUCKETS == 257 && DEPTH_LIMIT == 4096;
    CycledWithin(key, d, q, counts, starts);
    var t, children := CycleFrom(key, d, Ends(counts, starts), starts, q, 0), Children(counts, starts, d, BUCKETS);
    assert CycledRange(key, d, q) == (t, children);
    hide *;
    CycleFromFills(key, d, q, 0, counts, starts, starts, q, 0);
    EmittedSuffice(key, d, q, 0, counts, starts, t);
    LineTasks(key, d, q, 0, counts, starts, t);
    ChildrenDeeper(counts, starts, d, depth);
    AtAnyDepth(key, depth, q, t, children);
    GoodSplitWhen(Permutes(key), SharesAt(key), DEPTH_LIMIT, depth, q, t, children);
  }

  lemma AtAnyDepth<T(!new)>(key: T -> Text, depth: nat, q: seq<T>, t: seq<T>, children: seq<Child>)
    requires Suffices(Permutes(key), 0, q, 0, t, children)
    ensures Suffices(Permutes(key), depth, q, 0, t, children)
  {
    hide SortedPermutation, TasksDone;
  }

  lemma LinesAlike<T(!new)>(key: T -> Text, depth: nat, q: seq<T>, r: seq<T>)
    requires SortedPermutation(key, q, r)
    ensures GoodSplit(Permutes(key), SharesAt(key), DEPTH_LIMIT, depth, q, r, [])
  {
    hide SortedPermutation, Sorted;
    assert |r| == |q| by { SortedPermutationIs(key, q, r); }
    assert r[0..0 + |q|] == r;
    NothingLeft(Permutes(key), SharesAt(key), DEPTH_LIMIT, depth, q, 0, r);
  }

  lemma LinesSplitAt<T(!new)>(key: T -> Text, depth: nat, q: seq<T>)
    requires q != [] && depth <= DEPTH_LIMIT && Shares(key, q, depth)
    ensures var r := SplitLines(key, depth, q); GoodSplit(Permutes(key), SharesAt(key), DEPTH_LIMIT, depth, q, r.0, r.1)
  {
    var first := SkipDepth(LineEngine(key), q, depth);
    var d := SplitDepth(key, q, first);
    SkipDepthIs(LineEngine(key), q, depth);
    hide SkipDepth, GoodSplit, CycledRange, Shares, Inserted, OneBucketOnly;
    if |q| <= INSERTION_THRESHOLD || d >= DEPTH_LIMIT {
      LinesInserted(key, depth, q, d);
      LinesAlike(key, depth, q, Inserted(KeyOrderFrom(key, false, d), q));
    } else {
      assert !Sentinel(LineEngine(key), q, depth);
      SplitDepthIs(key, q, first);
      if OneBucketOnly(key, d, q) {
        SharesOneMore(key, q, d);
        SortedPermutationIs(key, q, q);
        LinesAlike(key, depth, q, q);
      } else {
        LinesCycled(key, depth, q, d);
      }
    }
  }

  /** Splitting lines in this way sorts them. */
  lemma LinesSplit<T(!new)>(key: T -> Text)
    ensures Splits(Permutes(key), SharesAt(key), DEPTH_LIMIT, LineSplitter(key))
  {
    hide SplitLines, GoodSplit;
    forall depth: nat, q | depth <= DEPTH_LIMIT && q != [] && SharesAt(key)(depth, q)
      ensures GoodSplit(Permutes(key), SharesAt(key), DEPTH_LIMIT, depth, q, LineSplitter(key)(depth, q).0, LineSplitter(key)(depth, q).1)
    {
      LinesSplitAt(key, depth, q);
    }
  }

  // ---------- Running the tasks ----------

  lemma LinesJoined<T(!new)>(key: T -> Text, s: seq<T>, lo: nat, children: seq<Child>, m0: seq<T>, workers: nat, schedule: seq<nat>)
    requires Suffices(Permutes(key), 0, s, lo, m0, children) && Tasks(SharesAt(key), DEPTH_LIMIT, lo, lo + |s|, m0, children)
    requires var p := Workers(children, LineSplitter(key)); WellFormed(p, |m0|) && Joined(RunFromStart(p, m0, workers, schedule))
    ensures var t := RunFromStart(Workers(children, LineSplitter(key)), m0, workers, schedule).mem;
      && |t| == |m0| && lo + |s| <= |t| && SortedPermutation(key, s, t[lo..lo + |s|])
      && forall k :: 0 <= k < |t| && !(lo <= k < lo + |s|) ==> t[k] == m0[k]
  {
    var r := RunFromStart(Workers(children, LineSplitter(key)), m0, workers, schedule);
    LinesSplit(key);
    hide Splits, Tasks, RunFromStart, SortedPermutation, TasksDone;
    JoinedTasksDone(Permutes(key), SharesAt(key), DEPTH_LIMIT, LineSplitter(key), lo, lo + |s|, children, m0, r);
    OnlyInRange(Permutes(key), SharesAt(key), DEPTH_LIMIT, lo, lo + |s|, m0, children, r.mem);
  }

  /** Two sorted permutations show the same texts. */
  lemma SameTexts<T(!new)>(key: T -> Text, s: seq<T>, t: seq<T>, u: seq<T>)
    requires SortedPermutation(key, s, t) && SortedPermutation(key, s, u)
    ensures Map(key, t) == Map(key, u)
  {
    var c := KeyOrder(key, false);
    KeyOrderPreorder(key, false);
    PermutationClassSizes(c, t, u);
    SortedAlike(c, t, u);
  }

  /** Whatever the number of workers and their interleaving, a joined run of the
      emitted tasks leaves the texts that the sequential recursion leaves. */
  lemma ParallelLinesSort<T(!new)>(key: T -> Text, s: seq<T>, lo: nat, children: seq<Child>, m0: seq<T>, workers: nat, schedule: seq<nat>, sequential: seq<T>)
    requires Suffices(Permutes(key), 0, s, lo, m0, children) && Tasks(SharesAt(key), DEPTH_LIMIT, lo, lo + |s|, m0, children)
    requires var p := Workers(children, LineSplitter(key)); WellFormed(p, |m0|) && Joined(RunFromStart(p, m0, workers, schedule))
    requires SortedPermutation(key, s, sequential)
    ensures var t := RunFromStart(Workers(children, LineSplitter(key)), m0, workers, schedule).mem;
      lo + |s| <= |t| && Map(key, t[lo..lo + |s|]) == Map(key, sequential)
  {
    hide Suffices, Tasks, RunFromStart, SortedPermutation, Map;
    LinesJoined(key, s, lo, children, m0, workers, schedule);
    SameTexts(key, s, RunFromStart(Workers(children, LineSplitter(key)), m0, workers, schedule).mem[lo..lo + |s|], sequential);
  }

  /** The emitted ranges, sorted by workers. */
  method SortEmittedLines<T(!new)>(items: array<T>, lo: nat, hi: nat, key: T -> Text, children: seq<Child>, threads: nat, world: Scheduler, ghost s: seq<T>)
    requires lo < hi <= items.Length && |s| == hi - lo
    requires Tasks(SharesAt(key), DEPTH_LIMIT, lo, hi, items[..], children) && Suffices(Permutes(key), 0, s, lo, items[..], children)
    modifies items
    ensures SortedPermutation(key, s, items[..][lo..lo + |s|])
    ensures forall k :: 0 <= k < items.Length && !(lo <= k < hi) ==> items[k] == old(items[k])
  {
    assert DEPTH_LIMIT == 4096;
    hide *;
    var m0 := items[..];
    LinesSplit(key);
    WorkersBounded(Permutes(key), SharesAt(key), DEPTH_LIMIT, LineSplitter(key), lo, hi, children, m0);
    ghost var p := Workers(children, LineSplitter(key));
    var mem := RunTasks(Workers(children, LineSplitter(key)), m0, threads, world, Costs(children, DEPTH_LIMIT));
    ghost var workers := WorkerCount(|p.lo|, threads, world.spawned);
    ghost var schedule := OutcomeMeans(p, m0, workers, mem);
    LinesJoined(key, s, lo, children, m0, workers, schedule);
    StoreAll(items, mem);
  }

  /** Emission, the workers, and the join. */
  method LinesThreaded<T(!new)>(items: array<T>, lo: nat, hi: nat, key: T -> Text, threads: nat, world: Scheduler)
    requires lo < hi <= items.Length
    modifies items
    ensures SortedPermutation(key, old(items[lo..hi]), items[lo..hi])
    ensures forall k :: 0 <= k < items.Length && !(lo <= k < hi) ==> items[k] == old(items[k])
  {
    hide *;
    ghost var s := items[lo..hi];
    var children := LinesEmit(items, lo, hi, key);
    if |children| == 0 {
      NoneToSort(key, s, lo, items[..]);
    } else {
      SortEmittedLines(items, lo, hi, key, children, threads, world, s);
    }
    assert items[..][lo..lo + |s|] == items[lo..hi];
  }

  lemma NoneToSort<T(!new)>(key: T -> Text, s: seq<T>, lo: nat, u: seq<T>)
    requires Suffices(Permutes(key), 0, s, lo, u, []) && lo + |s| <= |u|
    ensures SortedPermutation(key, s, u[lo..lo + |s|])
  {
    hide SortedPermutation;
    assert TasksDone(Permutes(key), u, [], u);
  }

  method StoreAll<T>(items: array<T>, mem: seq<T>)
    requires items.Length == |mem|
    modifies items
    ensures items[..] == mem && forall k :: 0 <= k < items.Length ==> items[k] == mem[k]
  {
    for i := 0 to |mem|
      invariant forall k :: 0 <= k < i ==> items[k] == mem[k]
    {
      items[i] := mem[i];
    }
  }
}
