/** K-way merging of sorted runs (src/merge.c): the prepared merge, which compares
    lines, and the direct merge, which compares cached keys of the heads. */
module HeapMerge {
  import opened Heap
  import opened Insertion
  import opened Orders
  import opened Unique

  function Flatten<T>(ss: seq<seq<T>>): seq<T> {
    if ss == [] then [] else ss[0] + Flatten(ss[1..])
  }

  ghost predicate AllSorted<T>(c: (T, T) -> int, ss: seq<seq<T>>) {
    forall k :: 0 <= k < |ss| ==> Sorted(c, ss[k])
  }

  /** The runs that still have a line. */
  ghost function Live<T>(rest: seq<seq<T>>): set<nat> {
    set k: nat | k < |rest| && rest[k] != []
  }

  /** Heads are compared by `c`; of equal heads the earlier run wins. */
  ghost predicate HeadLess<T>(c: (T, T) -> int, rest: seq<seq<T>>, a: nat, b: nat)
    requires a in Live(rest) && b in Live(rest)
  {
    c(rest[a][0], rest[b][0]) < 0 || (c(rest[a][0], rest[b][0]) == 0 && a < b)
  }

  /** `less` answers for the runs that are left as the heads themselves do. */
  ghost predicate Models<T>(c: (T, T) -> int, rest: seq<seq<T>>, less: (nat, nat) -> bool) {
    forall a, b :: a in Live(rest) && b in Live(rest) ==> less(a, b) == HeadLess(c, rest, a, b)
  }

  lemma ModelsStrict<T(!new)>(c: (T, T) -> int, rest: seq<seq<T>>, less: (nat, nat) -> bool)
    requires TotalPreorder(c) && Models(c, rest, less)
    ensures StrictOn(less, Live(rest))
  {
    forall a, b, d | a in Live(rest) && b in Live(rest) && d in Live(rest) && less(a, b) && less(b, d) ensures less(a, d) {
      HeadThrough(c, rest[a][0], rest[b][0], rest[d][0]);
    }
  }

  lemma HeadThrough<T(!new)>(c: (T, T) -> int, x: T, y: T, z: T)
    requires TotalPreorder(c) && c(x, y) <= 0 && c(y, z) <= 0
    ensures c(x, z) <= 0
    ensures c(x, z) == 0 ==> c(x, y) == 0 && c(y, z) == 0
  {
    assert c(x, z) == 0 ==> c(z, x) <= 0;
    assert c(z, x) <= 0 ==> c(y, x) <= 0 && c(z, y) <= 0;
  }

  // ---------- One extraction ----------

  /** Every run that is left is in the heap, once. */
  ghost function Count(h: seq<nat>, k: nat): nat {
    multiset(h)[k]
  }

  ghost predicate Holds<T>(rest: seq<seq<T>>, h: seq<nat>) {
    forall k :: Count(h, k) == if k in Live(rest) then 1 else 0
  }

  ghost predicate Ready<T>(c: (T, T) -> int, rest: seq<seq<T>>, less: (nat, nat) -> bool, h: seq<nat>) {
    Models(c, rest, less) && Holds(rest, h) && Inside(h, Live(rest)) && HeapFrom(less, h, 0)
  }

  /** Run `i` holds the next line: it is before the heads of earlier runs and not
      after the heads of later ones. */
  ghost predicate Next<T>(c: (T, T) -> int, rest: seq<seq<T>>, i: nat) {
    && i in Live(rest)
    && (forall k :: k in Live(rest) && k < i ==> c(rest[i][0], rest[k][0]) < 0)
    && (forall k :: k in Live(rest) && k > i ==> c(rest[i][0], rest[k][0]) <= 0)
  }

  lemma InHeap<T>(rest: seq<seq<T>>, h: seq<nat>, k: nat) returns (i: nat)
    requires Holds(rest, h) && k in Live(rest)
    ensures i < |h| && h[i] == k
  {
    assert Count(h, k) == 1;
    assert k in multiset(h);
    i :| 0 <= i < |h| && h[i] == k;
  }

  lemma RootIsNext<T(!new)>(c: (T, T) -> int, rest: seq<seq<T>>, less: (nat, nat) -> bool, h: seq<nat>)
    requires TotalPreorder(c) && Ready(c, rest, less, h) && h != []
    ensures Next(c, rest, h[0])
  {
    ModelsStrict(c, rest, less);
    forall k | k in Live(rest)
      ensures k < h[0] ==> c(rest[h[0]][0], rest[k][0]) < 0
      ensures k > h[0] ==> c(rest[h[0]][0], rest[k][0]) <= 0
    {
      var i := InHeap(rest, h, k);
      RootIsLeast(less, Live(rest), h, i);
      assert !HeadLess(c, rest, k, h[0]);
    }
  }

  lemma {:induction false} FlattenSplit<T>(ss: seq<seq<T>>, i: nat)
    requires i < |ss|
    ensures Flatten(ss) == Flatten(ss[..i]) + ss[i] + Flatten(ss[i + 1..])
  {
    if i > 0 {
      FlattenSplit(ss[1..], i - 1);
      assert ss[1..][..i - 1] == ss[1..i] && ss[1..][i..] == ss[i + 1..];
      assert ss[..i][0] == ss[0] && ss[..i][1..] == ss[1..i];
    }
  }

  lemma FlattenSnoc<T>(ss: seq<seq<T>>)
    requires ss != []
    ensures Flatten(ss) == Flatten(ss[..|ss| - 1]) + ss[|ss| - 1]
  {
    FlattenSplit(ss, |ss| - 1);
    assert Flatten<T>([]) == [];
  }

  lemma {:induction false} FlattenMember<T>(ss: seq<seq<T>>, x: T) returns (k: nat, j: nat)
    requires x in Flatten(ss)
    ensures k < |ss| && j < |ss[k]| && ss[k][j] == x
    decreases |ss|
  {
    if x in ss[0] {
      k := 0;
      j :| 0 <= j < |ss[0]| && ss[0][j] == x;
    } else {
      k, j := FlattenMember(ss[1..], x);
      k := k + 1;
    }
  }

  /** What is before everything that could tie with it comes out first. */
  lemma HeadFirst<T(!new)>(c: (T, T) -> int, a: seq<T>, x: T, b: seq<T>)
    requires TotalPreorder(c)
    requires forall y :: y in a ==> c(x, y) < 0
    requires forall y :: y in b ==> c(x, y) <= 0
    ensures StableSort(c, a + [x] + b) == [x] + StableSort(c, a + b)
  {
    var t := StableSort(c, a + b);
    StableSortStable(c, a + b);
    SameClassesPermutes(c, a + b, t);
    hide StableSort, Project;
    forall g ensures Project(c, g, a + [x] + b) == Project(c, g, [x] + t) {
      assert Project(c, g, a + b) == Project(c, g, t);
      HeadClass(c, g, a, x, b, t);
    }
    forall y | y in t ensures c(x, y) <= 0 { assert y in a + b; }
    SortedCons(c, x, t);
    StableSortIs(c, a + [x] + b, [x] + t);
  }

  lemma SortedCons<T>(c: (T, T) -> int, x: T, t: seq<T>)
    requires Sorted(c, t) && forall y :: y in t ==> c(x, y) <= 0
    ensures Sorted(c, [x] + t)
  {
  }

  lemma HeadClass<T(!new)>(c: (T, T) -> int, g: T, a: seq<T>, x: T, b: seq<T>, t: seq<T>)
    requires TotalPreorder(c) && forall y :: y in a ==> c(x, y) < 0
    requires Project(c, g, a + b) == Project(c, g, t)
    ensures Project(c, g, a + [x] + b) == Project(c, g, [x] + t)
  {
    ClassOf(c, g, a, b);
    ClassOf(c, g, a + [x], b);
    ClassOf(c, g, a, [x]);
    ClassOf(c, g, [x], t);
    if c(x, g) == 0 {
      forall y | y in a ensures !Like(c, g)(y) { LikeTransitive(c, x, y, g); }
      FilterNone(Like(c, g), a);
    } else {
      FilterNone(Like(c, g), [x]);
    }
    hide Project;
    Prepend(Project(c, g, a), Project(c, g, [x]), Project(c, g, b));
  }

  lemma ClassOf<T>(c: (T, T) -> int, g: T, a: seq<T>, b: seq<T>)
    ensures Project(c, g, a + b) == Project(c, g, a) + Project(c, g, b)
  {
    FilterConcat(Like(c, g), a, b);
  }

  lemma Prepend<T>(a: seq<T>, x: seq<T>, b: seq<T>)
    ensures a == [] || x == [] ==> (a + x) + b == x + (a + b)
  {
    if x == [] {
      assert a + x == a;
    }
  }

  /** The next line, what is before it in earlier runs, and what is after it. */
  lemma NextSplits<T>(rest: seq<seq<T>>, i: nat)
    requires i < |rest| && rest[i] != []
    ensures var a, b := Flatten(rest[..i]), rest[i][1..] + Flatten(rest[i + 1..]);
      Flatten(rest) == a + [rest[i][0]] + b && Flatten(rest[i := rest[i][1..]]) == a + b
  {
    var rest' := rest[i := rest[i][1..]];
    FlattenSplit(rest, i);
    FlattenSplit(rest', i);
    assert rest'[..i] == rest[..i] && rest'[i + 1..] == rest[i + 1..];
    hide Flatten;
    assert rest[i] == [rest[i][0]] + rest[i][1..];
    Regroup(Flatten(rest[..i]), [rest[i][0]], rest[i][1..], Flatten(rest[i + 1..]));
  }

  lemma Regroup<T>(a: seq<T>, x: seq<T>, b: seq<T>, d: seq<T>)
    ensures a + (x + b) + d == a + x + (b + d)
    ensures a + b + d == a + (b + d)
  {
  }

  lemma AfterNext<T(!new)>(c: (T, T) -> int, rest: seq<seq<T>>, i: nat, y: T)
    requires TotalPreorder(c) && AllSorted(c, rest) && Next(c, rest, i)
    ensures i in Live(rest)
    ensures y in rest[i][1..] ==> c(rest[i][0], y) <= 0
  {
    assert i < |rest| && Sorted(c, rest[i]);
    hide TotalPreorder, Next, AllSorted;
    if y in rest[i][1..] {
      var j :| 0 <= j < |rest[i]| - 1 && rest[i][1..][j] == y;
      assert c(rest[i][0], rest[i][j + 1]) <= 0;
    }
  }

  /** Taking the next line out of its run leaves the rest of the sort. */
  lemma TakeNext<T(!new)>(c: (T, T) -> int, rest: seq<seq<T>>, i: nat)
    requires TotalPreorder(c) && AllSorted(c, rest) && Next(c, rest, i)
    ensures var rest' := rest[i := rest[i][1..]];
      AllSorted(c, rest') && StableSort(c, Flatten(rest)) == [rest[i][0]] + StableSort(c, Flatten(rest'))
  {
    var rest', x := rest[i := rest[i][1..]], rest[i][0];
    var a, b := Flatten(rest[..i]), rest[i][1..] + Flatten(rest[i + 1..]);
    assert AllSorted(c, rest');
    assert i in Live(rest);
    hide TotalPreorder, AllSorted, Sorted, Next, StableSort, Flatten;
    NextSplits(rest, i);
    forall y | y in a ensures c(x, y) < 0 {
      var k, j := FlattenMember(rest[..i], y);
      NextBelow(c, rest, i, k, j);
    }
    forall y | y in b ensures c(x, y) <= 0 {
      AfterNext(c, rest, i, y);
      if y !in rest[i][1..] {
        var k, j := FlattenMember(rest[i + 1..], y);
        NextBelow(c, rest, i, i + 1 + k, j);
      }
    }
    HeadFirst(c, a, x, b);
  }

  lemma NextBelow<T(!new)>(c: (T, T) -> int, rest: seq<seq<T>>, i: nat, k: nat, j: nat)
    requires TotalPreorder(c) && AllSorted(c, rest) && Next(c, rest, i) && k != i && k < |rest| && j < |rest[k]|
    ensures k < i ==> c(rest[i][0], rest[k][j]) < 0
    ensures k > i ==> c(rest[i][0], rest[k][j]) <= 0
  {
    assert k in Live(rest);
    assert c(rest[k][0], rest[k][0]) == 0;
    assert j > 0 ==> c(rest[k][0], rest[k][j]) <= 0;
    HeadThrough(c, rest[i][0], rest[k][0], rest[k][j]);
  }

  // ---------- The heap after an extraction ----------

  /** Where run `choice` ends, the last entry takes the root's place. */
  ghost function Popped(h: seq<nat>, exhausted: bool): seq<nat>
    requires h != []
  {
    if !exhausted then h else if |h| == 1 then [] else h[..|h| - 1][0 := h[|h| - 1]]
  }

  lemma PoppedHolds<T>(rest: seq<seq<T>>, h: seq<nat>)
    requires Holds(rest, h) && h != [] && h[0] in Live(rest)
    ensures var rest' := rest[h[0] := rest[h[0]][1..]]; Holds(rest', Popped(h, rest'[h[0]] == []))
  {
    var choice := h[0];
    var rest' := rest[choice := rest[choice][1..]];
    var g := Popped(h, rest'[choice] == []);
    forall k: nat ensures Count(g, k) == if k in Live(rest') then 1 else 0 {
      assert Count(h, k) == if k in Live(rest) then 1 else 0;
      if rest'[choice] == [] {
        PoppedCount(h, k);
      }
    }
  }

  lemma PoppedCount(h: seq<nat>, k: nat)
    requires h != []
    ensures Count(Popped(h, true), k) == Count(h, k) - if k == h[0] then 1 else 0
  {
    assert h == [h[0]] + h[1..];
    if |h| > 1 {
      var n := |h| - 1;
      assert h[1..] == h[1..n] + [h[n]];
      assert Popped(h, true) == [h[n]] + h[1..n];
    } else {
      assert h[1..] == [];
    }
  }

  /** The root occurs only there. */
  lemma RootOnce<T>(rest: seq<seq<T>>, h: seq<nat>, i: nat)
    requires Holds(rest, h) && 0 < i < |h|
    ensures h[i] != h[0]
  {
    assert h == h[..i] + [h[i]] + h[i + 1..];
    assert h[..i] == [h[0]] + h[1..i];
    assert Count(h, h[0]) <= 1;
  }

  lemma HoldsInside<T>(rest: seq<seq<T>>, h: seq<nat>)
    requires Holds(rest, h)
    ensures Inside(h, Live(rest))
  {
    forall i | 0 <= i < |h| ensures h[i] in Live(rest) {
      assert h[i] in multiset(h) && Count(h, h[i]) > 0;
    }
  }

  lemma OthersKeep<T>(c: (T, T) -> int, rest: seq<seq<T>>, less: (nat, nat) -> bool, less': (nat, nat) -> bool, choice: nat, a: nat, b: nat)
    requires choice in Live(rest) && Models(c, rest, less) && Models(c, rest[choice := rest[choice][1..]], less')
    requires a in Live(rest) && b in Live(rest) && a != choice && b != choice
    ensures less(a, b) == less'(a, b)
  {
    var rest' := rest[choice := rest[choice][1..]];
    assert a in Live(rest') && b in Live(rest');
    assert less(a, b) == HeadLess(c, rest, a, b);
    assert less'(a, b) == HeadLess(c, rest', a, b);
  }

  /** After the extraction only the root may be out of place. */
  lemma HeapAfter<T(!new)>(c: (T, T) -> int, rest: seq<seq<T>>, less: (nat, nat) -> bool, less': (nat, nat) -> bool, h: seq<nat>)
    requires Ready(c, rest, less, h) && h != []
    requires Models(c, rest[h[0] := rest[h[0]][1..]], less')
    ensures var rest' := rest[h[0] := rest[h[0]][1..]];
      var g := Popped(h, rest'[h[0]] == []);
      Holds(rest', g) && Inside(g, Live(rest')) && HeapFrom(less', g, 1)
  {
    var choice := h[0];
    var rest' := rest[choice := rest[choice][1..]];
    var g := Popped(h, rest'[choice] == []);
    assert h[0] in Live(rest);
    PoppedHolds(rest, h);
    HoldsInside(rest', g);
    forall i | 0 < i < |g| && Parent(i) >= 1 ensures !less'(g[i], g[Parent(i)]) {
      assert g[i] == h[i] && g[Parent(i)] == h[Parent(i)];
      RootOnce(rest, h, i);
      RootOnce(rest, h, Parent(i));
      OthersKeep(c, rest, less, less', choice, h[i], h[Parent(i)]);
    }
  }

  /** `heap[0] = heap[--heap_len]`, or nothing, and the sift that follows. */
  method Replace<T(!new)>(heap: array<nat>, len: nat, less: (nat, nat) -> bool, exhausted: bool,
                          ghost c: (T, T) -> int, ghost rest: seq<seq<T>>, ghost before: (nat, nat) -> bool)
    returns (newLen: nat)
    requires 0 < len <= heap.Length && TotalPreorder(c) && Ready(c, rest, before, heap[..len])
    requires Models(c, rest[heap[0] := rest[heap[0]][1..]], less)
    requires exhausted <==> rest[heap[0]][1..] == []
    modifies heap
    ensures newLen <= heap.Length
    ensures Ready(c, rest[old(heap[0]) := rest[old(heap[0])][1..]], less, heap[..newLen])
  {
    ghost var h := heap[..len];
    ghost var rest' := rest[heap[0] := rest[heap[0]][1..]];
    HeapAfter(c, rest, before, less, h);
    ModelsStrict(c, rest', less);
    hide TotalPreorder, Models, Holds, StrictOn, Live, HeapFrom;
    newLen := len;
    if exhausted {
      newLen := len - 1;
      heap[0] := heap[newLen];
    }
    assert heap[..newLen] == Popped(h, exhausted);
    if newLen > 1 {
      SiftDown(heap, newLen, 0, less, Live(rest'));
      HoldsPermuted(rest', Popped(h, exhausted), heap[..newLen]);
    } else {
      TinyHeap(less, heap[..newLen]);
    }
  }

  lemma HoldsPermuted<T>(rest: seq<seq<T>>, g: seq<nat>, h: seq<nat>)
    requires Holds(rest, g) && multiset(h) == multiset(g)
    ensures Holds(rest, h)
  {
  }

  lemma TinyHeap(less: (nat, nat) -> bool, h: seq<nat>)
    requires |h| <= 1
    ensures HeapFrom(less, h, 0)
  {
  }

  // ---------- Runs of one array ----------

  /** Consecutive stretches that make up `n` lines. */
  ghost predicate Partition(bounds: seq<nat>, n: nat) {
    && |bounds| >= 1 && bounds[0] == 0 && bounds[|bounds| - 1] == n
    && forall j, k :: 0 <= j <= k < |bounds| ==> bounds[j] <= bounds[k]
  }

  ghost predicate Placed(n: nat, pos: seq<nat>, ends: seq<nat>) {
    |pos| == |ends| && forall k :: 0 <= k < |pos| ==> pos[k] <= ends[k] <= n
  }

  /** What is left of every run. */
  ghost function Rest<T>(items: seq<T>, pos: seq<nat>, ends: seq<nat>): (r: seq<seq<T>>)
    requires Placed(|items|, pos, ends)
    ensures |r| == |pos|
    ensures forall k :: 0 <= k < |pos| ==> r[k] == items[pos[k]..ends[k]]
  {
    seq(|pos|, k requires 0 <= k < |pos| => items[pos[k]..ends[k]])
  }

  lemma PartitionPlaced(bounds: seq<nat>, n: nat)
    requires Partition(bounds, n)
    ensures Placed(n, bounds[..|bounds| - 1], bounds[1..])
  {
    var pos, ends := bounds[..|bounds| - 1], bounds[1..];
    forall k | 0 <= k < |pos| ensures pos[k] <= ends[k] <= n {
      assert bounds[k] <= bounds[k + 1] <= bounds[|bounds| - 1];
    }
  }

  lemma {:induction false} FlattenRuns<T>(items: seq<T>, bounds: seq<nat>, k: nat)
    requires Partition(bounds, |items|) && k < |bounds| && Placed(|items|, bounds[..|bounds| - 1], bounds[1..])
    ensures Flatten(Rest(items, bounds[..|bounds| - 1], bounds[1..])[k..]) == items[bounds[k]..]
    decreases |bounds| - k
  {
    var ss := Rest(items, bounds[..|bounds| - 1], bounds[1..]);
    if k < |bounds| - 1 {
      FlattenRuns(items, bounds, k + 1);
      assert Flatten(ss[k..]) == ss[k..][0] + Flatten(ss[k..][1..]);
      assert ss[k..][0] == ss[k] && ss[k..][1..] == ss[k + 1..];
      assert ss[k] == items[bounds[k]..bounds[k + 1]];
      hide Flatten, Rest;
      CutAt(items, bounds[k], bounds[k + 1]);
    }
  }

  lemma CutAt<T>(items: seq<T>, from: nat, to: nat)
    requires from <= to <= |items|
    ensures items[from..] == items[from..to] + items[to..]
  {
  }

  /** The prepared merge's comparison of two runs. */
  function RunLess<T>(c: (T, T) -> int, items: seq<T>, pos: seq<nat>): (nat, nat) -> bool {
    (a: nat, b: nat) =>
      a < |pos| && b < |pos| && pos[a] < |items| && pos[b] < |items| &&
      (c(items[pos[a]], items[pos[b]]) < 0 || (c(items[pos[a]], items[pos[b]]) == 0 && a < b))
  }

  lemma RunLessModels<T>(c: (T, T) -> int, items: seq<T>, pos: seq<nat>, ends: seq<nat>)
    requires Placed(|items|, pos, ends)
    ensures Models(c, Rest(items, pos, ends), RunLess(c, items, pos))
  {
    var rest := Rest(items, pos, ends);
    forall a, b | a in Live(rest) && b in Live(rest)
      ensures RunLess(c, items, pos)(a, b) == HeadLess(c, rest, a, b)
    {
      assert rest[a][0] == items[pos[a]] && rest[b][0] == items[pos[b]];
    }
  }

  /** The runs that are not empty, in order. */
  method BuildHeap<T>(heap: array<nat>, pos: seq<nat>, ends: seq<nat>, ghost items: seq<T>) returns (len: nat)
    requires Placed(|items|, pos, ends) && heap.Length == |pos|
    modifies heap
    ensures len <= heap.Length && Holds(Rest(items, pos, ends), heap[..len])
  {
    ghost var rest := Rest(items, pos, ends);
    len := 0;
    for i := 0 to |pos|
      invariant 0 <= len <= i
      invariant forall k: nat :: Count(heap[..len], k) == if k < i && k in Live(rest) then 1 else 0
    {
      if pos[i] < ends[i] {
        ghost var h := heap[..len];
        heap[len] := i;
        len := len + 1;
        assert heap[..len] == h + [i];
        CountSnoc(h, i);
      }
    }
  }

  lemma CountSnoc(h: seq<nat>, i: nat)
    ensures forall k :: Count(h + [i], k) == Count(h, k) + if k == i then 1 else 0
  {
  }

  lemma Exhausted<T>(rest: seq<seq<T>>)
    requires Live(rest) == {}
    ensures Flatten(rest) == []
  {
    forall k | 0 <= k < |rest| ensures rest[k] == [] {
      assert k !in Live(rest);
    }
    FlattenNothing(rest);
  }

  lemma {:induction false} FlattenNothing<T>(ss: seq<seq<T>>)
    requires forall k :: 0 <= k < |ss| ==> ss[k] == []
    ensures Flatten(ss) == []
  {
    if ss != [] {
      FlattenNothing(ss[1..]);
    }
  }

  lemma EmptyHeap<T>(rest: seq<seq<T>>, h: seq<nat>)
    requires Holds(rest, h) && h == []
    ensures Live(rest) == {}
  {
    forall k: nat ensures k !in Live(rest) {
      assert Count(h, k) == 0;
    }
  }

  /** A merge in progress: `done` has been taken, and sorting what is left would
      complete the sort of everything. */
  ghost predicate Merging<T>(c: (T, T) -> int, items: seq<T>, done: seq<T>, pos: seq<nat>, ends: seq<nat>) {
    && Placed(|items|, pos, ends) && AllSorted(c, Rest(items, pos, ends))
    && done + StableSort(c, Flatten(Rest(items, pos, ends))) == StableSort(c, items)
  }

  lemma MergingStart<T>(c: (T, T) -> int, items: seq<T>, bounds: seq<nat>)
    requires Partition(bounds, |items|) && Placed(|items|, bounds[..|bounds| - 1], bounds[1..])
    requires AllSorted(c, Rest(items, bounds[..|bounds| - 1], bounds[1..]))
    ensures Merging(c, items, [], bounds[..|bounds| - 1], bounds[1..])
  {
    var ss := Rest(items, bounds[..|bounds| - 1], bounds[1..]);
    FlattenRuns(items, bounds, 0);
    assert ss[0..] == ss && items[0..] == items;
  }

  lemma MergingStep<T(!new)>(c: (T, T) -> int, items: seq<T>, done: seq<T>, pos: seq<nat>, ends: seq<nat>, i: nat)
    requires TotalPreorder(c) && Merging(c, items, done, pos, ends) && Next(c, Rest(items, pos, ends), i)
    ensures i < |pos| && pos[i] < ends[i] <= |items|
    ensures var rest, pos' := Rest(items, pos, ends), pos[i := pos[i] + 1];
      Merging(c, items, done + [items[pos[i]]], pos', ends) && Rest(items, pos', ends) == rest[i := rest[i][1..]]
  {
    var rest := Rest(items, pos, ends);
    assert i in Live(rest);
    var pos' := pos[i := pos[i] + 1];
    assert Rest(items, pos', ends) == rest[i := rest[i][1..]];
    hide TotalPreorder, Next, Sorted, StableSort, Flatten;
    TakeNext(c, rest, i);
    assert rest[i][0] == items[pos[i]];
  }

  lemma MergingDone<T>(c: (T, T) -> int, items: seq<T>, done: seq<T>, pos: seq<nat>, ends: seq<nat>)
    requires Merging(c, items, done, pos, ends) && Live(Rest(items, pos, ends)) == {}
    ensures done == StableSort(c, items)
  {
    Exhausted(Rest(items, pos, ends));
    assert StableSort(c, []) == [];
  }

  lemma MergingBound<T>(c: (T, T) -> int, items: seq<T>, done: seq<T>, pos: seq<nat>, ends: seq<nat>)
    requires Merging(c, items, done, pos, ends)
    ensures |done| <= |items|
  {
    StableSortLength(c, items);
  }

  /** The prepared merge.  Its result is the stable sort of all lines: ties are
      resolved by run, and within a run by position. */
  method MergeOrderLines<T(!new)>(c: (T, T) -> int, items: seq<T>, bounds: seq<nat>) returns (merged: seq<T>)
    requires TotalPreorder(c) && Partition(bounds, |items|) && Placed(|items|, bounds[..|bounds| - 1], bounds[1..])
    requires AllSorted(c, Rest(items, bounds[..|bounds| - 1], bounds[1..]))
    ensures merged == StableSort(c, items)
  {
    assert |bounds| >= 1;
    hide *;
    var pos: seq<nat>, ends: seq<nat> := bounds[..|bounds| - 1], bounds[1..];
    merged := [];
    MergingStart(c, items, bounds);
    var heap := new nat[|pos|];
    RunLessModels(c, items, pos, ends);
    var len: nat := StartHeap(c, RunLess(c, items, pos), heap, pos, ends, items);
    while len > 0
      invariant len <= heap.Length
      invariant Merging(c, items, merged, pos, ends)
      invariant Placed(|items|, pos, ends)
      invariant Ready(c, Rest(items, pos, ends), RunLess(c, items, pos), heap[..len])
      decreases |items| - |merged|
    {
      ghost var rest, before := Rest(items, pos, ends), RunLess(c, items, pos);
      var choice := heap[0];
      RootIsNext(c, rest, before, heap[..len]);
      MergingStep(c, items, merged, pos, ends, choice);
      merged := merged + [items[pos[choice]]];
      pos := pos[choice := pos[choice] + 1];
      MergingBound(c, items, merged, pos, ends);
      MergingPlaced(c, items, merged, pos, ends);
      RunLessModels(c, items, pos, ends);
      len := Replace(heap, len, RunLess(c, items, pos), pos[choice] == ends[choice], c, rest, before);
    }
    ReadyHolds(c, Rest(items, pos, ends), RunLess(c, items, pos), heap[..len]);
    EmptyHeap(Rest(items, pos, ends), heap[..len]);
    MergingDone(c, items, merged, pos, ends);
  }

  lemma MergingPlaced<T>(c: (T, T) -> int, items: seq<T>, done: seq<T>, pos: seq<nat>, ends: seq<nat>)
    requires Merging(c, items, done, pos, ends)
    ensures Placed(|items|, pos, ends)
  {
  }

  lemma ReadyHolds<T>(c: (T, T) -> int, rest: seq<seq<T>>, less: (nat, nat) -> bool, h: seq<nat>)
    requires Ready(c, rest, less, h)
    ensures Holds(rest, h)
  {
  }

  method StartHeap<T(!new)>(ghost c: (T, T) -> int, less: (nat, nat) -> bool, heap: array<nat>, pos: seq<nat>, ends: seq<nat>, ghost items: seq<T>)
    returns (len: nat)
    requires TotalPreorder(c) && Placed(|items|, pos, ends) && heap.Length == |pos|
    requires Models(c, Rest(items, pos, ends), less)
    modifies heap
    ensures len <= heap.Length && Ready(c, Rest(items, pos, ends), less, heap[..len])
  {
    ghost var rest := Rest(items, pos, ends);
    hide TotalPreorder, Models, Holds, Live, StrictOn, Rest, Placed, HeapFrom;
    len := BuildHeap(heap, pos, ends, items);
    ModelsStrict(c, rest, less);
    HoldsInside(rest, heap[..len]);
    if len > 1 {
      ghost var h := heap[..len];
      Heapify(heap, len, less, Live(rest));
      HoldsPermuted(rest, h, heap[..len]);
    } else {
      TinyHeap(less, heap[..len]);
    }
  }
}
