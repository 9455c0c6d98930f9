/** The binary heap of run numbers that all three merges of src/merge.c keep in
    an array. */
module Heap {

  /** A strict total order on the run numbers of `ids`. */
  ghost predicate StrictOn(less: (nat, nat) -> bool, ids: set<nat>) {
    && (forall a, b :: a in ids && b in ids && less(a, b) ==> !less(b, a))
    && (forall a, b, d :: a in ids && b in ids && d in ids && less(a, b) && less(b, d) ==> less(a, d))
    && (forall a, b :: a in ids && b in ids && a != b ==> less(a, b) || less(b, a))
  }

  function Parent(i: nat): nat
    requires i > 0
  {
    (i - 1) / 2
  }

  ghost predicate Inside(h: seq<nat>, ids: set<nat>) {
    forall i :: 0 <= i < |h| ==> h[i] in ids
  }

  /** No entry at or below `from` is less than its parent. */
  ghost predicate HeapFrom(less: (nat, nat) -> bool, h: seq<nat>, from: nat) {
    forall i :: 0 < i < |h| && Parent(i) >= from ==> !less(h[i], h[Parent(i)])
  }

  /** The same while the entry at `r` is on its way down: its own children are
      not yet known to be in place, but they fit under its parent. */
  ghost predicate HeapBut(less: (nat, nat) -> bool, h: seq<nat>, from: nat, r: nat) {
    && (forall i :: 0 < i < |h| && Parent(i) >= from && Parent(i) != r ==> !less(h[i], h[Parent(i)]))
    && (r > from && r > 0 && Parent(r) >= from ==>
        forall i :: 0 < i < |h| && Parent(i) == r ==> !less(h[i], h[Parent(r)]))
  }

  lemma LessThrough(less: (nat, nat) -> bool, ids: set<nat>, a: nat, b: nat, d: nat)
    requires StrictOn(less, ids) && a in ids && b in ids && d in ids
    requires !less(b, a) && !less(d, b)
    ensures !less(d, a)
  {
    assert a != b ==> less(a, b);
    assert less(d, a) && less(a, b) ==> less(d, b);
  }

  lemma Irreflexive(less: (nat, nat) -> bool, ids: set<nat>, a: nat)
    requires StrictOn(less, ids) && a in ids
    ensures !less(a, a)
  {
  }

  lemma ChildOf(i: nat, r: nat)
    requires i > 0
    ensures Parent(i) == r <==> i == 2 * r + 1 || i == 2 * r + 2
  {
  }

  /** Swapping the entry with the least of its children moves the gap down. */
  lemma SwapDown(less: (nat, nat) -> bool, ids: set<nat>, h: seq<nat>, from: nat, r: nat, best: nat)
    requires StrictOn(less, ids) && Inside(h, ids) && HeapBut(less, h, from, r)
    requires from <= r < best < |h| && Parent(best) == r && less(h[best], h[r])
    requires forall i :: 0 < i < |h| && Parent(i) == r ==> !less(h[i], h[best])
    ensures var g := h[r := h[best]][best := h[r]]; Inside(g, ids) && HeapBut(less, g, from, best)
  {
    var g := h[r := h[best]][best := h[r]];
    forall i | 0 < i < |g| && Parent(i) >= from && Parent(i) != best ensures !less(g[i], g[Parent(i)]) {
      if i != best && Parent(i) != r && i == r {
        assert Parent(best) == r;
      }
    }
    forall i | 0 < i < |g| && Parent(i) == best ensures !less(g[i], g[r]) {
      assert !less(h[i], h[Parent(i)]);
    }
  }

  /** No child of `r` is less than `r`: the gap is closed. */
  lemma SettleDown(less: (nat, nat) -> bool, h: seq<nat>, from: nat, r: nat)
    requires HeapBut(less, h, from, r)
    requires forall i :: 0 < i < |h| && Parent(i) == r ==> !less(h[i], h[r])
    ensures HeapFrom(less, h, from)
  {
  }

  /** The choice between an entry and its two children. */
  method Least(heap: array<nat>, len: nat, root: nat, less: (nat, nat) -> bool, ghost ids: set<nat>) returns (best: nat)
    requires len <= heap.Length && root < len && StrictOn(less, ids) && Inside(heap[..len], ids)
    ensures best < len && (best == root || (best > root && Parent(best) == root && less(heap[best], heap[root])))
    ensures forall i :: 0 < i < len && Parent(i) == root ==> !less(heap[i], heap[best])
  {
    var left := root * 2 + 1;
    var right := left + 1;
    assert forall i :: 0 <= i < len ==> heap[..len][i] in ids;
    Irreflexive(less, ids, heap[root]);
    best := root;
    if left < len && less(heap[left], heap[best]) {
      best := left;
    }
    if right < len && less(heap[right], heap[best]) {
      best := right;
    }
    forall i | 0 < i < len && Parent(i) == root ensures !less(heap[i], heap[best]) {
      ChildOf(i, root);
      if i == left && best == right {
        if less(heap[left], heap[root]) {
        } else {
          LessOrNot(less, ids, heap[left], heap[root], heap[right]);
        }
      } else if i == best {
        Irreflexive(less, ids, heap[i]);
      }
    }
  }

  lemma LessOrNot(less: (nat, nat) -> bool, ids: set<nat>, a: nat, b: nat, d: nat)
    requires StrictOn(less, ids) && a in ids && b in ids && d in ids
    requires !less(a, b) && less(d, b)
    ensures !less(a, d)
  {
  }

  /** Moves the entry at `root` down to where it belongs. */
  method SiftDown(heap: array<nat>, len: nat, root: nat, less: (nat, nat) -> bool, ghost ids: set<nat>)
    requires root < len <= heap.Length && StrictOn(less, ids) && Inside(heap[..len], ids)
    requires HeapFrom(less, heap[..len], root + 1)
    modifies heap
    ensures Inside(heap[..len], ids) && HeapFrom(less, heap[..len], root)
    ensures multiset(heap[..len]) == multiset(old(heap[..len]))
    ensures heap[len..] == old(heap[len..])
  {
    var r := root;
    while true
      invariant root <= r < len && Inside(heap[..len], ids)
      invariant HeapBut(less, heap[..len], root, r)
      invariant multiset(heap[..len]) == multiset(old(heap[..len]))
      invariant heap[len..] == old(heap[len..])
      decreases len - r
    {
      ghost var h := heap[..len];
      var best := Least(heap, len, r, less, ids);
      if best == r {
        SettleDown(less, h, root, r);
        return;
      }
      SwapDown(less, ids, h, root, r, best);
      heap[r], heap[best] := heap[best], heap[r];
      assert heap[..len] == h[r := h[best]][best := h[r]];
      SwapPermutes(h, r, best);
      r := best;
    }
  }

  lemma SwapPermutes(h: seq<nat>, i: nat, j: nat)
    requires i < |h| && j < |h|
    ensures multiset(h[i := h[j]][j := h[i]]) == multiset(h)
  {
  }

  /** In a heap the root is least. */
  lemma {:induction false} RootIsLeast(less: (nat, nat) -> bool, ids: set<nat>, h: seq<nat>, i: nat)
    requires StrictOn(less, ids) && Inside(h, ids) && HeapFrom(less, h, 0) && i < |h|
    ensures !less(h[i], h[0])
    decreases i
  {
    if i == 0 {
      Irreflexive(less, ids, h[0]);
    } else {
      RootIsLeast(less, ids, h, Parent(i));
      LessThrough(less, ids, h[0], h[Parent(i)], h[i]);
    }
  }

  lemma LeavesAreHeap(less: (nat, nat) -> bool, h: seq<nat>, from: nat)
    requires from >= |h| / 2
    ensures HeapFrom(less, h, from)
  {
  }

  /** Building the heap from the middle down. */
  method Heapify(heap: array<nat>, len: nat, less: (nat, nat) -> bool, ghost ids: set<nat>)
    requires len <= heap.Length && StrictOn(less, ids) && Inside(heap[..len], ids)
    modifies heap
    ensures Inside(heap[..len], ids) && HeapFrom(less, heap[..len], 0)
    ensures multiset(heap[..len]) == multiset(old(heap[..len]))
  {
    hide StrictOn, Inside, HeapFrom, Parent;
    var i := len / 2;
    LeavesAreHeap(less, heap[..len], len / 2);
    while i > 0
      invariant 0 <= i <= len / 2
      invariant Inside(heap[..len], ids) && HeapFrom(less, heap[..len], i)
      invariant multiset(heap[..len]) == multiset(old(heap[..len]))
    {
      i := i - 1;
      SiftDown(heap, len, i, less, ids);
    }
  }
}
