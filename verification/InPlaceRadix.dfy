/** The whole-line engine: an in-place ("American flag") MSD radix sort
    (src/radix.c).  It is not stable, but byte order leaves equal lines
    indistinguishable, so a sorted permutation is all there is to ask. */
module InPlaceRadix {
  import opened Buckets
  import opened Bytes
  import opened Insertion
  import opened Orders
  import opened StableRadix

  const INSERTION_THRESHOLD := 24

  /** The parameters of this engine, for the scan and base case it shares with
      the stable one. */
  function LineEngine<T>(key: T -> Text): Engine<T> {
    Engine(key, false, INSERTION_THRESHOLD, true)
  }

  ghost predicate SortedPermutation<T>(key: T -> Text, s: seq<T>, t: seq<T>) {
    Sorted(KeyOrder(key, false), t) && multiset(t) == multiset(s) && |t| == |s|
  }

  // ---------- Counting arguments ----------

  /** A block of matches and one more match outside it. */
  lemma CountBeyond<T>(p: T -> bool, t: seq<T>, a: nat, b: nat, i: nat)
    requires a <= b <= |t| && i < |t| && !(a <= i < b) && p(t[i])
    requires forall j :: a <= j < b ==> p(t[j])
    ensures |Filter(p, t)| > b - a
  {
    var u, v, w := t[..a], t[a..b], t[b..];
    assert t == u + v + w;
    FilterConcat(p, u + v, w);
    FilterConcat(p, u, v);
    FilterAll(p, v);
    if i < a {
      FilterMember(p, u, t[i]);
      assert u[i] == t[i];
    } else {
      FilterMember(p, w, t[i]);
      assert w[i - b] == t[i];
    }
  }

  function Total(n: seq<nat>): nat {
    if n == [] then 0 else Total(n[..|n| - 1]) + n[|n| - 1]
  }

  lemma {:induction false} TotalBump(n: seq<nat>, k: nat)
    requires k < |n|
    ensures Total(n[k := n[k] + 1]) == Total(n) + 1
  {
    var m := |n| - 1;
    if k < m {
      TotalBump(n[..m], k);
      assert n[k := n[k] + 1][..m] == n[..m][k := n[k] + 1];
    } else {
      assert n[k := n[k] + 1][..m] == n[..m];
    }
  }

  lemma {:induction false} TotalBound(n: seq<nat>, m: seq<nat>)
    requires |n| == |m| && forall k :: 0 <= k < |n| ==> n[k] <= m[k]
    ensures Total(n) <= Total(m)
  {
    if n != [] {
      TotalBound(n[..|n| - 1], m[..|m| - 1]);
    }
  }

  // ---------- Cycling elements into their buckets ----------

  /** State of the cycling loop: a permutation of `s` in which the first
      `next[b] - starts[b]` slots of every bucket are filled. */
  ghost predicate Cycling<T>(key: T -> Text, d: nat, s: seq<T>, lo: nat, counts: seq<nat>, starts: seq<nat>, next: seq<nat>, t: seq<T>) {
    && |counts| == |starts| == |next| == BUCKETS && lo + |s| <= |t|
    && multiset(t[lo..lo + |s|]) == multiset(s)
    && forall b :: 0 <= b < BUCKETS ==> starts[b] <= next[b] <= starts[b] + counts[b] && Filled(key, d, t, starts[b], next[b], b)
  }

  ghost predicate Filled<T>(key: T -> Text, d: nat, t: seq<T>, from: nat, to: nat, b: nat) {
    to <= |t| && forall j :: from <= j < to ==> BucketAt(key(t[j]), d) == b
  }

  ghost predicate Ready<T>(key: T -> Text, d: nat, s: seq<T>, lo: nat, counts: seq<nat>, starts: seq<nat>) {
    Counts(key, d, s, counts) && Layout(counts, lo, false, starts)
  }

  lemma ReadyBounds<T>(key: T -> Text, d: nat, s: seq<T>, lo: nat, counts: seq<nat>, starts: seq<nat>, b: nat)
    requires Ready(key, d, s, lo, counts, starts) && b < BUCKETS
    ensures |counts| == |starts| == BUCKETS
    ensures lo <= starts[b] <= starts[b] + counts[b] <= lo + |s|
  {
    LayoutInRange(key, d, s, counts, lo, false, starts, b);
  }

  /** A bucket whose slots are all filled has no further member in the range. */
  lemma FullBucket<T>(key: T -> Text, d: nat, s: seq<T>, k: nat, u: seq<T>, from: nat, to: nat, i: nat)
    requires multiset(u) == multiset(s) && from <= to <= |u| && to - from == |Bucket(key, d, k, s)|
    requires forall j :: from <= j < to ==> BucketAt(key(u[j]), d) == k
    requires i < |u| && !(from <= i < to)
    ensures BucketAt(key(u[i]), d) != k
  {
    var p := InBucket(key, d, k);
    FilterLength(p, s, u);
    if p(u[i]) {
      hide Filter;
      CountBeyond(p, u, from, to, i);
    }
  }

  lemma BucketSize<T>(key: T -> Text, d: nat, s: seq<T>, lo: nat, counts: seq<nat>, starts: seq<nat>, b: nat)
    requires Ready(key, d, s, lo, counts, starts) && b < BUCKETS
    ensures |counts| == BUCKETS && counts[b] == |Bucket(key, d, b, s)|
  {
  }

  /** An element found in the wrong bucket has a free slot waiting in its own. */
  lemma FreeSlot<T>(key: T -> Text, d: nat, s: seq<T>, lo: nat, counts: seq<nat>, starts: seq<nat>, next: seq<nat>, t: seq<T>, b: nat, k: nat)
    requires Ready(key, d, s, lo, counts, starts) && Cycling(key, d, s, lo, counts, starts, next, t)
    requires b < BUCKETS && k < BUCKETS && k != b && next[b] < starts[b] + counts[b]
    requires next[b] < |t| && BucketAt(key(t[next[b]]), d) == k
    ensures |starts| == |next| == |counts| == BUCKETS
    ensures lo <= starts[k] <= next[k] < starts[k] + counts[k] <= lo + |s|
    ensures lo <= next[b] < lo + |s| && next[k] != next[b]
  {
    hide Ready, BucketAt;
    ReadyBounds(key, d, s, lo, counts, starts, b);
    ReadyBounds(key, d, s, lo, counts, starts, k);
    Disjoint(key, d, s, lo, counts, starts, b, k);
    BucketSize(key, d, s, lo, counts, starts, k);
    var u := t[lo..lo + |s|];
    assert Filled(key, d, t, starts[k], next[k], k);
    hide Cycling, Bucket;
    if next[k] == starts[k] + counts[k] {
      FullBucket(key, d, s, k, u, starts[k] - lo, next[k] - lo, next[b] - lo);
    }
  }

  lemma Disjoint<T>(key: T -> Text, d: nat, s: seq<T>, lo: nat, counts: seq<nat>, starts: seq<nat>, a: nat, b: nat)
    requires Ready(key, d, s, lo, counts, starts) && a < BUCKETS && b < BUCKETS
    ensures |counts| == |starts| == BUCKETS
    ensures a != b ==> starts[a] + counts[a] <= starts[b] || starts[b] + counts[b] <= starts[a]
  {
    if a != b {
      LayoutDisjoint(counts, lo, false, starts, a, b);
    }
  }

  lemma SwapPermutes<T>(t: seq<T>, t': seq<T>, lo: nat, hi: nat, i: nat, j: nat)
    requires lo <= i < hi <= |t| && lo <= j < hi && t' == t[i := t[j]][j := t[i]]
    ensures multiset(t'[lo..hi]) == multiset(t[lo..hi])
  {
    var u := t[lo..hi];
    assert t'[lo..hi] == u[i - lo := u[j - lo]][j - lo := u[i - lo]];
  }

  lemma CyclingBounds<T>(key: T -> Text, d: nat, s: seq<T>, lo: nat, counts: seq<nat>, starts: seq<nat>, next: seq<nat>, t: seq<T>, b: nat)
    requires Ready(key, d, s, lo, counts, starts) && Cycling(key, d, s, lo, counts, starts, next, t) && b < BUCKETS
    ensures |counts| == |starts| == |next| == BUCKETS
    ensures lo <= starts[b] <= next[b] <= starts[b] + counts[b] <= lo + |s| <= |t|
    ensures multiset(t[lo..lo + |s|]) == multiset(s)
  {
    ReadyBounds(key, d, s, lo, counts, starts, b);
  }

  lemma FilledElsewhere<T>(key: T -> Text, d: nat, t: seq<T>, t': seq<T>, from: nat, to: nat, b: nat, i: nat, j: nat)
    requires Filled(key, d, t, from, to, b) && i < |t| && j < |t| && t' == t[i := t[j]][j := t[i]]
    requires !(from <= i < to) && !(from <= j < to)
    ensures Filled(key, d, t', from, to, b)
  {
  }

  /** After the swap, bucket `i` is filled as far as its advanced slot count says. */
  lemma SwapFilled<T>(key: T -> Text, d: nat, s: seq<T>, lo: nat, counts: seq<nat>, starts: seq<nat>, next: seq<nat>, t: seq<T>, t': seq<T>, b: nat, k: nat, i: nat)
    requires Ready(key, d, s, lo, counts, starts) && Cycling(key, d, s, lo, counts, starts, next, t)
    requires b < BUCKETS && k < BUCKETS && i < BUCKETS && k != b
    requires starts[b] <= next[b] < starts[b] + counts[b] && next[k] < starts[k] + counts[k]
    requires next[b] < |t| && BucketAt(key(t[next[b]]), d) == k
    requires next[k] < |t| && t' == t[next[b] := t[next[k]]][next[k] := t[next[b]]]
    ensures starts[i] <= next[i] <= starts[i] + counts[i]
    ensures Filled(key, d, t', starts[i], if i == k then next[i] + 1 else next[i], i)
  {
    hide Ready, BucketAt, Place;
    assert Filled(key, d, t, starts[i], next[i], i) && starts[i] <= next[i] <= starts[i] + counts[i] && starts[k] <= next[k];
    hide Cycling, Filled;
    Disjoint(key, d, s, lo, counts, starts, i, b);
    Disjoint(key, d, s, lo, counts, starts, i, k);
    FilledElsewhere(key, d, t, t', starts[i], next[i], i, next[b], next[k]);
    if i == k {
      FilledNext(key, d, t', starts[k], next[k], k);
    }
  }

  lemma SwapStep<T>(key: T -> Text, d: nat, s: seq<T>, lo: nat, counts: seq<nat>, starts: seq<nat>, next: seq<nat>, t: seq<T>, t': seq<T>, b: nat, k: nat)
    requires Ready(key, d, s, lo, counts, starts) && Cycling(key, d, s, lo, counts, starts, next, t)
    requires b < BUCKETS && k < BUCKETS && k != b && next[b] < starts[b] + counts[b]
    requires next[b] < |t| && BucketAt(key(t[next[b]]), d) == k
    requires next[k] < |t| && t' == t[next[b] := t[next[k]]][next[k] := t[next[b]]]
    ensures Cycling(key, d, s, lo, counts, starts, next[k := next[k] + 1], t')
  {
    hide *;
    CyclingBounds(key, d, s, lo, counts, starts, next, t, b);
    FreeSlot(key, d, s, lo, counts, starts, next, t, b, k);
    SwapPermutes(t, t', lo, lo + |s|, next[b], next[k]);
    forall i | 0 <= i < BUCKETS ensures
      starts[i] <= next[i] <= starts[i] + counts[i] && Filled(key, d, t', starts[i], if i == k then next[i] + 1 else next[i], i)
    {
      SwapFilled(key, d, s, lo, counts, starts, next, t, t', b, k, i);
    }
    CyclingNext(key, d, s, lo, counts, starts, next, t', k);
  }

  lemma CyclingNext<T>(key: T -> Text, d: nat, s: seq<T>, lo: nat, counts: seq<nat>, starts: seq<nat>, next: seq<nat>, t: seq<T>, k: nat)
    requires |counts| == |starts| == |next| == BUCKETS && lo + |s| <= |t| && multiset(t[lo..lo + |s|]) == multiset(s)
    requires k < BUCKETS && next[k] < starts[k] + counts[k]
    requires forall i :: 0 <= i < BUCKETS ==>
      starts[i] <= next[i] <= starts[i] + counts[i] && Filled(key, d, t, starts[i], if i == k then next[i] + 1 else next[i], i)
    ensures Cycling(key, d, s, lo, counts, starts, next[k := next[k] + 1], t)
  {
    hide Filled;
  }

  lemma FilledNext<T>(key: T -> Text, d: nat, t: seq<T>, from: nat, to: nat, b: nat)
    requires Filled(key, d, t, from, to, b) && to < |t| && BucketAt(key(t[to]), d) == b
    ensures Filled(key, d, t, from, to + 1, b)
  {
  }

  lemma KeepStep<T>(key: T -> Text, d: nat, s: seq<T>, lo: nat, counts: seq<nat>, starts: seq<nat>, next: seq<nat>, t: seq<T>, b: nat)
    requires Cycling(key, d, s, lo, counts, starts, next, t)
    requires b < BUCKETS && next[b] < starts[b] + counts[b] && next[b] < |t| && BucketAt(key(t[next[b]]), d) == b
    ensures Cycling(key, d, s, lo, counts, starts, next[b := next[b] + 1], t)
  {
  }

  lemma CyclingStart<T>(key: T -> Text, d: nat, s: seq<T>, lo: nat, counts: seq<nat>, starts: seq<nat>, t: seq<T>)
    requires Ready(key, d, s, lo, counts, starts) && lo + |s| <= |t| && t[lo..lo + |s|] == s
    ensures Cycling(key, d, s, lo, counts, starts, starts, t)
  {
    forall b | 0 <= b < BUCKETS ensures starts[b] <= |t| { ReadyBounds(key, d, s, lo, counts, starts, b); }
  }

  function Ends(counts: seq<nat>, starts: seq<nat>): seq<nat>
    requires |counts| == |starts|
  {
    seq(|counts|, b requires 0 <= b < |counts| => starts[b] + counts[b])
  }

  lemma EndsAt(counts: seq<nat>, starts: seq<nat>)
    requires |counts| == |starts|
    ensures |Ends(counts, starts)| == |counts|
    ensures forall b :: 0 <= b < |counts| ==> Ends(counts, starts)[b] == starts[b] + counts[b]
  {
  }

  lemma CyclingTotal<T>(key: T -> Text, d: nat, s: seq<T>, lo: nat, counts: seq<nat>, starts: seq<nat>, next: seq<nat>, t: seq<T>)
    requires Cycling(key, d, s, lo, counts, starts, next, t)
    ensures |counts| == |starts| == |next| == BUCKETS
    ensures Total(next) <= Total(Ends(counts, starts))
  {
    TotalBound(next, Ends(counts, starts));
  }

  ghost predicate Within(next: seq<nat>, ends: seq<nat>, n: nat) {
    |next| == |ends| == BUCKETS && forall k :: 0 <= k < BUCKETS ==> next[k] <= ends[k] <= n
  }

  lemma BumpWithin(next: seq<nat>, ends: seq<nat>, n: nat, k: nat)
    requires Within(next, ends, n) && k < BUCKETS && next[k] < ends[k]
    ensures Within(next[k := next[k] + 1], ends, n)
    ensures Total(next) < Total(next[k := next[k] + 1]) <= Total(ends)
  {
    TotalBump(next, k);
    TotalBound(next[k := next[k] + 1], ends);
  }

  /** The cycling loop for bucket `b`: slot counts and contents. */
  function CycleSlots<T>(key: T -> Text, d: nat, ends: seq<nat>, next: seq<nat>, t: seq<T>, b: nat): (r: (seq<nat>, seq<T>))
    requires b < BUCKETS && Within(next, ends, |t|)
    ensures |r.1| == |t| && Within(r.0, ends, |t|)
    decreases Total(ends) - Total(next)
  {
    if next[b] >= ends[b] then (next, t)
    else
      var k := BucketAt(key(t[next[b]]), d);
      if k == b then
        BumpWithin(next, ends, |t|, b);
        CycleSlots(key, d, ends, next[b := next[b] + 1], t, b)
      else if next[k] >= ends[k] then (next, t)
      else
        BumpWithin(next, ends, |t|, k);
        CycleSlots(key, d, ends, next[k := next[k] + 1], t[next[b] := t[next[k]]][next[k] := t[next[b]]], b)
  }

  function CycleFrom<T>(key: T -> Text, d: nat, ends: seq<nat>, next: seq<nat>, t: seq<T>, b: nat): (r: seq<T>)
    requires b <= BUCKETS && Within(next, ends, |t|)
    ensures |r| == |t|
    decreases BUCKETS - b
  {
    if b == BUCKETS then t
    else
      var r := CycleSlots(key, d, ends, next, t, b);
      CycleFrom(key, d, ends, r.0, r.1, b + 1)
  }

  lemma CyclingWithin<T>(key: T -> Text, d: nat, s: seq<T>, lo: nat, counts: seq<nat>, starts: seq<nat>, next: seq<nat>, t: seq<T>)
    requires Ready(key, d, s, lo, counts, starts) && Cycling(key, d, s, lo, counts, starts, next, t)
    ensures |counts| == |starts| == BUCKETS && Within(next, Ends(counts, starts), |t|)
    ensures forall b :: 0 <= b < BUCKETS ==> Ends(counts, starts)[b] == starts[b] + counts[b]
  {
    hide Ready, Filled;
    forall b | 0 <= b < BUCKETS ensures starts[b] + counts[b] <= |t| { ReadyBounds(key, d, s, lo, counts, starts, b); }
  }

  /** Going on with bucket `b` ends with `result`. */
  ghost predicate CyclesTo<T>(key: T -> Text, d: nat, ends: seq<nat>, next: seq<nat>, t: seq<T>, b: nat, result: seq<T>) {
    b <= BUCKETS && Within(next, ends, |t|) && CycleFrom(key, d, ends, next, t, b) == result
  }

  lemma CycleNext<T>(key: T -> Text, d: nat, ends: seq<nat>, next: seq<nat>, t: seq<T>, b: nat, next': seq<nat>, t': seq<T>, result: seq<T>)
    requires b < BUCKETS && CyclesTo(key, d, ends, next, t, b, result)
    requires Within(next, ends, |t|) && (next', t') == CycleSlots(key, d, ends, next, t, b)
    ensures CyclesTo(key, d, ends, next', t', b + 1, result)
  {
    hide CycleSlots;
  }

  lemma CycleEnd<T>(key: T -> Text, d: nat, ends: seq<nat>, next: seq<nat>, t: seq<T>, result: seq<T>)
    requires CyclesTo(key, d, ends, next, t, BUCKETS, result)
    ensures t == result
  {
  }

  lemma SlotsFull<T>(key: T -> Text, d: nat, ends: seq<nat>, next: seq<nat>, t: seq<T>, b: nat)
    requires b < BUCKETS && Within(next, ends, |t|) && next[b] >= ends[b]
    ensures CycleSlots(key, d, ends, next, t, b) == (next, t)
  {
  }

  lemma SlotKept<T>(key: T -> Text, d: nat, ends: seq<nat>, next: seq<nat>, t: seq<T>, b: nat)
    requires b < BUCKETS && Within(next, ends, |t|) && next[b] < ends[b] && BucketAt(key(t[next[b]]), d) == b
    ensures Within(next[b := next[b] + 1], ends, |t|) && Total(next) < Total(next[b := next[b] + 1]) <= Total(ends)
    ensures CycleSlots(key, d, ends, next, t, b) == CycleSlots(key, d, ends, next[b := next[b] + 1], t, b)
  {
    BumpWithin(next, ends, |t|, b);
    hide Total, BucketAt;
  }

  lemma SlotSwapped<T>(key: T -> Text, d: nat, ends: seq<nat>, next: seq<nat>, t: seq<T>, t': seq<T>, b: nat, k: nat)
    requires b < BUCKETS && k < BUCKETS && k != b && Within(next, ends, |t|) && next[b] < ends[b] && next[k] < ends[k]
    requires BucketAt(key(t[next[b]]), d) == k && t' == t[next[b] := t[next[k]]][next[k] := t[next[b]]]
    ensures |t'| == |t| && Within(next[k := next[k] + 1], ends, |t|) && Total(next) < Total(next[k := next[k] + 1]) <= Total(ends)
    ensures CycleSlots(key, d, ends, next, t, b) == CycleSlots(key, d, ends, next[k := next[k] + 1], t', b)
  {
    BumpWithin(next, ends, |t|, k);
    hide Total, BucketAt;
  }

  lemma WithinAt(next: seq<nat>, ends: seq<nat>, n: nat, b: nat)
    requires Within(next, ends, n) && b < BUCKETS
    ensures |next| == |ends| == BUCKETS && next[b] <= ends[b] <= n
  {
  }

  lemma BucketInRange(a: Text, d: nat)
    ensures BucketAt(a, d) < BUCKETS
  {
  }

  /** One turn of the cycling loop: an element that belongs here advances the
      slot, any other is swapped into its own bucket. */
  method CycleOne<T>(items: array<T>, lo: nat, hi: nat, key: T -> Text, d: nat, direct: bool,
                     counts: seq<nat>, starts: seq<nat>, next: seq<nat>, b: nat, ghost s: seq<T>) returns (k: nat)
    requires lo <= hi <= items.Length && |s| == hi - lo && b < BUCKETS == |next| == |starts| == |counts|
    requires Ready(key, d, s, lo, counts, starts) && Cycling(key, d, s, lo, counts, starts, next, items[..])
    requires direct ==> forall x :: x in s ==> d < |key(x)|
    requires next[b] < starts[b] + counts[b] && Within(next, Ends(counts, starts), items.Length)
    modifies items
    ensures k < BUCKETS && Cycling(key, d, s, lo, counts, starts, next[k := next[k] + 1], items[..])
    ensures Within(next[k := next[k] + 1], Ends(counts, starts), items.Length)
    ensures CycleSlots(key, d, Ends(counts, starts), next[k := next[k] + 1], items[..], b) ==
            CycleSlots(key, d, Ends(counts, starts), next, old(items[..]), b)
    ensures forall i :: 0 <= i < items.Length && !(lo <= i < hi) ==> items[i] == old(items[i])
  {
    hide *;
    var i := next[b];
    ghost var t := items[..];
    CyclingBounds(key, d, s, lo, counts, starts, next, t, b);
    EndsAt(counts, starts);
    k := BucketOf(key, items[i], d, direct, s, t, lo, i);
    if k == b {
      KeepStep(key, d, s, lo, counts, starts, next, t, b);
      SlotKept(key, d, Ends(counts, starts), next, t, b);
    } else {
      FreeSlot(key, d, s, lo, counts, starts, next, t, b, k);
      var j := next[k];
      items[i], items[j] := items[j], items[i];
      SwapStep(key, d, s, lo, counts, starts, next, t, items[..], b, k);
      SlotSwapped(key, d, Ends(counts, starts), next, t, items[..], b, k);
    }
  }

  /** The cycling loop for bucket `b`. */
  method CycleBucket<T>(items: array<T>, lo: nat, hi: nat, key: T -> Text, d: nat, direct: bool,
                        counts: seq<nat>, starts: seq<nat>, next0: seq<nat>, b: nat, ghost s: seq<T>) returns (next: seq<nat>)
    requires lo <= hi <= items.Length && |s| == hi - lo && b < BUCKETS
    requires Ready(key, d, s, lo, counts, starts) && Cycling(key, d, s, lo, counts, starts, next0, items[..])
    requires direct ==> forall x :: x in s ==> d < |key(x)|
    modifies items
    ensures Cycling(key, d, s, lo, counts, starts, next, items[..])
    ensures |next| == |next0| == |starts| == |counts| == BUCKETS && next[b] == starts[b] + counts[b]
    ensures forall k :: 0 <= k < BUCKETS ==> next0[k] <= next[k]
    ensures Within(next0, Ends(counts, starts), items.Length)
    ensures (next, items[..]) == CycleSlots(key, d, Ends(counts, starts), next0, old(items[..]), b)
    ensures forall k :: 0 <= k < items.Length && !(lo <= k < hi) ==> items[k] == old(items[k])
  {
    hide *;
    next := next0;
    CyclingBounds(key, d, s, lo, counts, starts, next, items[..], b);
    CyclingWithin(key, d, s, lo, counts, starts, next, items[..]);
    ghost var ends := Ends(counts, starts);
    ghost var result := CycleSlots(key, d, ends, next, items[..], b);
    var end := starts[b] + counts[b];
    while next[b] < end
      invariant |next| == |next0| == |starts| == |counts| == BUCKETS && next[b] <= end
      invariant Within(next, ends, items.Length) && CycleSlots(key, d, ends, next, items[..], b) == result
      invariant Cycling(key, d, s, lo, counts, starts, next, items[..])
      invariant forall k :: 0 <= k < BUCKETS ==> next0[k] <= next[k]
      invariant forall k :: 0 <= k < items.Length && !(lo <= k < hi) ==> items[k] == old(items[k])
      decreases Total(Ends(counts, starts)) - Total(next)
    {
      var k := CycleOne(items, lo, hi, key, d, direct, counts, starts, next, b, s);
      TotalBump(next, k);
      next := next[k := next[k] + 1];
      CyclingTotal(key, d, s, lo, counts, starts, next, items[..]);
      CyclingBounds(key, d, s, lo, counts, starts, next, items[..], b);
    }
    SlotsFull(key, d, ends, next, items[..], b);
  }

  /** The bucket of an element, by direct indexing where that is safe. */
  method BucketOf<T>(key: T -> Text, x: T, d: nat, direct: bool, ghost s: seq<T>, ghost t: seq<T>, ghost lo: nat, ghost i: nat) returns (k: nat)
    requires lo <= i < lo + |s| <= |t| && t[i] == x && multiset(t[lo..lo + |s|]) == multiset(s)
    requires direct ==> forall y :: y in s ==> d < |key(y)|
    ensures k == BucketAt(key(x), d) < BUCKETS
  {
    assert x in s by {
      assert t[lo..lo + |s|][i - lo] == x;
      assert x in multiset(t[lo..lo + |s|]);
    }
    k := if direct then key(x)[d] as int + 1 else BucketAt(key(x), d);
  }

  /** After the last bucket every slot is filled. */
  ghost predicate Partitioned<T>(key: T -> Text, d: nat, s: seq<T>, lo: nat, counts: seq<nat>, starts: seq<nat>, t: seq<T>) {
    && |counts| == |starts| == BUCKETS && lo + |s| <= |t|
    && multiset(t[lo..lo + |s|]) == multiset(s)
    && forall b :: 0 <= b < BUCKETS ==> Filled(key, d, t, starts[b], starts[b] + counts[b], b)
  }

  lemma CyclingDone<T>(key: T -> Text, d: nat, s: seq<T>, lo: nat, counts: seq<nat>, starts: seq<nat>, next: seq<nat>, t: seq<T>)
    requires Cycling(key, d, s, lo, counts, starts, next, t)
    requires forall b :: 0 <= b < BUCKETS ==> next[b] == starts[b] + counts[b]
    ensures Partitioned(key, d, s, lo, counts, starts, t)
  {
    hide Filled;
  }

  /** No slot count passes the end of its bucket. */
  lemma CyclingFull<T>(key: T -> Text, d: nat, s: seq<T>, lo: nat, counts: seq<nat>, starts: seq<nat>, next: seq<nat>, t: seq<T>, n: nat, old_next: seq<nat>)
    requires Cycling(key, d, s, lo, counts, starts, next, t) && n < BUCKETS == |old_next|
    requires forall b :: 0 <= b < n ==> old_next[b] == starts[b] + counts[b]
    requires next[n] == starts[n] + counts[n]
    requires forall b :: 0 <= b < BUCKETS ==> old_next[b] <= next[b]
    ensures forall b :: 0 <= b < n + 1 ==> next[b] == starts[b] + counts[b]
  {
    hide Filled;
    forall b | 0 <= b < n ensures next[b] == starts[b] + counts[b] {
      assert old_next[b] <= next[b] <= starts[b] + counts[b];
    }
  }

  /** The buckets below `b` are filled, and going on ends with `result`. */
  ghost predicate CycledBelow<T>(key: T -> Text, d: nat, s: seq<T>, lo: nat, counts: seq<nat>, starts: seq<nat>, next: seq<nat>, t: seq<T>, b: nat, result: seq<T>) {
    && Cycling(key, d, s, lo, counts, starts, next, t)
    && (forall k :: 0 <= k < b && k < BUCKETS ==> next[k] == starts[k] + counts[k])
    && CyclesTo(key, d, Ends(counts, starts), next, t, b, result)
  }

  lemma CycledStart<T>(key: T -> Text, d: nat, s: seq<T>, lo: nat, counts: seq<nat>, starts: seq<nat>, t: seq<T>)
    requires Ready(key, d, s, lo, counts, starts) && lo + |s| <= |t| && t[lo..lo + |s|] == s
    ensures |counts| == |starts| == BUCKETS && Within(starts, Ends(counts, starts), |t|)
    ensures CycledBelow(key, d, s, lo, counts, starts, starts, t, 0, CycleFrom(key, d, Ends(counts, starts), starts, t, 0))
  {
    CyclingStart(key, d, s, lo, counts, starts, t);
    CyclingWithin(key, d, s, lo, counts, starts, starts, t);
    hide Ready, Cycling, Within, CycleFrom;
  }

  lemma CycledNext<T>(key: T -> Text, d: nat, s: seq<T>, lo: nat, counts: seq<nat>, starts: seq<nat>, next: seq<nat>, t: seq<T>, b: nat, next': seq<nat>, t': seq<T>, result: seq<T>)
    requires b < BUCKETS && CycledBelow(key, d, s, lo, counts, starts, next, t, b, result)
    requires Cycling(key, d, s, lo, counts, starts, next', t') && next'[b] == starts[b] + counts[b]
    requires forall k :: 0 <= k < BUCKETS ==> next[k] <= next'[k]
    requires Within(next, Ends(counts, starts), |t|) && (next', t') == CycleSlots(key, d, Ends(counts, starts), next, t, b)
    ensures CycledBelow(key, d, s, lo, counts, starts, next', t', b + 1, result)
  {
    hide Filled, CycleSlots, CyclesTo, Within, Ends;
    CyclingFull(key, d, s, lo, counts, starts, next', t', b, next);
    CycleNext(key, d, Ends(counts, starts), next, t, b, next', t', result);
  }

  lemma CycledMeans<T>(key: T -> Text, d: nat, s: seq<T>, lo: nat, counts: seq<nat>, starts: seq<nat>, next: seq<nat>, t: seq<T>, b: nat, result: seq<T>)
    requires CycledBelow(key, d, s, lo, counts, starts, next, t, b, result)
    ensures Cycling(key, d, s, lo, counts, starts, next, t)
    ensures b >= BUCKETS ==> Partitioned(key, d, s, lo, counts, starts, t) && t == result
  {
    if b >= BUCKETS {
      CyclingDone(key, d, s, lo, counts, starts, next, t);
      hide Cycling, Partitioned;
      CycleEnd(key, d, Ends(counts, starts), next, t, result);
    }
  }

  method Cycle<T>(items: array<T>, lo: nat, hi: nat, key: T -> Text, d: nat, direct: bool, counts: seq<nat>, starts: seq<nat>, ghost s: seq<T>)
    requires lo <= hi <= items.Length && s == items[lo..hi] && Ready(key, d, s, lo, counts, starts)
    requires direct ==> forall x :: x in s ==> d < |key(x)|
    modifies items
    ensures Partitioned(key, d, s, lo, counts, starts, items[..])
    ensures |counts| == |starts| == BUCKETS && Within(starts, Ends(counts, starts), items.Length)
    ensures items[..] == CycleFrom(key, d, Ends(counts, starts), starts, old(items[..]), 0)
    ensures forall k :: 0 <= k < items.Length && !(lo <= k < hi) ==> items[k] == old(items[k])
  {
    assert BUCKETS == 257;
    hide *;
    var next := starts;
    assert items[..][lo..hi] == s;
    CycledStart(key, d, s, lo, counts, starts, items[..]);
    ghost var result := CycleFrom(key, d, Ends(counts, starts), starts, items[..], 0);
    var b := 0;
    while b < BUCKETS
      invariant 0 <= b <= BUCKETS
      invariant CycledBelow(key, d, s, lo, counts, starts, next, items[..], b, result)
      invariant forall k :: 0 <= k < items.Length && !(lo <= k < hi) ==> items[k] == old(items[k])
    {
      ghost var before, t := next, items[..];
      CycledMeans(key, d, s, lo, counts, starts, next, t, b, result);
      next := CycleBucket(items, lo, hi, key, d, direct, counts, starts, next, b, s);
      CycledNext(key, d, s, lo, counts, starts, before, t, b, next, items[..], result);
      b := b + 1;
    }
    CycledMeans(key, d, s, lo, counts, starts, next, items[..], b, result);
  }

  lemma {:induction false} CycleSlotsFill<T>(key: T -> Text, d: nat, s: seq<T>, lo: nat, counts: seq<nat>, starts: seq<nat>, next: seq<nat>, t: seq<T>, b: nat)
    requires Ready(key, d, s, lo, counts, starts) && Cycling(key, d, s, lo, counts, starts, next, t) && b < BUCKETS
    requires |counts| == |starts| == BUCKETS && Within(next, Ends(counts, starts), |t|)
    ensures var r := CycleSlots(key, d, Ends(counts, starts), next, t, b);
      && Cycling(key, d, s, lo, counts, starts, r.0, r.1) && r.0[b] == starts[b] + counts[b]
      && forall k :: 0 <= k < BUCKETS ==> next[k] <= r.0[k]
    decreases Total(Ends(counts, starts)) - Total(next)
  {
    hide *;
    CyclingWithin(key, d, s, lo, counts, starts, next, t);
    var ends := Ends(counts, starts);
    WithinAt(next, ends, |t|, b);
    if next[b] >= ends[b] {
      SlotsFull(key, d, ends, next, t, b);
      return;
    }
    var k := BucketAt(key(t[next[b]]), d);
    BucketInRange(key(t[next[b]]), d);
    if k == b {
      SlotKept(key, d, ends, next, t, b);
      KeepStep(key, d, s, lo, counts, starts, next, t, b);
      CycleSlotsFill(key, d, s, lo, counts, starts, next[b := next[b] + 1], t, b);
    } else {
      FreeSlot(key, d, s, lo, counts, starts, next, t, b, k);
      WithinAt(next, ends, |t|, k);
      var t' := t[next[b] := t[next[k]]][next[k] := t[next[b]]];
      SlotSwapped(key, d, ends, next, t, t', b, k);
      SwapStep(key, d, s, lo, counts, starts, next, t, t', b, k);
      CycleSlotsFill(key, d, s, lo, counts, starts, next[k := next[k] + 1], t', b);
    }
  }

  lemma {:induction false} CycleFromFills<T>(key: T -> Text, d: nat, s: seq<T>, lo: nat, counts: seq<nat>, starts: seq<nat>, next: seq<nat>, t: seq<T>, b: nat)
    requires Ready(key, d, s, lo, counts, starts) && Cycling(key, d, s, lo, counts, starts, next, t) && b <= BUCKETS
    requires |counts| == |starts| == BUCKETS && Within(next, Ends(counts, starts), |t|)
    requires forall k :: 0 <= k < b ==> next[k] == starts[k] + counts[k]
    ensures Partitioned(key, d, s, lo, counts, starts, CycleFrom(key, d, Ends(counts, starts), next, t, b))
    decreases BUCKETS - b
  {
    hide Ready, Cycling, CycleSlots, Partitioned;
    if b == BUCKETS {
      CyclingDone(key, d, s, lo, counts, starts, next, t);
    } else {
      var r := CycleSlots(key, d, Ends(counts, starts), next, t, b);
      CycleSlotsFill(key, d, s, lo, counts, starts, next, t, b);
      CyclingFull(key, d, s, lo, counts, starts, r.0, r.1, b, next);
      CycleFromFills(key, d, s, lo, counts, starts, r.0, r.1, b + 1);
    }
  }

  // ---------- Descending to the first byte that splits the range ----------

  lemma InsertionSorts<T(!new)>(key: T -> Text, s: seq<T>, depth: nat, d: nat)
    requires Shares(key, s, depth) && depth <= DEPTH_LIMIT
    requires |s| <= INSERTION_THRESHOLD || d >= DEPTH_LIMIT
    requires Shares(key, s, d) || Sentinel(LineEngine(key), s, depth)
    requires Sentinel(LineEngine(key), s, depth) ==> d == DEPTH_LIMIT
    ensures SortedPermutation(key, s, Inserted(KeyOrderFrom(key, false, d), s))
  {
    hide Inserted, Sentinel, Shares;
    InsertionArranged(LineEngine(key), s, depth, d);
    InsertedPermutes(KeyOrderFrom(key, false, d), s);
    hide Sorted, KeyOrder;
  }

  method MinLength<T>(items: array<T>, lo: nat, hi: nat, key: T -> Text) returns (n: nat)
    requires lo < hi <= items.Length
    ensures forall k :: lo <= k < hi ==> n <= |key(items[k])|
  {
    n := |key(items[lo])|;
    for i := lo to hi
      invariant forall k :: lo <= k < i ==> n <= |key(items[k])|
    {
      if |key(items[i])| < n {
        n := |key(items[i])|;
      }
    }
  }

  /** How many buckets are occupied, and the last of them. */
  method Occupied(counts: seq<nat>) returns (nonempty: nat, only: nat)
    requires |counts| == BUCKETS
    ensures only < BUCKETS
    ensures nonempty == 1 ==> forall b :: 0 <= b < BUCKETS && b != only ==> counts[b] == 0
  {
    nonempty, only := 0, 0;
    for b := 0 to BUCKETS
      invariant 0 <= only < BUCKETS
      invariant nonempty == 0 ==> forall i :: 0 <= i < b ==> counts[i] == 0
      invariant nonempty == 1 ==> forall i :: 0 <= i < b && i != only ==> counts[i] == 0
    {
      if counts[b] != 0 {
        nonempty := nonempty + 1;
        only := b;
      }
    }
  }

  lemma OneBucket<T>(key: T -> Text, d: nat, s: seq<T>, counts: seq<nat>, only: nat)
    requires Counts(key, d, s, counts) && only < BUCKETS
    requires forall b :: 0 <= b < BUCKETS && b != only ==> counts[b] == 0
    ensures forall x :: x in s ==> BucketAt(key(x), d) == only
  {
    forall x | x in s ensures BucketAt(key(x), d) == only {
      var b := BucketAt(key(x), d);
      FilterMember(InBucket(key, d, b), s, x);
      assert counts[b] == |Bucket(key, d, b, s)| > 0;
    }
  }

  /** A single occupied bucket either shows one more shared byte or, when it is
      the bucket of exhausted keys, that all keys are equal. */
  lemma OneBucketShares<T>(key: T -> Text, d: nat, s: seq<T>, only: nat)
    requires Shares(key, s, d) && forall x :: x in s ==> BucketAt(key(x), d) == only
    ensures only != 0 ==> Shares(key, s, d + 1)
    ensures only == 0 ==> Sorted(KeyOrder(key, false), s)
  {
    forall x, y | x in s && y in s
      ensures only != 0 ==> SharePrefix(key(x), key(y), d + 1)
      ensures only == 0 ==> KeyOrder(key, false)(x, y) == 0
    {
      BucketOrders(key(x), key(y), d);
      CompareTotal(key(x), key(y));
    }
  }

  /** The loop that deepens until the range splits, is small or deep enough for
      insertion, or turns out to hold equal keys only. */
  method FindSplit<T(!new)>(items: array<T>, lo: nat, hi: nat, key: T -> Text, depth: nat)
    returns (sorted: bool, d: nat, counts: seq<nat>, direct: bool)
    requires lo < hi <= items.Length && depth <= DEPTH_LIMIT && Shares(key, items[lo..hi], depth)
    modifies items
    ensures sorted ==> SortedPermutation(key, old(items[lo..hi]), items[lo..hi])
    ensures !sorted ==> items[..] == old(items[..]) && depth <= d < DEPTH_LIMIT
    ensures !sorted ==> Shares(key, old(items[lo..hi]), d) && Counts(key, d, old(items[lo..hi]), counts)
    ensures !sorted && direct ==> forall x :: x in old(items[lo..hi]) ==> d < |key(x)|
    ensures forall k :: 0 <= k < items.Length && !(lo <= k < hi) ==> items[k] == old(items[k])
  {
    ghost var s := items[lo..hi];
    hide SkipDepth;
    d := SkipPrefix(LineEngine(key), items, lo, hi, depth);
    SkipDepthIs(LineEngine(key), s, depth);
    var minLen, minKnown := 0, false;
    counts, direct := [], false;
    while true
      invariant depth <= d <= DEPTH_LIMIT && items[..] == old(items[..])
      invariant if Sentinel(LineEngine(key), s, depth) then d == DEPTH_LIMIT else Shares(key, s, d)
      invariant minKnown ==> forall k :: lo <= k < hi ==> minLen <= |key(items[k])|
      decreases DEPTH_LIMIT - d
    {
      if hi - lo <= INSERTION_THRESHOLD || d >= DEPTH_LIMIT {
        InsertionRange(items, lo, hi, KeyOrderFrom(key, false, d));
        InsertionSorts(key, s, depth, d);
        return true, d, counts, direct;
      }
      if !minKnown {
        minLen := MinLength(items, lo, hi, key);
        minKnown := true;
        counts := CountBuckets(items, lo, hi, key, d, false);
      } else {
        counts := CountBuckets(items, lo, hi, key, d, d < minLen);
      }
      var nonempty, only := Occupied(counts);
      if nonempty != 1 {
        return false, d, counts, d < minLen;
      }
      OneBucket(key, d, s, counts, only);
      OneBucketShares(key, d, s, only);
      if only == 0 {
        return true, d, counts, direct;
      }
      d := d + 1;
    }
  }

  // ---------- The recursion ----------

  /** Bucket `b` holds its elements, in order once the loop has passed it. */
  ghost predicate Settled<T>(key: T -> Text, d: nat, s: seq<T>, lo: nat, counts: seq<nat>, starts: seq<nat>, t: seq<T>, n: nat) {
    && Partitioned(key, d, s, lo, counts, starts, t)
    && forall b :: 0 <= b < BUCKETS && b < n ==> SortedSlice(key, t, starts[b], starts[b] + counts[b])
  }

  ghost predicate SortedSlice<T>(key: T -> Text, t: seq<T>, from: nat, to: nat) {
    from <= to <= |t| && Sorted(KeyOrder(key, false), t[from..to])
  }

  lemma InRange<T>(s: seq<T>, t: seq<T>, lo: nat, i: nat)
    requires lo <= i < lo + |s| <= |t| && multiset(t[lo..lo + |s|]) == multiset(s)
    ensures t[i] in s
  {
    assert t[lo..lo + |s|][i - lo] == t[i];
    assert t[i] in multiset(t[lo..lo + |s|]);
  }

  lemma PartitionedAt<T>(key: T -> Text, d: nat, s: seq<T>, lo: nat, counts: seq<nat>, starts: seq<nat>, t: seq<T>, b: nat)
    requires Ready(key, d, s, lo, counts, starts) && Partitioned(key, d, s, lo, counts, starts, t) && b < BUCKETS
    ensures |counts| == |starts| == BUCKETS && lo <= starts[b] <= starts[b] + counts[b] <= lo + |s| <= |t|
    ensures multiset(t[lo..lo + |s|]) == multiset(s) && Filled(key, d, t, starts[b], starts[b] + counts[b], b)
  {
    hide Ready, Filled;
    ReadyBounds(key, d, s, lo, counts, starts, b);
  }

  lemma SliceMembers<T>(key: T -> Text, d: nat, s: seq<T>, lo: nat, t: seq<T>, from: nat, to: nat, b: nat)
    requires lo <= from <= to <= lo + |s| <= |t| && multiset(t[lo..lo + |s|]) == multiset(s) && Filled(key, d, t, from, to, b)
    ensures forall x :: x in t[from..to] ==> x in s && BucketAt(key(x), d) == b
  {
    var u := t[from..to];
    forall x | x in u ensures x in s && BucketAt(key(x), d) == b {
      var i :| 0 <= i < |u| && u[i] == x;
      assert u[i] == t[from + i];
      InRange(s, t, lo, from + i);
    }
  }

  /** Elements placed in a bucket share one more byte, or are all equal. */
  lemma BucketContents<T>(key: T -> Text, d: nat, s: seq<T>, lo: nat, counts: seq<nat>, starts: seq<nat>, t: seq<T>, b: nat)
    requires Ready(key, d, s, lo, counts, starts) && Partitioned(key, d, s, lo, counts, starts, t) && Shares(key, s, d) && b < BUCKETS
    ensures |counts| == |starts| == BUCKETS && lo <= starts[b] <= starts[b] + counts[b] <= lo + |s| <= |t|
    ensures forall x :: x in t[starts[b]..starts[b] + counts[b]] ==> x in s && BucketAt(key(x), d) == b
    ensures b > 0 ==> Shares(key, t[starts[b]..starts[b] + counts[b]], d + 1)
    ensures b == 0 ==> SortedSlice(key, t, starts[b], starts[b] + counts[b])
  {
    hide *;
    PartitionedAt(key, d, s, lo, counts, starts, t, b);
    SliceMembers(key, d, s, lo, t, starts[b], starts[b] + counts[b], b);
    BucketShared(key, d, s, b, t[starts[b]..starts[b] + counts[b]]);
    if b == 0 {
      SortedSliceIs(key, t, starts[b], starts[b] + counts[b]);
    }
  }

  lemma SortedSliceIs<T>(key: T -> Text, t: seq<T>, from: nat, to: nat)
    requires from <= to <= |t|
    ensures SortedSlice(key, t, from, to) <==> Sorted(KeyOrder(key, false), t[from..to])
  {
  }

  lemma BucketShared<T>(key: T -> Text, d: nat, s: seq<T>, b: nat, u: seq<T>)
    requires Shares(key, s, d) && forall x :: x in u ==> x in s && BucketAt(key(x), d) == b
    ensures b > 0 ==> Shares(key, u, d + 1)
    ensures b == 0 ==> Sorted(KeyOrder(key, false), u)
  {
    assert Shares(key, u, d);
    OneBucketShares(key, d, u, b);
  }

  lemma SettledStart<T>(key: T -> Text, d: nat, s: seq<T>, lo: nat, counts: seq<nat>, starts: seq<nat>, t: seq<T>)
    requires Ready(key, d, s, lo, counts, starts) && Partitioned(key, d, s, lo, counts, starts, t) && Shares(key, s, d)
    ensures Settled(key, d, s, lo, counts, starts, t, 1)
  {
    hide SortedSlice, Filled;
    BucketContents(key, d, s, lo, counts, starts, t, 0);
  }

  lemma SortedShort<T>(c: (T, T) -> int, s: seq<T>)
    requires |s| <= 1
    ensures Sorted(c, s)
  {
  }

  lemma SlicePermuted<T>(t: seq<T>, t': seq<T>, lo: nat, from: nat, to: nat, hi: nat)
    requires lo <= from <= to <= hi <= |t| == |t'|
    requires forall k :: 0 <= k < |t| && !(from <= k < to) ==> t'[k] == t[k]
    requires multiset(t'[from..to]) == multiset(t[from..to])
    ensures multiset(t'[lo..hi]) == multiset(t[lo..hi])
  {
    assert t[lo..hi] == t[lo..from] + t[from..to] + t[to..hi];
    assert t'[lo..hi] == t'[lo..from] + t'[from..to] + t'[to..hi];
    assert t'[lo..from] == t[lo..from] && t'[to..hi] == t[to..hi];
  }

  lemma FilledPermuted<T>(key: T -> Text, d: nat, t: seq<T>, t': seq<T>, from: nat, to: nat, b: nat)
    requires Filled(key, d, t, from, to, b) && |t'| == |t| && from <= to && multiset(t'[from..to]) == multiset(t[from..to])
    ensures Filled(key, d, t', from, to, b)
  {
    forall j | from <= j < to ensures BucketAt(key(t'[j]), d) == b {
      var u := t[from..to];
      assert t'[from..to][j - from] == t'[j];
      assert t'[j] in multiset(t'[from..to]);
      assert t'[j] in u;
      var i :| 0 <= i < |u| && u[i] == t'[j];
      assert u[i] == t[from + i];
    }
  }

  lemma SettledAt<T>(key: T -> Text, d: nat, s: seq<T>, lo: nat, counts: seq<nat>, starts: seq<nat>, t: seq<T>, n: nat, b: nat)
    requires Settled(key, d, s, lo, counts, starts, t, n) && b < BUCKETS
    ensures |counts| == |starts| == BUCKETS && Filled(key, d, t, starts[b], starts[b] + counts[b], b)
    ensures b < n ==> SortedSlice(key, t, starts[b], starts[b] + counts[b])
    ensures Partitioned(key, d, s, lo, counts, starts, t)
    ensures starts[b] + counts[b] <= |t| && lo + |s| <= |t| && multiset(t[lo..lo + |s|]) == multiset(s)
  {
    hide SortedSlice;
  }

  lemma SettledFrom<T>(key: T -> Text, d: nat, s: seq<T>, lo: nat, counts: seq<nat>, starts: seq<nat>, t: seq<T>, n: nat)
    requires |counts| == |starts| == BUCKETS && lo + |s| <= |t| && multiset(t[lo..lo + |s|]) == multiset(s)
    requires forall b :: 0 <= b < BUCKETS ==> Filled(key, d, t, starts[b], starts[b] + counts[b], b)
    requires forall b :: 0 <= b < BUCKETS && b < n ==> SortedSlice(key, t, starts[b], starts[b] + counts[b])
    ensures Settled(key, d, s, lo, counts, starts, t, n)
  {
    hide Filled, SortedSlice;
  }

  lemma SliceKept<T>(key: T -> Text, d: nat, t: seq<T>, t': seq<T>, from: nat, to: nat, b: nat)
    requires Filled(key, d, t, from, to, b) && |t'| == |t| && from <= to && forall k :: from <= k < to ==> t'[k] == t[k]
    ensures Filled(key, d, t', from, to, b)
    ensures SortedSlice(key, t, from, to) ==> SortedSlice(key, t', from, to)
  {
    hide KeyOrder, Sorted;
    assert t'[from..to] == t[from..to];
  }

  lemma SettledSkip<T>(key: T -> Text, d: nat, s: seq<T>, lo: nat, counts: seq<nat>, starts: seq<nat>, t: seq<T>, b: nat)
    requires Ready(key, d, s, lo, counts, starts) && Settled(key, d, s, lo, counts, starts, t, b) && b < BUCKETS
    requires |counts| == BUCKETS && counts[b] <= 1
    ensures Settled(key, d, s, lo, counts, starts, t, b + 1)
  {
    hide *;
    ReadyBounds(key, d, s, lo, counts, starts, b);
    SettledAt(key, d, s, lo, counts, starts, t, b, b);
    SortedSliceIs(key, t, starts[b], starts[b] + counts[b]);
    SortedShort(KeyOrder(key, false), t[starts[b]..starts[b] + counts[b]]);
    SettledMore(key, d, s, lo, counts, starts, t, b);
  }

  lemma SettledMore<T>(key: T -> Text, d: nat, s: seq<T>, lo: nat, counts: seq<nat>, starts: seq<nat>, t: seq<T>, b: nat)
    requires Settled(key, d, s, lo, counts, starts, t, b) && |counts| == |starts| == BUCKETS
    requires b < BUCKETS && SortedSlice(key, t, starts[b], starts[b] + counts[b])
    ensures Settled(key, d, s, lo, counts, starts, t, b + 1)
  {
    hide SortedSlice, Partitioned;
  }

  lemma SettledOwn<T>(key: T -> Text, d: nat, s: seq<T>, lo: nat, counts: seq<nat>, starts: seq<nat>, t: seq<T>, t': seq<T>, b: nat)
    requires Ready(key, d, s, lo, counts, starts) && Settled(key, d, s, lo, counts, starts, t, b) && b < BUCKETS
    requires |starts| == |counts| == BUCKETS && |t'| == |t| && starts[b] + counts[b] <= |t|
    requires forall k :: 0 <= k < |t| && !(starts[b] <= k < starts[b] + counts[b]) ==> t'[k] == t[k]
    requires SortedPermutation(key, t[starts[b]..starts[b] + counts[b]], t'[starts[b]..starts[b] + counts[b]])
    ensures lo + |s| <= |t'| && multiset(t'[lo..lo + |s|]) == multiset(s)
    ensures Filled(key, d, t', starts[b], starts[b] + counts[b], b) && SortedSlice(key, t', starts[b], starts[b] + counts[b])
  {
    hide *;
    var from, to := starts[b], starts[b] + counts[b];
    SortedPermutationIs(key, t[from..to], t'[from..to]);
    ReadyBounds(key, d, s, lo, counts, starts, b);
    SettledAt(key, d, s, lo, counts, starts, t, b, b);
    SlicePermuted(t, t', lo, from, to, lo + |s|);
    FilledPermuted(key, d, t, t', from, to, b);
    SortedSliceIs(key, t', from, to);
  }

  /** Sorting one bucket in place settles it and disturbs no other. */
  lemma SettledStep<T>(key: T -> Text, d: nat, s: seq<T>, lo: nat, counts: seq<nat>, starts: seq<nat>, t: seq<T>, t': seq<T>, b: nat)
    requires Ready(key, d, s, lo, counts, starts) && Settled(key, d, s, lo, counts, starts, t, b) && b < BUCKETS
    requires |starts| == |counts| == BUCKETS && |t'| == |t| && starts[b] + counts[b] <= |t|
    requires forall k :: 0 <= k < |t| && !(starts[b] <= k < starts[b] + counts[b]) ==> t'[k] == t[k]
    requires SortedPermutation(key, t[starts[b]..starts[b] + counts[b]], t'[starts[b]..starts[b] + counts[b]])
    ensures Settled(key, d, s, lo, counts, starts, t', b + 1)
  {
    hide *;
    SettledOwn(key, d, s, lo, counts, starts, t, t', b);
    forall i | 0 <= i < BUCKETS
      ensures Filled(key, d, t', starts[i], starts[i] + counts[i], i)
      ensures i < b + 1 ==> SortedSlice(key, t', starts[i], starts[i] + counts[i])
    {
      if i != b {
        SettledOther(key, d, s, lo, counts, starts, t, t', b, i);
      }
    }
    SettledFrom(key, d, s, lo, counts, starts, t', b + 1);
  }

  lemma SettledOther<T>(key: T -> Text, d: nat, s: seq<T>, lo: nat, counts: seq<nat>, starts: seq<nat>, t: seq<T>, t': seq<T>, b: nat, i: nat)
    requires Ready(key, d, s, lo, counts, starts) && Settled(key, d, s, lo, counts, starts, t, b)
    requires b < BUCKETS == |starts| == |counts| && i < BUCKETS && i != b && |t'| == |t|
    requires forall k :: 0 <= k < |t| && !(starts[b] <= k < starts[b] + counts[b]) ==> t'[k] == t[k]
    ensures Filled(key, d, t', starts[i], starts[i] + counts[i], i)
    ensures i < b ==> SortedSlice(key, t', starts[i], starts[i] + counts[i])
  {
    hide *;
    SettledAt(key, d, s, lo, counts, starts, t, b, i);
    Disjoint(key, d, s, lo, counts, starts, i, b);
    SliceKept(key, d, t, t', starts[i], starts[i] + counts[i], i);
  }

  lemma SettledPiece<T>(key: T -> Text, d: nat, s: seq<T>, lo: nat, counts: seq<nat>, starts: seq<nat>, t: seq<T>, b: nat)
    requires Ready(key, d, s, lo, counts, starts) && Settled(key, d, s, lo, counts, starts, t, BUCKETS) && Shares(key, s, d)
    requires b < BUCKETS
    ensures |counts| == |starts| == BUCKETS && starts[b] + counts[b] <= |t|
    ensures SortedPiece(LineEngine(key), d, s, b, t[starts[b]..starts[b] + counts[b]])
  {
    hide Ready, Settled, Sorted, KeyOrder, Shares, Partitioned, Filled;
    SettledAt(key, d, s, lo, counts, starts, t, BUCKETS, b);
    BucketContents(key, d, s, lo, counts, starts, t, b);
  }

  /** When every bucket is settled the whole range is sorted. */
  lemma SettledDone<T(!new)>(key: T -> Text, d: nat, s: seq<T>, lo: nat, counts: seq<nat>, starts: seq<nat>, t: seq<T>)
    requires Ready(key, d, s, lo, counts, starts) && Settled(key, d, s, lo, counts, starts, t, BUCKETS) && Shares(key, s, d)
    ensures lo + |s| <= |t| && SortedPermutation(key, s, t[lo..lo + |s|])
  {
    hide *;
    var e := LineEngine(key);
    LineEngineIs(key, d, s, lo, counts, starts);
    SettledAt(key, d, s, lo, counts, starts, t, BUCKETS, 0);
    OffsetTotal(key, d, s, counts, false);
    forall b | 0 <= b < BUCKETS ensures starts[b] + counts[b] <= |t| && SortedPiece(e, d, s, b, t[starts[b]..starts[b] + counts[b]]) {
      SettledPiece(key, d, s, lo, counts, starts, t, b);
    }
    SortedPiecesFrom(e, d, s, counts, starts, t);
    FrontSorted(e, s, d, lo, counts, starts, t, BUCKETS);
    FrontWhole(e, lo, counts, t);
    SortedPermutationIs(key, s, t[lo..lo + |s|]);
  }

  lemma LineEngineIs<T>(key: T -> Text, d: nat, s: seq<T>, lo: nat, counts: seq<nat>, starts: seq<nat>)
    requires Ready(key, d, s, lo, counts, starts)
    ensures var e := LineEngine(key); e.key == key && !e.reverse && EngineOrder(e) == KeyOrder(key, false)
    ensures Layout(counts, lo, false, starts) && Counts(key, d, s, counts) && |counts| == |starts| == BUCKETS == 257
  {
  }

  lemma SortedPiecesFrom<T>(e: Engine<T>, d: nat, s: seq<T>, counts: seq<nat>, starts: seq<nat>, t: seq<T>)
    requires |counts| == BUCKETS && |starts| == BUCKETS
    requires forall b :: 0 <= b < BUCKETS ==> starts[b] + counts[b] <= |t| && SortedPiece(e, d, s, b, t[starts[b]..starts[b] + counts[b]])
    ensures SortedPieces(e, d, s, counts, starts, t)
  {
    hide SortedPiece;
  }

  lemma SortedPermutationIs<T>(key: T -> Text, s: seq<T>, t: seq<T>)
    ensures SortedPermutation(key, s, t) <==> Sorted(KeyOrder(key, false), t) && multiset(t) == multiset(s) && |t| == |s|
  {
  }

  /** The recursive in-place sort of a range whose keys share `depth` bytes. */
  method RadixRange<T(!new)>(items: array<T>, lo: nat, hi: nat, key: T -> Text, depth: nat)
    requires lo < hi <= items.Length && depth <= DEPTH_LIMIT && Shares(key, items[lo..hi], depth)
    modifies items
    ensures SortedPermutation(key, old(items[lo..hi]), items[lo..hi])
    ensures forall k :: 0 <= k < items.Length && !(lo <= k < hi) ==> items[k] == old(items[k])
    decreases DEPTH_LIMIT - depth, 2
  {
    hide *;
    ghost var s := items[lo..hi];
    var sorted, d, counts, starts := SplitRange(items, lo, hi, key, depth);
    if sorted {
      return;
    }
    SortBuckets(items, lo, hi, key, d, counts, starts, s);
    SettledDone(key, d, s, lo, counts, starts, items[..]);
    assert items[..][lo..hi] == items[lo..hi];
  }

  /** Everything the source does before it recurses: deepen, and unless that
      settles the range, count, lay out and cycle the elements into buckets. */
  method SplitRange<T(!new)>(items: array<T>, lo: nat, hi: nat, key: T -> Text, depth: nat)
    returns (sorted: bool, d: nat, counts: seq<nat>, starts: seq<nat>)
    requires lo < hi <= items.Length && depth <= DEPTH_LIMIT && Shares(key, items[lo..hi], depth)
    modifies items
    ensures sorted ==> SortedPermutation(key, old(items[lo..hi]), items[lo..hi])
    ensures !sorted ==> depth <= d < DEPTH_LIMIT && Shares(key, old(items[lo..hi]), d)
    ensures !sorted ==> Ready(key, d, old(items[lo..hi]), lo, counts, starts)
    ensures !sorted ==> Partitioned(key, d, old(items[lo..hi]), lo, counts, starts, items[..])
    ensures forall k :: 0 <= k < items.Length && !(lo <= k < hi) ==> items[k] == old(items[k])
  {
    hide *;
    ghost var s := items[lo..hi];
    var direct;
    sorted, d, counts, direct := FindSplit(items, lo, hi, key, depth);
    starts := [];
    if !sorted {
      CountsSize(key, d, s, counts);
      starts := BucketStarts(counts, lo, false);
      assert items[lo..hi] == items[..][lo..hi] == s;
      ReadyWhen(key, d, s, lo, counts, starts);
      Cycle(items, lo, hi, key, d, direct, counts, starts, s);
    }
  }

  lemma CountsSize<T>(key: T -> Text, d: nat, s: seq<T>, counts: seq<nat>)
    requires Counts(key, d, s, counts)
    ensures |counts| == BUCKETS
  {
  }

  lemma ReadyWhen<T>(key: T -> Text, d: nat, s: seq<T>, lo: nat, counts: seq<nat>, starts: seq<nat>)
    requires Counts(key, d, s, counts) && Layout(counts, lo, false, starts)
    ensures Ready(key, d, s, lo, counts, starts)
  {
  }

  /** The loop over the buckets. */
  method SortBuckets<T(!new)>(items: array<T>, lo: nat, hi: nat, key: T -> Text, d: nat, counts: seq<nat>, starts: seq<nat>, ghost s: seq<T>)
    requires lo < hi <= items.Length && |s| == hi - lo && d < DEPTH_LIMIT && Shares(key, s, d)
    requires Ready(key, d, s, lo, counts, starts) && Partitioned(key, d, s, lo, counts, starts, items[..])
    modifies items
    ensures Settled(key, d, s, lo, counts, starts, items[..], BUCKETS)
    ensures forall k :: 0 <= k < items.Length && !(lo <= k < hi) ==> items[k] == old(items[k])
    decreases DEPTH_LIMIT - d, 1
  {
    assert BUCKETS == 257;
    hide *;
    SettledStart(key, d, s, lo, counts, starts, items[..]);
    var b := 1;
    while b < BUCKETS
      invariant 1 <= b <= BUCKETS
      invariant Settled(key, d, s, lo, counts, starts, items[..], b)
      invariant forall k :: 0 <= k < items.Length && !(lo <= k < hi) ==> items[k] == old(items[k])
    {
      SortBucket(items, lo, hi, key, d, counts, starts, b, s);
      b := b + 1;
    }
  }

  method SortBucket<T(!new)>(items: array<T>, lo: nat, hi: nat, key: T -> Text, d: nat, counts: seq<nat>, starts: seq<nat>, b: nat, ghost s: seq<T>)
    requires lo < hi <= items.Length && |s| == hi - lo && d < DEPTH_LIMIT && Shares(key, s, d) && 1 <= b < BUCKETS
    requires Ready(key, d, s, lo, counts, starts) && Settled(key, d, s, lo, counts, starts, items[..], b)
    modifies items
    ensures Settled(key, d, s, lo, counts, starts, items[..], b + 1)
    ensures forall k :: 0 <= k < items.Length && !(lo <= k < hi) ==> items[k] == old(items[k])
    decreases DEPTH_LIMIT - d, 0
  {
    hide *;
    ghost var t := items[..];
    SettledAt(key, d, s, lo, counts, starts, t, b, b);
    BucketContents(key, d, s, lo, counts, starts, t, b);
    var start := starts[b];
    var end := start + counts[b];
    if end - start > 1 {
      assert items[start..end] == t[start..end];
      RadixRange(items, start, end, key, d + 1);
      assert items[start..end] == items[..][start..end];
      SettledStep(key, d, s, lo, counts, starts, t, items[..], b);
    } else {
      SettledSkip(key, d, s, lo, counts, starts, t, b);
    }
  }
}
