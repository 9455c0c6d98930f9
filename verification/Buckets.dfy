/** The 257-way byte buckets of the radix engines: counting, and the layout of
    the buckets in a range, in ascending or (for a reversed key) descending
    byte order. */
module Buckets {
  import opened Bytes
  import opened Orders

  const BUCKETS := 257

  function InBucket<T>(key: T -> Text, depth: nat, b: nat): T -> bool {
    (x: T) => BucketAt(key(x), depth) == b
  }

  /** The elements of `s` in bucket `b`, in the order of `s`. */
  function Bucket<T>(key: T -> Text, depth: nat, b: nat, s: seq<T>): seq<T> {
    Filter(InBucket(key, depth, b), s)
  }

  ghost predicate Counts<T>(key: T -> Text, depth: nat, s: seq<T>, counts: seq<nat>) {
    |counts| == BUCKETS && forall b :: 0 <= b < BUCKETS ==> counts[b] == |Bucket(key, depth, b, s)|
  }

  /** Position of bucket `b` in the layout, and equally the bucket at a position. */
  function Place(reverse: bool, b: nat): (p: nat)
    requires b < BUCKETS
    ensures p < BUCKETS
  {
    if reverse then BUCKETS - 1 - b else b
  }

  /** How many elements the first `p` buckets of the layout hold. */
  function Offset(counts: seq<nat>, reverse: bool, p: nat): nat
    requires |counts| == BUCKETS && p <= BUCKETS
  {
    if p == 0 then 0 else Offset(counts, reverse, p - 1) + counts[Place(reverse, p - 1)]
  }

  lemma BucketAppend<T>(key: T -> Text, depth: nat, b: nat, s: seq<T>, n: nat)
    requires n < |s|
    ensures Bucket(key, depth, b, s[..n + 1]) ==
      if BucketAt(key(s[n]), depth) == b then Bucket(key, depth, b, s[..n]) + [s[n]] else Bucket(key, depth, b, s[..n])
  {
    assert s[..n + 1][..n] == s[..n];
  }

  lemma CountsEmpty<T>(key: T -> Text, depth: nat, s: seq<T>, counts: seq<nat>)
    requires s == [] && |counts| == BUCKETS && forall b :: 0 <= b < BUCKETS ==> counts[b] == 0
    ensures Counts(key, depth, s, counts)
  {
  }

  lemma CountsAppend<T>(key: T -> Text, depth: nat, s: seq<T>, n: nat, counts: seq<nat>)
    requires n < |s| && Counts(key, depth, s[..n], counts)
    ensures |counts| == BUCKETS
    ensures var b := BucketAt(key(s[n]), depth); Counts(key, depth, s[..n + 1], counts[b := counts[b] + 1])
  {
    hide Filter, Bucket;
    forall b | 0 <= b < BUCKETS ensures |Bucket(key, depth, b, s[..n + 1])| ==
      |Bucket(key, depth, b, s[..n])| + if BucketAt(key(s[n]), depth) == b then 1 else 0
    {
      BucketAppend(key, depth, b, s, n);
    }
  }

  /** The classification loop.  `direct` is the variant that indexes the byte
      without testing the length, allowed when every key is long enough. */
  method CountBuckets<T>(items: array<T>, lo: nat, hi: nat, key: T -> Text, depth: nat, direct: bool) returns (counts: seq<nat>)
    requires lo <= hi <= items.Length
    requires direct ==> forall k :: lo <= k < hi ==> depth < |key(items[k])|
    ensures |counts| == BUCKETS && Counts(key, depth, items[lo..hi], counts)
  {
    hide Filter, Bucket, Counts;
    counts := seq(BUCKETS, _ => 0);
    ghost var s := items[lo..hi];
    CountsEmpty(key, depth, s[..0], counts);
    var i := lo;
    while i < hi
      invariant lo <= i <= hi && |counts| == BUCKETS
      invariant Counts(key, depth, s[..i - lo], counts)
    {
      var b := if direct then key(items[i])[depth] as int + 1 else BucketAt(key(items[i]), depth);
      assert items[i] == s[i - lo];
      CountsAppend(key, depth, s, i - lo, counts);
      counts := counts[b := counts[b] + 1];
      i := i + 1;
    }
    assert s[..hi - lo] == s;
  }

  lemma {:induction false} OffsetBump(counts: seq<nat>, reverse: bool, b: nat, p: nat)
    requires |counts| == BUCKETS && b < BUCKETS && p <= BUCKETS
    ensures Offset(counts[b := counts[b] + 1], reverse, p) == Offset(counts, reverse, p) + if Place(reverse, b) < p then 1 else 0
  {
    if p > 0 {
      OffsetBump(counts, reverse, b, p - 1);
    }
  }

  lemma {:induction false} OffsetZero(reverse: bool, counts: seq<nat>, p: nat)
    requires |counts| == BUCKETS && p <= BUCKETS && forall b :: 0 <= b < BUCKETS ==> counts[b] == 0
    ensures Offset(counts, reverse, p) == 0
  {
    if p > 0 {
      OffsetZero(reverse, counts, p - 1);
    }
  }

  /** The buckets together hold every element of the range. */
  lemma {:induction false} OffsetTotal<T>(key: T -> Text, depth: nat, s: seq<T>, counts: seq<nat>, reverse: bool)
    requires Counts(key, depth, s, counts)
    ensures Offset(counts, reverse, BUCKETS) == |s|
  {
    if s == [] {
      OffsetZero(reverse, counts, BUCKETS);
    } else {
      hide Filter, Bucket;
      var n := |s| - 1;
      var b := BucketAt(key(s[n]), depth);
      var before := seq(BUCKETS, i requires 0 <= i < BUCKETS => |Bucket(key, depth, i, s[..n])|);
      OffsetTotal(key, depth, s[..n], before, reverse);
      assert s[..n + 1] == s;
      forall i | 0 <= i < BUCKETS ensures counts[i] == before[b := before[b] + 1][i] {
        BucketAppend(key, depth, i, s, n);
      }
      assert counts == before[b := before[b] + 1];
      OffsetBump(before, reverse, b, BUCKETS);
    }
  }

  lemma {:induction false} OffsetMonotone(counts: seq<nat>, reverse: bool, p: nat, q: nat)
    requires |counts| == BUCKETS && p <= q <= BUCKETS
    ensures Offset(counts, reverse, p) <= Offset(counts, reverse, q)
    ensures p < q ==> Offset(counts, reverse, p) + counts[Place(reverse, p)] <= Offset(counts, reverse, q)
  {
    if p < q {
      OffsetMonotone(counts, reverse, p, q - 1);
    }
  }

  /** `starts` lays the buckets out one after the other from `lo`. */
  ghost predicate Layout(counts: seq<nat>, lo: nat, reverse: bool, starts: seq<nat>) {
    && |counts| == BUCKETS && |starts| == BUCKETS
    && forall b :: 0 <= b < BUCKETS ==> starts[b] == lo + Offset(counts, reverse, Place(reverse, b))
  }

  lemma OffsetStep(counts: seq<nat>, reverse: bool, p: nat)
    requires |counts| == BUCKETS && p < BUCKETS
    ensures Offset(counts, reverse, 0) == 0
    ensures Offset(counts, reverse, p + 1) == Offset(counts, reverse, p) + counts[Place(reverse, p)]
    ensures Place(reverse, Place(reverse, p)) == p
  {
  }

  method BucketStarts(counts: seq<nat>, lo: nat, reverse: bool) returns (starts: seq<nat>)
    requires |counts| == BUCKETS
    ensures Layout(counts, lo, reverse, starts)
  {
    OffsetStep(counts, reverse, 0);
    hide Offset;
    starts := seq(BUCKETS, _ => 0);
    var sum := lo;
    if reverse {
      var b := BUCKETS;
      while b > 0
        invariant 0 <= b <= BUCKETS && |starts| == BUCKETS
        invariant sum == lo + Offset(counts, reverse, BUCKETS - b)
        invariant forall i :: b <= i < BUCKETS ==> starts[i] == lo + Offset(counts, reverse, Place(reverse, i))
      {
        var bucket := b - 1;
        OffsetStep(counts, reverse, BUCKETS - b);
        starts := starts[bucket := sum];
        sum := sum + counts[bucket];
        b := b - 1;
      }
    } else {
      for b := 0 to BUCKETS
        invariant |starts| == BUCKETS
        invariant sum == lo + Offset(counts, reverse, b)
        invariant forall i :: 0 <= i < b ==> starts[i] == lo + Offset(counts, reverse, Place(reverse, i))
      {
        OffsetStep(counts, reverse, b);
        starts := starts[b := sum];
        sum := sum + counts[b];
      }
    }
  }

  /** Every bucket lies in the range... */
  lemma LayoutInRange<T>(key: T -> Text, depth: nat, s: seq<T>, counts: seq<nat>, lo: nat, reverse: bool, starts: seq<nat>, b: nat)
    requires Counts(key, depth, s, counts) && Layout(counts, lo, reverse, starts) && b < BUCKETS
    ensures lo <= starts[b] <= starts[b] + counts[b] <= lo + |s|
  {
    OffsetTotal(key, depth, s, counts, reverse);
    OffsetMonotone(counts, reverse, Place(reverse, b), BUCKETS);
    assert Place(reverse, Place(reverse, b)) == b;
  }

  /** ...and two buckets never overlap. */
  lemma LayoutDisjoint(counts: seq<nat>, lo: nat, reverse: bool, starts: seq<nat>, a: nat, b: nat)
    requires Layout(counts, lo, reverse, starts) && a < BUCKETS && b < BUCKETS && a != b
    ensures starts[a] + counts[a] <= starts[b] || starts[b] + counts[b] <= starts[a]
    ensures Place(reverse, a) < Place(reverse, b) ==> starts[a] + counts[a] <= starts[b]
  {
    var p, q := Place(reverse, a), Place(reverse, b);
    if p < q {
      OffsetMonotone(counts, reverse, p, q);
    } else {
      OffsetMonotone(counts, reverse, q, p);
    }
  }
}
