/** Byte strings and the byte-lexicographic order that every identity-collation
    comparison of the program reduces to. */
module Bytes {

  type Byte = b: int | 0 <= b < 256

  type Text = seq<Byte>

  /** The outcome of comparing `a` and `b` from offset `depth` on, as the radix
      engines do.  When `depth` lies past the end of a string the answer is not
      an order any more: with both strings shorter than `depth` it is 1. */
  function CompareFrom(a: Text, b: Text, depth: nat): int
    decreases |a| - depth
  {
    if depth < |a| && depth < |b| then
      if a[depth] < b[depth] then -1
      else if a[depth] > b[depth] then 1
      else CompareFrom(a, b, depth + 1)
    else if depth == |a| && depth == |b| then 0
    else if depth == |a| then -1
    else 1
  }

  function Compare(a: Text, b: Text): int {
    CompareFrom(a, b, 0)
  }

  /** The two strings agree on their first `n` bytes, and have that many. */
  ghost predicate SharePrefix(a: Text, b: Text, n: nat) {
    n <= |a| && n <= |b| && forall i :: 0 <= i < n ==> a[i] == b[i]
  }

  /** The comparison loop, in the form the source writes it out for lines, key
      spans, filtered spans and filtered key spans. */
  method CompareFromDepth(a: Text, b: Text, depth: nat) returns (result: int)
    ensures result == CompareFrom(a, b, depth)
  {
    var pos := depth;
    while pos < |a| && pos < |b|
      invariant depth <= pos
      invariant CompareFrom(a, b, depth) == CompareFrom(a, b, pos)
      decreases |a| - pos
    {
      if a[pos] < b[pos] {
        return -1;
      }
      if a[pos] > b[pos] {
        return 1;
      }
      pos := pos + 1;
    }
    if pos == |a| && pos == |b| {
      return 0;
    }
    return if pos == |a| then -1 else 1;
  }

  lemma {:induction false} CompareFromAntisymmetric(a: Text, b: Text, depth: nat)
    requires depth <= |a| && depth <= |b|
    ensures CompareFrom(a, b, depth) == -CompareFrom(b, a, depth)
    decreases |a| - depth
  {
    if depth < |a| && depth < |b| {
      CompareFromAntisymmetric(a, b, depth + 1);
    }
  }

  lemma {:induction false} CompareFromTransitive(a: Text, b: Text, c: Text, depth: nat)
    requires depth <= |a| && depth <= |b| && depth <= |c|
    requires CompareFrom(a, b, depth) <= 0 && CompareFrom(b, c, depth) <= 0
    ensures CompareFrom(a, c, depth) <= 0
    decreases |a| - depth
  {
    if depth < |a| && depth < |b| && depth < |c| && a[depth] == b[depth] == c[depth] {
      CompareFromTransitive(a, b, c, depth + 1);
    }
  }

  lemma {:induction false} CompareFromZero(a: Text, b: Text, depth: nat)
    requires SharePrefix(a, b, depth)
    ensures CompareFrom(a, b, depth) == 0 <==> a == b
    decreases |a| - depth
  {
    if depth < |a| && depth < |b| {
      if a[depth] == b[depth] {
        CompareFromZero(a, b, depth + 1);
      }
    } else if depth == |a| && depth == |b| {
      assert a == b;
    }
  }

  /** Skipping a shared prefix does not change the comparison: the fact that
      lets an MSD radix sort compare from the current depth. */
  lemma {:induction false} CompareSkipsSharedPrefix(a: Text, b: Text, depth: nat)
    requires SharePrefix(a, b, depth)
    ensures Compare(a, b) == CompareFrom(a, b, depth)
  {
    if depth > 0 {
      CompareSkipsSharedPrefix(a, b, depth - 1);
    }
  }

  /** The byte at `depth`, shifted by one so that 0 can mean "string ended". */
  function BucketAt(a: Text, depth: nat): nat
    ensures BucketAt(a, depth) < 257
  {
    if depth < |a| then a[depth] as int + 1 else 0
  }

  /** Among strings that share `depth` bytes, the bucket decides the order
      whenever it differs, and an equal non-zero bucket extends the prefix. */
  lemma BucketOrders(a: Text, b: Text, depth: nat)
    requires SharePrefix(a, b, depth)
    ensures BucketAt(a, depth) < BucketAt(b, depth) ==> Compare(a, b) == -1
    ensures BucketAt(a, depth) > BucketAt(b, depth) ==> Compare(a, b) == 1
    ensures BucketAt(a, depth) == BucketAt(b, depth) != 0 ==> SharePrefix(a, b, depth + 1)
    ensures BucketAt(a, depth) == BucketAt(b, depth) == 0 ==> a == b
  {
    CompareSkipsSharedPrefix(a, b, depth);
  }

  lemma CompareTotal(a: Text, b: Text)
    ensures Compare(a, b) == -Compare(b, a)
    ensures Compare(a, b) == 0 <==> a == b
  {
    CompareFromAntisymmetric(a, b, 0);
    CompareFromZero(a, b, 0);
  }
}
