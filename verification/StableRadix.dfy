/** The stable MSD radix sort over byte keys (src/radix.c).  One engine value
    stands for each of the source's copies of the algorithm: the key engine
    skips common prefixes and may be reversed, the line and filtered-span
    engines do neither. */
module StableRadix {
  import opened Arrays
  import opened Buckets
  import opened Bytes
  import opened Insertion
  import opened Orders

  const DEPTH_LIMIT := 4096

  datatype Engine<!T> = Engine(key: T -> Text, reverse: bool, threshold: nat, skipsPrefix: bool)

  function Signed(reverse: bool, r: int): int {
    if reverse then -r else r
  }

  function KeyOrder<T>(key: T -> Text, reverse: bool): (T, T) -> int {
    (x: T, y: T) => Signed(reverse, Compare(key(x), key(y)))
  }

  function KeyOrderFrom<T>(key: T -> Text, reverse: bool, depth: nat): (T, T) -> int {
    (x: T, y: T) => Signed(reverse, CompareFrom(key(x), key(y), depth))
  }

  function EngineOrder<T>(e: Engine<T>): (T, T) -> int {
    KeyOrder(e.key, e.reverse)
  }

  lemma KeyOrderPreorder<T(!new)>(key: T -> Text, reverse: bool)
    ensures TotalPreorder(KeyOrder(key, reverse))
    ensures forall x, y :: KeyOrder(key, reverse)(x, y) == 0 <==> key(x) == key(y)
  {
    var c := KeyOrder(key, reverse);
    forall x, y ensures (c(x, y) < 0 <==> c(y, x) > 0) && (c(x, y) == 0 <==> key(x) == key(y)) {
      CompareTotal(key(x), key(y));
    }
    forall x, y, z | c(x, y) <= 0 && c(y, z) <= 0 ensures c(x, z) <= 0 {
      CompareTotal(key(x), key(y));
      CompareTotal(key(y), key(z));
      CompareTotal(key(x), key(z));
      if reverse {
        CompareFromTransitive(key(z), key(y), key(x), 0);
      } else {
        CompareFromTransitive(key(x), key(y), key(z), 0);
      }
    }
  }

  /** Every key of `s` has `depth` bytes and they are the same in all. */
  ghost predicate Shares<T>(key: T -> Text, s: seq<T>, depth: nat) {
    forall x, y :: x in s && y in s ==> SharePrefix(key(x), key(y), depth)
  }

  lemma RootShares<T>(key: T -> Text, s: seq<T>)
    ensures Shares(key, s, 0) && DEPTH_LIMIT == 4096
  {
  }

  ghost predicate AllKeys<T>(key: T -> Text, s: seq<T>, k: Text) {
    forall x :: x in s ==> key(x) == k
  }

  // ---------- What the engine makes of a range ----------

  /** The common-prefix scan reports "all equal" by answering the depth limit;
      it does so exactly for these ranges. */
  ghost predicate Sentinel<T>(e: Engine<T>, s: seq<T>, depth: nat) {
    && e.skipsPrefix && |s| > e.threshold && depth < DEPTH_LIMIT
    && exists k: Text :: depth < |k| <= DEPTH_LIMIT && AllKeys(e.key, s, k)
  }

  /** The elements with key `k` come out in reverse order: they are more than
      the insertion threshold, the key is shorter than the depth limit, and no
      other key of the range shares all but its last byte. */
  ghost predicate Flips<T>(e: Engine<T>, depth: nat, s: seq<T>, k: Text) {
    && e.skipsPrefix && e.reverse && depth < |k| < DEPTH_LIMIT
    && |Filter(HasKey(e.key, k), s)| > e.threshold
    && forall x :: x in s && k[..|k| - 1] <= e.key(x) ==> e.key(x) == k
  }

  function HasKey<T>(key: T -> Text, k: Text): T -> bool {
    (x: T) => key(x) == k
  }

  /** The order in which the class of `g` comes out. */
  ghost function Arrangement<T>(e: Engine<T>, depth: nat, s: seq<T>, g: T): seq<T> {
    var p := Project(EngineOrder(e), g, s);
    if Flips(e, depth, s, e.key(g)) then Reverse(p) else p
  }

  ghost predicate Arranged<T(!new)>(e: Engine<T>, depth: nat, s: seq<T>, t: seq<T>) {
    && |t| == |s|
    && Sorted(EngineOrder(e), t)
    && forall g :: Project(EngineOrder(e), g, t) == Arrangement(e, depth, s, g)
  }

  /** The class of `g` is the set of elements with its key. */
  lemma ClassIsKey<T(!new)>(e: Engine<T>, g: T, s: seq<T>)
    ensures Project(EngineOrder(e), g, s) == Filter(HasKey(e.key, e.key(g)), s)
  {
    KeyOrderPreorder(e.key, e.reverse);
    FilterSame(Like(EngineOrder(e), g), HasKey(e.key, e.key(g)), s);
  }

  // ---------- The common-prefix scan ----------

  /** How far `k` agrees with `first`, from `pos` on and up to `limit`. */
  function CommonLength(first: Text, k: Text, pos: nat, limit: nat): nat
    requires limit <= |first|
    decreases limit - pos
  {
    if pos < limit && pos < |k| && first[pos] == k[pos] then CommonLength(first, k, pos + 1, limit) else pos
  }

  /** How far all of `s` agree with `first`; the scan gives up at `depth`. */
  function SharedLength<T>(key: T -> Text, first: Text, s: seq<T>, depth: nat, limit: nat): nat
    requires depth <= limit <= |first|
    decreases |s|
  {
    if s == [] || limit == depth then limit
    else
      CommonLengthIs(first, key(s[0]), depth, limit);
      SharedLength(key, first, s[1..], depth, CommonLength(first, key(s[0]), depth, limit))
  }

  predicate SameLengths<T>(key: T -> Text, s: seq<T>, n: nat) {
    forall i :: 0 <= i < |s| ==> |key(s[i])| == n
  }

  /** The depth at which sorting goes on. */
  function SkipDepth<T>(e: Engine<T>, s: seq<T>, depth: nat): nat
    requires s != []
  {
    var first := e.key(s[0]);
    var limit := if |first| > DEPTH_LIMIT then DEPTH_LIMIT else |first|;
    if !e.skipsPrefix || |s| <= e.threshold || depth >= limit then depth
    else
      var d := SharedLength(e.key, first, s[1..], depth, limit);
      if d == |first| && SameLengths(e.key, s, |first|) then DEPTH_LIMIT else d
  }

  lemma {:induction false} CommonLengthIs(first: Text, k: Text, pos: nat, limit: nat)
    requires pos <= limit <= |first|
    ensures pos <= CommonLength(first, k, pos, limit) <= limit
    ensures SharePrefix(first, k, pos) ==> SharePrefix(first, k, CommonLength(first, k, pos, limit))
    ensures first == k ==> CommonLength(first, k, pos, limit) == limit
    decreases limit - pos
  {
    if pos < limit && pos < |k| && first[pos] == k[pos] {
      CommonLengthIs(first, k, pos + 1, limit);
    }
  }

  lemma {:induction false} SharedLengthIs<T>(key: T -> Text, first: Text, s: seq<T>, depth: nat, limit: nat)
    requires depth <= limit <= |first| && forall j :: 0 <= j < |s| ==> SharePrefix(first, key(s[j]), depth)
    ensures var d := SharedLength(key, first, s, depth, limit);
      && depth <= d <= limit && (forall j :: 0 <= j < |s| ==> SharePrefix(first, key(s[j]), d))
      && ((forall j :: 0 <= j < |s| ==> key(s[j]) == first) ==> d == limit)
    decreases |s|
  {
    if s != [] && limit != depth {
      var l := CommonLength(first, key(s[0]), depth, limit);
      CommonLengthIs(first, key(s[0]), depth, limit);
      SharedLengthIs(key, first, s[1..], depth, l);
      forall j | 0 <= j < |s| ensures SharePrefix(first, key(s[j]), SharedLength(key, first, s, depth, limit)) {
        assert j > 0 ==> s[j] == s[1..][j - 1];
      }
      if forall j :: 0 <= j < |s| ==> key(s[j]) == first {
        assert forall j :: 0 <= j < |s| - 1 ==> s[1..][j] == s[j + 1];
      }
    }
  }

  /** The scan answers a depth that all keys share, or the depth limit exactly
      where it takes all keys for equal. */
  lemma SkipDepthIs<T>(e: Engine<T>, s: seq<T>, depth: nat)
    requires s != [] && depth <= DEPTH_LIMIT && Shares(e.key, s, depth)
    ensures depth <= SkipDepth(e, s, depth) <= DEPTH_LIMIT
    ensures if Sentinel(e, s, depth) then SkipDepth(e, s, depth) == DEPTH_LIMIT else Shares(e.key, s, SkipDepth(e, s, depth))
  {
    var first := e.key(s[0]);
    var limit := if |first| > DEPTH_LIMIT then DEPTH_LIMIT else |first|;
    assert s[0] in s && SharePrefix(first, first, depth);
    if e.skipsPrefix && |s| > e.threshold && depth < limit {
      var d := SharedLength(e.key, first, s[1..], depth, limit);
      forall j | 0 <= j < |s| - 1 ensures SharePrefix(first, e.key(s[1..][j]), depth) { assert s[j + 1] in s; }
      SharedLengthIs(e.key, first, s[1..], depth, limit);
      hide SharedLength;
      forall j | 0 <= j < |s| ensures SharePrefix(first, e.key(s[j]), d) {
        assert j > 0 ==> s[j] == s[1..][j - 1];
      }
      SharesFromFirst(e.key, s, first, d);
      if Sentinel(e, s, depth) {
        var k: Text :| depth < |k| <= DEPTH_LIMIT && AllKeys(e.key, s, k);
        forall j | 0 <= j < |s| ensures e.key(s[j]) == first { assert s[j] in s; }
        assert forall j :: 0 <= j < |s| - 1 ==> s[1..][j] == s[j + 1];
      } else if d == |first| && SameLengths(e.key, s, |first|) {
        AllTheSame(e.key, s, first);
      }
    }
  }

  lemma AllTheSame<T>(key: T -> Text, s: seq<T>, first: Text)
    requires SameLengths(key, s, |first|) && forall j :: 0 <= j < |s| ==> SharePrefix(first, key(s[j]), |first|)
    ensures AllKeys(key, s, first)
  {
    forall x | x in s ensures key(x) == first {
      var j :| 0 <= j < |s| && s[j] == x;
      assert SharePrefix(first, key(s[j]), |first|);
    }
  }

  lemma OneLength<T>(key: T -> Text, s: seq<T>)
    requires s != []
    ensures SameLengths(key, s[..1], |key(s[0])|)
  {
  }

  lemma NoneShared<T>(key: T -> Text, first: Text, depth: nat, limit: nat)
    requires depth <= limit <= |first|
    ensures SharedLength(key, first, [], depth, limit) == limit
  {
  }

  lemma GivenUp<T>(key: T -> Text, first: Text, s: seq<T>, depth: nat)
    requires depth <= |first|
    ensures SharedLength(key, first, s, depth, depth) == depth
  {
  }

  lemma ScanNext<T>(key: T -> Text, first: Text, s: seq<T>, i: nat, depth: nat, limit: nat)
    requires i < |s| && depth <= limit <= |first|
    ensures SameLengths(key, s[..i + 1], |first|) <==> SameLengths(key, s[..i], |first|) && |key(s[i])| == |first|
    ensures depth <= CommonLength(first, key(s[i]), depth, limit) <= limit
    ensures depth < limit ==>
      SharedLength(key, first, s[i..], depth, limit) == SharedLength(key, first, s[i + 1..], depth, CommonLength(first, key(s[i]), depth, limit))
  {
    CommonLengthIs(first, key(s[i]), depth, limit);
    assert s[i..][1..] == s[i + 1..] && s[..i + 1] == s[..i] + [s[i]];
  }

  /** The loop of the scan: how far all keys agree, and whether all lengths do. */
  method SharedPrefix<T>(key: T -> Text, items: array<T>, lo: nat, hi: nat, depth: nat, limit: nat) returns (d: nat, sameLen: bool)
    requires lo < hi <= items.Length && depth < limit <= |key(items[lo])|
    ensures d == SharedLength(key, key(items[lo]), items[lo..hi][1..], depth, limit)
    ensures d > depth ==> (sameLen <==> SameLengths(key, items[lo..hi], |key(items[lo])|))
  {
    hide *;
    ghost var s := items[lo..hi];
    var first := key(items[lo]);
    assert items[lo] == s[0];
    sameLen := true;
    d := limit;
    var i := lo + 1;
    OneLength(key, s);
    while i < hi
      invariant lo < i <= hi && depth < d <= |first|
      invariant SharedLength(key, first, s[i - lo..], depth, d) == SharedLength(key, first, s[1..], depth, limit)
      invariant sameLen <==> SameLengths(key, s[..i - lo], |first|)
    {
      var k := key(items[i]);
      assert items[i] == s[i - lo];
      ScanNext(key, first, s, i - lo, depth, d);
      if |k| != |first| {
        sameLen := false;
      }
      d := CommonPrefix(first, k, depth, d);
      if d == depth {
        GivenUp(key, first, s[i + 1 - lo..], depth);
        return;
      }
      i := i + 1;
    }
    assert s[..hi - lo] == s && s[hi - lo..] == [];
    NoneShared(key, first, depth, d);
  }

  method SkipPrefix<T>(e: Engine<T>, items: array<T>, lo: nat, hi: nat, depth: nat) returns (d: nat)
    requires lo < hi <= items.Length && depth <= DEPTH_LIMIT && e.skipsPrefix
    ensures d == SkipDepth(e, items[lo..hi], depth)
  {
    hide SharedLength, SameLengths;
    var first := e.key(items[lo]);
    assert items[lo] == items[lo..hi][0];
    if hi - lo <= e.threshold || depth >= DEPTH_LIMIT {
      return depth;
    }
    var limit: nat := if |first| > DEPTH_LIMIT then DEPTH_LIMIT else |first|;
    if depth >= limit {
      return depth;
    }
    var sameLen;
    d, sameLen := SharedPrefix(e.key, items, lo, hi, depth, limit);
    if d > depth && d == |first| && sameLen {
      d := DEPTH_LIMIT;
    }
  }

  lemma SharesFromFirst<T>(key: T -> Text, s: seq<T>, first: Text, n: nat)
    requires forall j :: 0 <= j < |s| ==> SharePrefix(first, key(s[j]), n)
    ensures Shares(key, s, n)
  {
  }

  /** The inner byte loop of the scan. */
  method CommonPrefix(first: Text, k: Text, depth: nat, limit: nat) returns (pos: nat)
    requires depth <= limit <= |first|
    ensures depth <= pos <= limit && pos == CommonLength(first, k, depth, limit)
  {
    pos := depth;
    var commonLimit := if |k| < limit then |k| else limit;
    while pos < commonLimit && first[pos] == k[pos]
      invariant depth <= pos <= limit && CommonLength(first, k, depth, limit) == CommonLength(first, k, pos, limit)
    {
      pos := pos + 1;
    }
  }

  // ---------- The base case ----------

  lemma KeyOrderFromAgrees<T>(key: T -> Text, reverse: bool, s: seq<T>, d: nat)
    requires Shares(key, s, d)
    ensures forall x, y :: x in s && y in s ==> KeyOrderFrom(key, reverse, d)(x, y) == KeyOrder(key, reverse)(x, y)
  {
    forall x, y | x in s && y in s ensures KeyOrderFrom(key, reverse, d)(x, y) == KeyOrder(key, reverse)(x, y) {
      CompareSkipsSharedPrefix(key(x), key(y), d);
    }
  }

  lemma {:induction false} HasKeyCount<T>(key: T -> Text, k: Text, s: seq<T>)
    requires |Filter(HasKey(key, k), s)| > 0
    ensures exists x :: x in s && key(x) == k
  {
    var f := Filter(HasKey(key, k), s);
    FilterMember(HasKey(key, k), s, f[0]);
  }

  lemma StableIsArranged<T(!new)>(e: Engine<T>, depth: nat, s: seq<T>, t: seq<T>)
    requires IsStableSort(EngineOrder(e), s, t)
    requires forall k :: !Flips(e, depth, s, k)
    ensures Arranged(e, depth, s, t)
  {
    KeyOrderPreorder(e.key, e.reverse);
    SameClassesPermutes(EngineOrder(e), s, t);
    hide *;
    ArrangedIf(e, depth, s, t);
  }

  lemma ArrangedIf<T(!new)>(e: Engine<T>, depth: nat, s: seq<T>, t: seq<T>)
    requires |t| == |s| && IsStableSort(EngineOrder(e), s, t)
    requires forall k :: !Flips(e, depth, s, k)
    ensures Arranged(e, depth, s, t)
  {
    hide Flips, Project, EngineOrder, Sorted;
    forall g ensures Project(EngineOrder(e), g, t) == Arrangement(e, depth, s, g) {
      assert Project(EngineOrder(e), g, s) == Project(EngineOrder(e), g, t);
      assert !Flips(e, depth, s, e.key(g));
    }
  }

  /** A range at the depth limit, or no longer than the threshold, has no flips
      unless the scan answered with its sentinel. */
  lemma NoFlipsAtBase<T>(e: Engine<T>, s: seq<T>, depth: nat, d: nat)
    requires |s| <= e.threshold || (d >= DEPTH_LIMIT && Shares(e.key, s, d))
    ensures forall k :: !Flips(e, depth, s, k)
  {
    forall k ensures !Flips(e, depth, s, k) {
      if |Filter(HasKey(e.key, k), s)| > e.threshold {
        HasKeyCount(e.key, k, s);
        var x :| x in s && e.key(x) == k;
        assert d >= DEPTH_LIMIT ==> SharePrefix(e.key(x), e.key(x), d);
      }
    }
  }

  /** Past the end of equal keys the comparator answers 1 (or, reversed, -1)
      for every pair, so insertion keeps the range or reverses it. */
  lemma SentinelOrder<T>(e: Engine<T>, s: seq<T>, k: Text)
    requires |k| < DEPTH_LIMIT && AllKeys(e.key, s, k)
    ensures Inserted(KeyOrderFrom(e.key, e.reverse, DEPTH_LIMIT), s) == if e.reverse then Reverse(s) else s
  {
    hide Inserted, Reverse;
    var c := KeyOrderFrom(e.key, e.reverse, DEPTH_LIMIT);
    assert CompareFrom(k, k, DEPTH_LIMIT) == 1;
    assert forall x, y :: x in s && y in s ==> c(x, y) == if e.reverse then -1 else 1;
    if e.reverse {
      InsertedAlwaysLess(c, s);
    } else {
      InsertedNeverLess(c, s);
    }
  }

  lemma ReverseMembers<T>(s: seq<T>, x: T)
    ensures x in Reverse(s) <==> x in s
  {
    hide Reverse;
    var r := Reverse(s);
    if x in r {
      var i :| 0 <= i < |r| && r[i] == x;
      assert s[|s| - 1 - i] == x;
    }
    if x in s {
      var i :| 0 <= i < |s| && s[i] == x;
      assert r[|s| - 1 - i] == x;
    }
  }

  lemma SentinelClass<T(!new)>(e: Engine<T>, s: seq<T>, depth: nat, k: Text, t: seq<T>, g: T)
    requires e.skipsPrefix && |s| > e.threshold && depth < |k| < DEPTH_LIMIT && AllKeys(e.key, s, k)
    requires AllKeys(e.key, t, k) && t == if e.reverse then Reverse(s) else s
    ensures Project(EngineOrder(e), g, t) == Arrangement(e, depth, s, g)
  {
    hide Reverse, Project, Filter, EngineOrder;
    ClassIsKey(e, g, s);
    ClassIsKey(e, g, t);
    var p := HasKey(e.key, e.key(g));
    if e.key(g) == k {
      FilterAll(p, s);
      FilterAll(p, t);
    } else {
      FilterNone(p, s);
      FilterNone(p, t);
    }
  }

  lemma SortedAllEqual<T(!new)>(e: Engine<T>, t: seq<T>, k: Text)
    requires AllKeys(e.key, t, k)
    ensures Sorted(EngineOrder(e), t)
  {
    CompareTotal(k, k);
  }

  lemma SentinelInsertion<T(!new)>(e: Engine<T>, s: seq<T>, depth: nat, k: Text)
    requires e.skipsPrefix && |s| > e.threshold && depth < |k| < DEPTH_LIMIT && AllKeys(e.key, s, k)
    ensures Arranged(e, depth, s, Inserted(KeyOrderFrom(e.key, e.reverse, DEPTH_LIMIT), s))
  {
    hide Inserted, KeyOrderFrom, EngineOrder, Sorted, Project, Reverse, Arrangement;
    SentinelOrder(e, s, k);
    var t := if e.reverse then Reverse(s) else s;
    forall x | x in t ensures e.key(x) == k { ReverseMembers(s, x); }
    SortedAllEqual(e, t, k);
    forall g ensures Project(EngineOrder(e), g, t) == Arrangement(e, depth, s, g) {
      SentinelClass(e, s, depth, k, t, g);
    }
  }

  lemma InsertionArranged<T(!new)>(e: Engine<T>, s: seq<T>, depth: nat, d: nat)
    requires Shares(e.key, s, depth) && depth <= DEPTH_LIMIT
    requires |s| <= e.threshold || d >= DEPTH_LIMIT
    requires if Sentinel(e, s, depth) then d == DEPTH_LIMIT else Shares(e.key, s, d)
    ensures Arranged(e, depth, s, Inserted(KeyOrderFrom(e.key, e.reverse, d), s))
  {
    var c := EngineOrder(e);
    if Sentinel(e, s, depth) && !Shares(e.key, s, d) {
      var k: Text :| depth < |k| <= DEPTH_LIMIT && AllKeys(e.key, s, k);
      SentinelInsertion(e, s, depth, k);
    } else {
      KeyOrderPreorder(e.key, e.reverse);
      KeyOrderFromAgrees(e.key, e.reverse, s, d);
      InsertedIsStableSort(c, KeyOrderFrom(e.key, e.reverse, d), s);
      StableSortStable(c, s);
      NoFlipsAtBase(e, s, depth, d);
      StableIsArranged(e, depth, s, StableSort(c, s));
    }
  }

  // ---------- One counting pass ----------

  /** Bucket `b` of `s` occupies its place in `t`. */
  ghost predicate Grouped<T>(e: Engine<T>, d: nat, s: seq<T>, counts: seq<nat>, starts: seq<nat>, t: seq<T>) {
    && |counts| == BUCKETS && |starts| == BUCKETS
    && forall b :: 0 <= b < BUCKETS ==> starts[b] + counts[b] <= |t| && t[starts[b]..starts[b] + counts[b]] == Bucket(e.key, d, b, s)
  }

  /** The first `n` elements of `s` have been dealt out to their buckets. */
  ghost predicate Dealt<T>(e: Engine<T>, d: nat, s: seq<T>, n: nat, starts: seq<nat>, next: seq<nat>, u: seq<T>) {
    && n <= |s| && |starts| == BUCKETS && |next| == BUCKETS
    && forall b :: 0 <= b < BUCKETS ==>
      && next[b] == starts[b] + |Bucket(e.key, d, b, s[..n])|
      && next[b] <= |u|
      && u[starts[b]..next[b]] == Bucket(e.key, d, b, s[..n])
  }

  lemma BucketPrefix<T>(key: T -> Text, d: nat, b: nat, s: seq<T>, n: nat)
    requires n <= |s|
    ensures |Bucket(key, d, b, s[..n])| <= |Bucket(key, d, b, s)|
  {
    assert s == s[..n] + s[n..];
    FilterConcat(InBucket(key, d, b), s[..n], s[n..]);
  }

  lemma DealSlot<T>(e: Engine<T>, d: nat, s: seq<T>, n: nat, lo: nat, counts: seq<nat>, starts: seq<nat>, next: seq<nat>, u: seq<T>, b: nat)
    requires n < |s| && Dealt(e, d, s, n, starts, next, u)
    requires Counts(e.key, d, s, counts) && Layout(counts, lo, e.reverse, starts)
    requires b == BucketAt(e.key(s[n]), d)
    ensures b < |next| == |starts| == |counts| == BUCKETS
    ensures lo <= starts[b] <= next[b] < starts[b] + counts[b] <= lo + |s|
  {
    hide Bucket;
    BucketAppend(e.key, d, b, s, n);
    BucketPrefix(e.key, d, b, s, n + 1);
    LayoutInRange(e.key, d, s, counts, lo, e.reverse, starts, b);
  }

  lemma DealStep<T>(e: Engine<T>, d: nat, s: seq<T>, n: nat, lo: nat, counts: seq<nat>, starts: seq<nat>, next: seq<nat>, u: seq<T>, u': seq<T>, b: nat)
    requires n < |s| && Dealt(e, d, s, n, starts, next, u)
    requires Counts(e.key, d, s, counts) && Layout(counts, lo, e.reverse, starts)
    requires b == BucketAt(e.key(s[n]), d) && |next| == BUCKETS && next[b] < |u|
    requires u' == u[next[b] := s[n]]
    ensures Dealt(e, d, s, n + 1, starts, next[b := next[b] + 1], u')
  {
    hide Bucket, Layout, Counts;
    DealSlot(e, d, s, n, lo, counts, starts, next, u, b);
    forall i | 0 <= i < BUCKETS
      ensures var m := next[b := next[b] + 1][i];
        m == starts[i] + |Bucket(e.key, d, i, s[..n + 1])| && m <= |u'| && u'[starts[i]..m] == Bucket(e.key, d, i, s[..n + 1])
    {
      BucketAppend(e.key, d, i, s, n);
      if i == b {
        assert u'[starts[b]..next[b] + 1] == u[starts[b]..next[b]] + [s[n]];
      } else {
        LayoutDisjoint(counts, lo, e.reverse, starts, i, b);
        DealtWithin(e, d, s, n, counts, i);
        assert u'[starts[i]..next[i]] == u[starts[i]..next[i]];
      }
    }
  }

  lemma DealtWithin<T>(e: Engine<T>, d: nat, s: seq<T>, n: nat, counts: seq<nat>, b: nat)
    requires n <= |s| && Counts(e.key, d, s, counts) && b < BUCKETS
    ensures |Bucket(e.key, d, b, s[..n])| <= counts[b]
  {
    BucketPrefix(e.key, d, b, s, n);
  }

  lemma DealtNone<T>(e: Engine<T>, d: nat, s: seq<T>, lo: nat, counts: seq<nat>, starts: seq<nat>, u: seq<T>)
    requires Counts(e.key, d, s, counts) && Layout(counts, lo, e.reverse, starts) && lo + |s| <= |u|
    ensures Dealt(e, d, s, 0, starts, starts, u)
  {
    hide Counts, Offset;
    forall b | 0 <= b < BUCKETS ensures Bucket(e.key, d, b, s[..0]) == [] && starts[b] <= |u| && u[starts[b]..starts[b]] == [] {
      LayoutInRange(e.key, d, s, counts, lo, e.reverse, starts, b);
    }
  }

  lemma DealtAll<T>(e: Engine<T>, d: nat, s: seq<T>, counts: seq<nat>, starts: seq<nat>, next: seq<nat>, u: seq<T>)
    requires Counts(e.key, d, s, counts) && Dealt(e, d, s, |s|, starts, next, u)
    ensures Grouped(e, d, s, counts, starts, u)
  {
    hide Bucket;
    assert s[..|s|] == s;
  }

  /** The scatter loop: `aux[next[bucket]++] = items[i]`. */
  method Deal<T>(e: Engine<T>, items: array<T>, aux: array<T>, lo: nat, hi: nat, d: nat, counts: seq<nat>, starts: seq<nat>)
    requires lo <= hi <= items.Length == aux.Length && items != aux
    requires Counts(e.key, d, items[lo..hi], counts) && Layout(counts, lo, e.reverse, starts)
    modifies aux
    ensures Grouped(e, d, items[lo..hi], counts, starts, aux[..])
    ensures forall k :: 0 <= k < aux.Length && !(lo <= k < hi) ==> aux[k] == old(aux[k])
  {
    hide *;
    var next := starts;
    ghost var s := items[lo..hi];
    DealtNone(e, d, s, lo, counts, starts, aux[..]);
    var i := lo;
    while i < hi
      invariant lo <= i <= hi
      invariant Dealt(e, d, s, i - lo, starts, next, aux[..])
      invariant forall k :: 0 <= k < aux.Length && !(lo <= k < hi) ==> aux[k] == old(aux[k])
    {
      var b := BucketAt(e.key(items[i]), d);
      assert items[i] == s[i - lo];
      ghost var u := aux[..];
      DealSlot(e, d, s, i - lo, lo, counts, starts, next, u, b);
      aux[next[b]] := items[i];
      assert aux[..] == u[next[b] := s[i - lo]];
      DealStep(e, d, s, i - lo, lo, counts, starts, next, u, aux[..], b);
      next := next[b := next[b] + 1];
      i := i + 1;
    }
    DealtAll(e, d, s, counts, starts, next, aux[..]);
  }

  lemma GroupedCopy<T>(e: Engine<T>, d: nat, s: seq<T>, lo: nat, counts: seq<nat>, starts: seq<nat>, u: seq<T>, t: seq<T>)
    requires Grouped(e, d, s, counts, starts, u) && |t| == |u| && lo + |s| <= |u|
    requires Counts(e.key, d, s, counts) && Layout(counts, lo, e.reverse, starts)
    requires forall k :: lo <= k < lo + |s| ==> t[k] == u[k]
    ensures Grouped(e, d, s, counts, starts, t)
  {
    hide Bucket, Layout, Counts;
    forall b | 0 <= b < BUCKETS ensures starts[b] + counts[b] <= |t| && t[starts[b]..starts[b] + counts[b]] == Bucket(e.key, d, b, s) {
      LayoutInRange(e.key, d, s, counts, lo, e.reverse, starts, b);
      assert t[starts[b]..starts[b] + counts[b]] == u[starts[b]..starts[b] + counts[b]];
    }
  }

  /** Counting, layout, scatter and copy back. */
  method Pass<T>(e: Engine<T>, items: array<T>, aux: array<T>, lo: nat, hi: nat, d: nat) returns (counts: seq<nat>, starts: seq<nat>)
    requires lo <= hi <= items.Length == aux.Length && items != aux
    modifies items, aux
    ensures Counts(e.key, d, old(items[lo..hi]), counts) && Layout(counts, lo, e.reverse, starts)
    ensures Grouped(e, d, old(items[lo..hi]), counts, starts, items[..])
    ensures forall k :: 0 <= k < items.Length && !(lo <= k < hi) ==> items[k] == old(items[k]) && aux[k] == old(aux[k])
  {
    hide *;
    ghost var s := items[lo..hi];
    counts := CountBuckets(items, lo, hi, e.key, d, false);
    starts := BucketStarts(counts, lo, e.reverse);
    Deal(e, items, aux, lo, hi, d, counts, starts);
    ghost var u := aux[..];
    CopyRange(items, aux, lo, hi);
    forall k | lo <= k < hi ensures items[..][k] == u[k] {
      assert items[lo..hi][k - lo] == aux[lo..hi][k - lo];
    }
    GroupedCopy(e, d, s, lo, counts, starts, u, items[..]);
  }

  /** The first `p` buckets of the layout, one behind the other. */
  function RegroupedTo<T>(e: Engine<T>, d: nat, s: seq<T>, p: nat): seq<T>
    requires p <= BUCKETS
  {
    if p == 0 then [] else RegroupedTo(e, d, s, p - 1) + Bucket(e.key, d, Place(e.reverse, p - 1), s)
  }

  /** What a pass makes of a range. */
  function Regrouped<T>(e: Engine<T>, d: nat, s: seq<T>): seq<T> {
    RegroupedTo(e, d, s, BUCKETS)
  }

  lemma {:induction false} RegroupedLength<T>(e: Engine<T>, d: nat, s: seq<T>, counts: seq<nat>, p: nat)
    requires Counts(e.key, d, s, counts) && p <= BUCKETS
    ensures |RegroupedTo(e, d, s, p)| == Offset(counts, e.reverse, p)
  {
    if p > 0 {
      hide Bucket;
      RegroupedLength(e, d, s, counts, p - 1);
    }
  }

  ghost predicate Holds<T>(t: seq<T>, from: nat, n: nat, q: seq<T>) {
    from + n <= |t| && t[from..from + n] == q
  }

  lemma HoldsLast<T>(front: seq<T>, last: seq<T>)
    ensures Holds(front + last, |front|, |last|, last)
  {
  }

  lemma HoldsFront<T>(front: seq<T>, last: seq<T>, from: nat, n: nat, q: seq<T>)
    requires Holds(front, from, n, q)
    ensures Holds(front + last, from, n, q)
  {
  }

  lemma BucketCount<T>(e: Engine<T>, d: nat, s: seq<T>, counts: seq<nat>, p: nat)
    requires Counts(e.key, d, s, counts) && 0 < p <= BUCKETS
    ensures |counts| == BUCKETS && counts[Place(e.reverse, p - 1)] == |Bucket(e.key, d, Place(e.reverse, p - 1), s)|
    ensures RegroupedTo(e, d, s, p) == RegroupedTo(e, d, s, p - 1) + Bucket(e.key, d, Place(e.reverse, p - 1), s)
  {
  }

  lemma {:induction false} RegroupedAt<T>(e: Engine<T>, d: nat, s: seq<T>, counts: seq<nat>, p: nat, q: nat)
    requires Counts(e.key, d, s, counts) && q < p <= BUCKETS && |counts| == BUCKETS
    ensures Holds(RegroupedTo(e, d, s, p), Offset(counts, e.reverse, q), counts[Place(e.reverse, q)], Bucket(e.key, d, Place(e.reverse, q), s))
    decreases p
  {
    hide *;
    RegroupedLength(e, d, s, counts, p - 1);
    BucketCount(e, d, s, counts, p);
    var front, last := RegroupedTo(e, d, s, p - 1), Bucket(e.key, d, Place(e.reverse, p - 1), s);
    if q < p - 1 {
      RegroupedAt(e, d, s, counts, p - 1, q);
      HoldsFront(front, last, Offset(counts, e.reverse, q), counts[Place(e.reverse, q)], Bucket(e.key, d, Place(e.reverse, q), s));
    } else {
      HoldsLast(front, last);
    }
  }

  /** A pass leaves exactly this. */
  lemma RegroupedIsGrouped<T>(e: Engine<T>, d: nat, s: seq<T>, counts: seq<nat>, starts: seq<nat>)
    requires Counts(e.key, d, s, counts) && Layout(counts, 0, e.reverse, starts)
    ensures |Regrouped(e, d, s)| == |s| && Grouped(e, d, s, counts, starts, Regrouped(e, d, s))
  {
    OffsetTotal(e.key, d, s, counts, e.reverse);
    RegroupedLength(e, d, s, counts, BUCKETS);
    hide Bucket, RegroupedTo, Offset, Counts, Holds;
    forall b: nat | b < BUCKETS ensures Holds(Regrouped(e, d, s), starts[b], counts[b], Bucket(e.key, d, b, s)) {
      assert Place(e.reverse, Place(e.reverse, b)) == b;
      RegroupedAt(e, d, s, counts, BUCKETS, Place(e.reverse, b));
    }
    hide Layout, Regrouped;
    HeldIsGrouped(e, d, s, counts, starts, Regrouped(e, d, s));
  }

  lemma HeldIsGrouped<T>(e: Engine<T>, d: nat, s: seq<T>, counts: seq<nat>, starts: seq<nat>, t: seq<T>)
    requires |counts| == BUCKETS && |starts| == BUCKETS
    requires forall b: nat :: b < BUCKETS ==> Holds(t, starts[b], counts[b], Bucket(e.key, d, b, s))
    ensures Grouped(e, d, s, counts, starts, t)
  {
    hide Bucket;
    forall b | 0 <= b < BUCKETS ensures starts[b] + counts[b] <= |t| && t[starts[b]..starts[b] + counts[b]] == Bucket(e.key, d, b, s) {
      assert Holds(t, starts[b], counts[b], Bucket(e.key, d, b, s));
    }
  }

  // ---------- From the buckets back to the range ----------

  /** The counting pass is reached only when the scan did not find all keys
      equal, and then a class flips in its bucket just when it does in the range. */
  ghost predicate Scanned<T>(e: Engine<T>, s: seq<T>, depth: nat, d: nat) {
    && depth <= d < DEPTH_LIMIT && Shares(e.key, s, d)
    && |s| > e.threshold && !Sentinel(e, s, depth)
  }

  /** The class of `k`, as far as it lies in its own bucket. */
  lemma KeyInBucket<T>(e: Engine<T>, s: seq<T>, d: nat, b: nat, k: Text)
    ensures Filter(HasKey(e.key, k), Bucket(e.key, d, b, s)) == if BucketAt(k, d) == b then Filter(HasKey(e.key, k), s) else []
  {
    var p, q := HasKey(e.key, k), InBucket(e.key, d, b);
    if BucketAt(k, d) == b {
      FilterNarrow(p, q, s);
    } else {
      FilterDisjoint(p, q, s);
    }
  }

  lemma FlipsDownward<T>(e: Engine<T>, s: seq<T>, depth: nat, d: nat, k: Text)
    requires Scanned(e, s, depth, d)
    requires Flips(e, depth, s, k)
    ensures d + 1 < |k|
  {
    HasKeyCount(e.key, k, s);
    var x :| x in s && e.key(x) == k;
    assert SharePrefix(k, k, d);
    if |k| <= d + 1 {
      forall y | y in s ensures e.key(y) == k {
        assert SharePrefix(k, e.key(y), d);
        assert k[..|k| - 1] <= e.key(y);
      }
      assert AllKeys(e.key, s, k);
    }
  }

  lemma FlipsInBucket<T>(e: Engine<T>, s: seq<T>, depth: nat, d: nat, b: nat, k: Text)
    requires Scanned(e, s, depth, d) && BucketAt(k, d) == b
    ensures Flips(e, d + 1, Bucket(e.key, d, b, s), k) <==> Flips(e, depth, s, k)
  {
    var q := Bucket(e.key, d, b, s);
    KeyInBucket(e, s, d, b, k);
    if Flips(e, depth, s, k) {
      FlipsDownward(e, s, depth, d, k);
      forall x | x in q && k[..|k| - 1] <= e.key(x) ensures e.key(x) == k {
        FilterMember(InBucket(e.key, d, b), s, x);
      }
    }
    if Flips(e, d + 1, q, k) {
      forall x | x in s && k[..|k| - 1] <= e.key(x) ensures e.key(x) == k {
        assert k[..|k| - 1][d] == e.key(x)[d];
        FilterMember(InBucket(e.key, d, b), s, x);
      }
    }
  }

  /** What one bucket contributes to the class of `g`. */
  lemma BucketArrangement<T(!new)>(e: Engine<T>, s: seq<T>, depth: nat, d: nat, b: nat, g: T)
    requires Scanned(e, s, depth, d)
    ensures Arrangement(e, d + 1, Bucket(e.key, d, b, s), g) ==
      if BucketAt(e.key(g), d) == b then Arrangement(e, depth, s, g) else []
  {
    hide Filter, Project, EngineOrder, Scanned, Reverse;
    var q := Bucket(e.key, d, b, s);
    var k := e.key(g);
    hide Bucket;
    ClassIsKey(e, g, s);
    ClassIsKey(e, g, q);
    KeyInBucket(e, s, d, b, k);
    if BucketAt(k, d) == b {
      FlipsInBucket(e, s, depth, d, b, k);
    }
  }

  /** Every bucket has been arranged in place. */
  ghost predicate Pieces<T(!new)>(e: Engine<T>, d: nat, s: seq<T>, counts: seq<nat>, starts: seq<nat>, t: seq<T>) {
    && |counts| == BUCKETS && |starts| == BUCKETS
    && forall b :: 0 <= b < BUCKETS ==> Piece(e, d, s, counts, starts, t, b)
  }

  ghost predicate Piece<T(!new)>(e: Engine<T>, d: nat, s: seq<T>, counts: seq<nat>, starts: seq<nat>, t: seq<T>, b: nat)
    requires |counts| == BUCKETS && |starts| == BUCKETS && b < BUCKETS
  {
    && starts[b] + counts[b] <= |t|
    && Arranged(e, d + 1, Bucket(e.key, d, b, s), t[starts[b]..starts[b] + counts[b]])
  }

  lemma ArrangedMembers<T(!new)>(e: Engine<T>, depth: nat, s: seq<T>, t: seq<T>, x: T)
    requires Arranged(e, depth, s, t) && x in t
    ensures x in s
  {
    hide Filter, Reverse, Flips, Sorted;
    var c := EngineOrder(e);
    KeyOrderPreorder(e.key, e.reverse);
    assert Like(c, x)(x);
    FilterMember(Like(c, x), t, x);
    var p := Project(c, x, s);
    assert Project(c, x, t) == Arrangement(e, depth, s, x);
    assert x in Project(c, x, t);
    ReverseMembers(p, x);
    FilterMember(Like(c, x), s, x);
  }

  /** The part of the range that the first `p` buckets of the layout fill. */
  ghost function Front<T>(e: Engine<T>, lo: nat, counts: seq<nat>, t: seq<T>, p: nat): seq<T>
    requires |counts| == BUCKETS && p <= BUCKETS && lo + Offset(counts, e.reverse, p) <= |t|
  {
    t[lo..lo + Offset(counts, e.reverse, p)]
  }

  lemma StartsAt<T>(e: Engine<T>, lo: nat, counts: seq<nat>, starts: seq<nat>, p: nat)
    requires p < BUCKETS && Layout(counts, lo, e.reverse, starts)
    ensures |counts| == |starts| == BUCKETS
    ensures var b := Place(e.reverse, p);
      starts[b] == lo + Offset(counts, e.reverse, p) && starts[b] + counts[b] == lo + Offset(counts, e.reverse, p + 1)
    ensures Offset(counts, e.reverse, p + 1) <= Offset(counts, e.reverse, BUCKETS)
  {
    OffsetMonotone(counts, e.reverse, p + 1, BUCKETS);
    assert Place(e.reverse, Place(e.reverse, p)) == p;
  }

  lemma FrontStep<T(!new)>(e: Engine<T>, lo: nat, counts: seq<nat>, starts: seq<nat>, t: seq<T>, p: nat)
    requires p < BUCKETS && Layout(counts, lo, e.reverse, starts) && lo + Offset(counts, e.reverse, BUCKETS) <= |t|
    ensures lo + Offset(counts, e.reverse, p) <= lo + Offset(counts, e.reverse, p + 1) <= |t|
    ensures starts[Place(e.reverse, p)] + counts[Place(e.reverse, p)] <= |t|
    ensures var b := Place(e.reverse, p);
      Front(e, lo, counts, t, p + 1) == Front(e, lo, counts, t, p) + t[starts[b]..starts[b] + counts[b]]
  {
    hide Layout, Offset, Place;
    StartsAt(e, lo, counts, starts, p);
  }

  lemma {:induction false} FrontClass<T(!new)>(e: Engine<T>, s: seq<T>, depth: nat, d: nat, lo: nat, counts: seq<nat>, starts: seq<nat>, t: seq<T>, p: nat, g: T)
    requires Scanned(e, s, depth, d) && Layout(counts, lo, e.reverse, starts) && Pieces(e, d, s, counts, starts, t)
    requires p <= BUCKETS && lo + Offset(counts, e.reverse, BUCKETS) <= |t| && lo + Offset(counts, e.reverse, p) <= |t|
    ensures Project(EngineOrder(e), g, Front(e, lo, counts, t, p)) ==
      if Place(e.reverse, BucketAt(e.key(g), d)) < p then Arrangement(e, depth, s, g) else []
  {
    hide Filter, Layout, Scanned, Offset, EngineOrder, Arrangement, Sorted, Bucket;
    if p == 0 {
      assert Front(e, lo, counts, t, 0) == [] by { FrontNone(e, lo, counts, t); }
      FilterNone(Like(EngineOrder(e), g), Front(e, lo, counts, t, 0));
    } else {
      var b := Place(e.reverse, p - 1);
      FrontStep(e, lo, counts, starts, t, p - 1);
      FrontClass(e, s, depth, d, lo, counts, starts, t, p - 1, g);
      var front, piece := Front(e, lo, counts, t, p - 1), t[starts[b]..starts[b] + counts[b]];
      FilterConcat(Like(EngineOrder(e), g), front, piece);
      assert Piece(e, d, s, counts, starts, t, b);
      assert Project(EngineOrder(e), g, piece) == Arrangement(e, d + 1, Bucket(e.key, d, b, s), g);
      BucketArrangement(e, s, depth, d, b, g);
    }
  }

  lemma FrontNone<T>(e: Engine<T>, lo: nat, counts: seq<nat>, t: seq<T>)
    requires |counts| == BUCKETS && lo <= |t|
    ensures Offset(counts, e.reverse, 0) == 0 && Front(e, lo, counts, t, 0) == []
  {
  }

  /** Elements of different buckets are ordered as the layout places them. */
  lemma LayoutOrders<T>(e: Engine<T>, s: seq<T>, d: nat, x: T, y: T)
    requires Shares(e.key, s, d) && x in s && y in s
    requires Place(e.reverse, BucketAt(e.key(x), d)) < Place(e.reverse, BucketAt(e.key(y), d))
    ensures EngineOrder(e)(x, y) <= 0
  {
    BucketOrders(e.key(x), e.key(y), d);
  }

  /** Every bucket's place holds elements of that bucket, sorted. */
  ghost predicate SortedPieces<T>(e: Engine<T>, d: nat, s: seq<T>, counts: seq<nat>, starts: seq<nat>, t: seq<T>) {
    && |counts| == BUCKETS && |starts| == BUCKETS
    && forall b :: 0 <= b < BUCKETS ==> starts[b] + counts[b] <= |t| && SortedPiece(e, d, s, b, t[starts[b]..starts[b] + counts[b]])
  }

  ghost predicate SortedPiece<T>(e: Engine<T>, d: nat, s: seq<T>, b: nat, piece: seq<T>) {
    Sorted(EngineOrder(e), piece) && forall x :: x in piece ==> x in s && BucketAt(e.key(x), d) == b
  }

  lemma {:induction false} FrontSorted<T(!new)>(e: Engine<T>, s: seq<T>, d: nat, lo: nat, counts: seq<nat>, starts: seq<nat>, t: seq<T>, p: nat)
    requires Shares(e.key, s, d) && Layout(counts, lo, e.reverse, starts) && SortedPieces(e, d, s, counts, starts, t)
    requires p <= BUCKETS && lo + Offset(counts, e.reverse, BUCKETS) <= |t| && lo + Offset(counts, e.reverse, p) <= |t|
    ensures Sorted(EngineOrder(e), Front(e, lo, counts, t, p))
    ensures forall x :: x in Front(e, lo, counts, t, p) ==> x in s && Place(e.reverse, BucketAt(e.key(x), d)) < p
  {
    hide Layout, Offset, EngineOrder, Shares;
    if p == 0 {
      FrontNone(e, lo, counts, t);
    } else {
      var b := Place(e.reverse, p - 1);
      FrontStep(e, lo, counts, starts, t, p - 1);
      FrontSorted(e, s, d, lo, counts, starts, t, p - 1);
      var front, piece := Front(e, lo, counts, t, p - 1), t[starts[b]..starts[b] + counts[b]];
      assert SortedPiece(e, d, s, b, piece);
      hide Front, SortedPieces;
      assert Place(e.reverse, b) == p - 1;
      forall x, y | x in front && y in piece ensures EngineOrder(e)(x, y) <= 0 {
        LayoutOrders(e, s, d, x, y);
      }
      SortedConcat(EngineOrder(e), front, piece);
    }
  }

  lemma PiecesSorted<T(!new)>(e: Engine<T>, d: nat, s: seq<T>, counts: seq<nat>, starts: seq<nat>, t: seq<T>)
    requires Pieces(e, d, s, counts, starts, t)
    ensures SortedPieces(e, d, s, counts, starts, t)
  {
    hide Arranged, Sorted;
    forall b | 0 <= b < BUCKETS ensures starts[b] + counts[b] <= |t| && SortedPiece(e, d, s, b, t[starts[b]..starts[b] + counts[b]]) {
      assert Piece(e, d, s, counts, starts, t, b);
      PieceMembers(e, d, s, b, t[starts[b]..starts[b] + counts[b]]);
      ArrangedSorted(e, d + 1, Bucket(e.key, d, b, s), t[starts[b]..starts[b] + counts[b]]);
    }
  }

  lemma ArrangedSorted<T(!new)>(e: Engine<T>, depth: nat, s: seq<T>, t: seq<T>)
    requires Arranged(e, depth, s, t)
    ensures Sorted(EngineOrder(e), t)
  {
  }

  lemma SortedConcat<T>(c: (T, T) -> int, a: seq<T>, b: seq<T>)
    requires Sorted(c, a) && Sorted(c, b) && forall x, y :: x in a && y in b ==> c(x, y) <= 0
    ensures Sorted(c, a + b)
  {
  }

  lemma PieceMembers<T(!new)>(e: Engine<T>, d: nat, s: seq<T>, b: nat, piece: seq<T>)
    requires Arranged(e, d + 1, Bucket(e.key, d, b, s), piece)
    ensures forall x :: x in piece ==> x in s && BucketAt(e.key(x), d) == b
  {
    hide Arranged, Filter;
    forall x | x in piece ensures x in s && BucketAt(e.key(x), d) == b {
      ArrangedMembers(e, d + 1, Bucket(e.key, d, b, s), piece, x);
      FilterMember(InBucket(e.key, d, b), s, x);
    }
  }

  lemma ScannedFacts<T>(e: Engine<T>, s: seq<T>, depth: nat, d: nat, counts: seq<nat>)
    requires Scanned(e, s, depth, d) && Counts(e.key, d, s, counts)
    ensures Shares(e.key, s, d) && |counts| == BUCKETS == 257
  {
  }

  /** The pieces together arrange the range. */
  lemma Assemble<T(!new)>(e: Engine<T>, s: seq<T>, depth: nat, d: nat, lo: nat, counts: seq<nat>, starts: seq<nat>, t: seq<T>)
    requires Scanned(e, s, depth, d) && Counts(e.key, d, s, counts) && Layout(counts, lo, e.reverse, starts)
    requires Pieces(e, d, s, counts, starts, t) && lo + |s| <= |t|
    ensures Arranged(e, depth, s, t[lo..lo + |s|])
  {
    hide *;
    OffsetTotal(e.key, d, s, counts, e.reverse);
    ScannedFacts(e, s, depth, d, counts);
    PiecesSorted(e, d, s, counts, starts, t);
    FrontSorted(e, s, d, lo, counts, starts, t, BUCKETS);
    FrontWhole(e, lo, counts, t);
    forall g ensures Project(EngineOrder(e), g, t[lo..lo + |s|]) == Arrangement(e, depth, s, g) {
      FrontClass(e, s, depth, d, lo, counts, starts, t, BUCKETS, g);
      assert Place(e.reverse, BucketAt(e.key(g), d)) < BUCKETS;
    }
    ArrangedWhen(e, depth, s, t[lo..lo + |s|]);
  }

  lemma FrontWhole<T>(e: Engine<T>, lo: nat, counts: seq<nat>, t: seq<T>)
    requires |counts| == BUCKETS && lo + Offset(counts, e.reverse, BUCKETS) <= |t|
    ensures Front(e, lo, counts, t, BUCKETS) == t[lo..lo + Offset(counts, e.reverse, BUCKETS)]
  {
    hide Offset;
  }

  lemma ArrangedWhen<T(!new)>(e: Engine<T>, depth: nat, s: seq<T>, t: seq<T>)
    requires |t| == |s| && Sorted(EngineOrder(e), t)
    requires forall g :: Project(EngineOrder(e), g, t) == Arrangement(e, depth, s, g)
    ensures Arranged(e, depth, s, t)
  {
  }

  // ---------- The recursion ----------

  /** The buckets below `n` are arranged, the others still as dealt. */
  ghost predicate InProgress<T(!new)>(e: Engine<T>, d: nat, s: seq<T>, counts: seq<nat>, starts: seq<nat>, t: seq<T>, n: nat) {
    && |counts| == BUCKETS && |starts| == BUCKETS
    && forall b :: 0 <= b < BUCKETS ==>
      && starts[b] + counts[b] <= |t|
      && (b < n ==> Piece(e, d, s, counts, starts, t, b))
      && (n <= b ==> t[starts[b]..starts[b] + counts[b]] == Bucket(e.key, d, b, s))
  }

  lemma UntouchedArranged<T(!new)>(e: Engine<T>, depth: nat, s: seq<T>)
    requires |s| <= 1 <= e.threshold || (exists k: Text :: |k| < depth && AllKeys(e.key, s, k))
    ensures Arranged(e, depth, s, s)
  {
    forall k ensures !Flips(e, depth, s, k) {
      if |Filter(HasKey(e.key, k), s)| > e.threshold {
        HasKeyCount(e.key, k, s);
      }
    }
    if k: Text :| |k| < depth && AllKeys(e.key, s, k) {
      SortedAllEqual(e, s, k);
    }
    hide EngineOrder, Flips;
    StableIsArranged(e, depth, s, s);
  }

  /** The bucket of exhausted keys, and buckets of at most one element, are left
      alone by the source; they are arranged as they stand. */
  lemma SkippedBucket<T(!new)>(e: Engine<T>, s: seq<T>, d: nat, b: nat, counts: seq<nat>)
    requires Shares(e.key, s, d) && Counts(e.key, d, s, counts) && e.threshold >= 1 && b < BUCKETS
    requires b == 0 || counts[b] <= 1
    ensures Arranged(e, d + 1, Bucket(e.key, d, b, s), Bucket(e.key, d, b, s))
  {
    var q := Bucket(e.key, d, b, s);
    if b == 0 && |q| > 1 {
      var k := e.key(q[0]);
      forall x | x in q ensures e.key(x) == k && |k| < d + 1 {
        FilterMember(InBucket(e.key, d, b), s, x);
        FilterMember(InBucket(e.key, d, b), s, q[0]);
        BucketOrders(e.key(x), k, d);
      }
      assert AllKeys(e.key, q, k) && |k| < d + 1;
    }
    hide Arranged, Bucket;
    UntouchedArranged(e, d + 1, q);
  }

  lemma BucketShares<T>(e: Engine<T>, s: seq<T>, d: nat, b: nat)
    requires Shares(e.key, s, d) && b > 0
    ensures Shares(e.key, Bucket(e.key, d, b, s), d + 1)
  {
    var q := Bucket(e.key, d, b, s);
    forall x, y | x in q && y in q ensures SharePrefix(e.key(x), e.key(y), d + 1) {
      FilterMember(InBucket(e.key, d, b), s, x);
      FilterMember(InBucket(e.key, d, b), s, y);
      BucketOrders(e.key(x), e.key(y), d);
    }
  }

  lemma ProgressStart<T(!new)>(e: Engine<T>, s: seq<T>, d: nat, counts: seq<nat>, starts: seq<nat>, t: seq<T>)
    requires Grouped(e, d, s, counts, starts, t) && Shares(e.key, s, d) && Counts(e.key, d, s, counts) && e.threshold >= 1
    ensures InProgress(e, d, s, counts, starts, t, 1)
  {
    hide Arranged, Bucket, Counts, Shares;
    SkippedBucket(e, s, d, 0, counts);
  }

  lemma ProgressSkip<T(!new)>(e: Engine<T>, s: seq<T>, d: nat, counts: seq<nat>, starts: seq<nat>, t: seq<T>, b: nat)
    requires InProgress(e, d, s, counts, starts, t, b) && Shares(e.key, s, d) && Counts(e.key, d, s, counts) && e.threshold >= 1
    requires b < BUCKETS && counts[b] <= 1
    ensures InProgress(e, d, s, counts, starts, t, b + 1)
  {
    hide Arranged, Bucket, Counts, Shares;
    SkippedBucket(e, s, d, b, counts);
  }

  /** Arranging bucket `b` in place leaves the other buckets as they are. */
  lemma ProgressStep<T(!new)>(e: Engine<T>, s: seq<T>, d: nat, lo: nat, counts: seq<nat>, starts: seq<nat>, t: seq<T>, t': seq<T>, b: nat)
    requires InProgress(e, d, s, counts, starts, t, b) && Layout(counts, lo, e.reverse, starts)
    requires b < BUCKETS && |t'| == |t|
    requires forall k :: 0 <= k < |t| && !(starts[b] <= k < starts[b] + counts[b]) ==> t'[k] == t[k]
    requires Arranged(e, d + 1, Bucket(e.key, d, b, s), t'[starts[b]..starts[b] + counts[b]])
    ensures InProgress(e, d, s, counts, starts, t', b + 1)
  {
    hide Arranged, Bucket, Layout;
    forall i | 0 <= i < BUCKETS && i != b ensures t'[starts[i]..starts[i] + counts[i]] == t[starts[i]..starts[i] + counts[i]] {
      LayoutDisjoint(counts, lo, e.reverse, starts, i, b);
    }
  }

  lemma ProgressDone<T(!new)>(e: Engine<T>, d: nat, s: seq<T>, counts: seq<nat>, starts: seq<nat>, t: seq<T>)
    requires InProgress(e, d, s, counts, starts, t, BUCKETS)
    ensures Pieces(e, d, s, counts, starts, t)
  {
  }

  lemma ProgressBounds<T(!new)>(e: Engine<T>, s: seq<T>, d: nat, lo: nat, counts: seq<nat>, starts: seq<nat>, t: seq<T>, b: nat)
    requires InProgress(e, d, s, counts, starts, t, b) && b < BUCKETS
    requires Counts(e.key, d, s, counts) && Layout(counts, lo, e.reverse, starts)
    ensures |counts| == BUCKETS && |starts| == BUCKETS
    ensures lo <= starts[b] <= starts[b] + counts[b] <= lo + |s|
    ensures starts[b] + counts[b] <= |t| && t[starts[b]..starts[b] + counts[b]] == Bucket(e.key, d, b, s)
  {
    LayoutInRange(e.key, d, s, counts, lo, e.reverse, starts, b);
  }

  /** Depth at which the source continues: after the scan, if it has one. */
  method ScanDepth<T>(e: Engine<T>, items: array<T>, lo: nat, hi: nat, depth: nat) returns (d: nat)
    requires lo < hi <= items.Length && depth <= DEPTH_LIMIT && Shares(e.key, items[lo..hi], depth)
    ensures d == SkipDepth(e, items[lo..hi], depth) && depth <= d <= DEPTH_LIMIT
    ensures if Sentinel(e, items[lo..hi], depth) then d == DEPTH_LIMIT else Shares(e.key, items[lo..hi], d)
    ensures hi - lo > e.threshold && d < DEPTH_LIMIT ==> Scanned(e, items[lo..hi], depth, d)
  {
    SkipDepthIs(e, items[lo..hi], depth);
    if e.skipsPrefix {
      hide SkipDepth;
      d := SkipPrefix(e, items, lo, hi, depth);
    } else {
      d := depth;
    }
  }

  /** The recursive sort of a range whose keys share `depth` bytes. */
  method RadixRange<T(!new)>(e: Engine<T>, items: array<T>, aux: array<T>, lo: nat, hi: nat, depth: nat)
    requires lo < hi <= items.Length == aux.Length && items != aux
    requires e.threshold >= 1 && depth <= DEPTH_LIMIT && Shares(e.key, items[lo..hi], depth)
    modifies items, aux
    ensures Arranged(e, depth, old(items[lo..hi]), items[lo..hi])
    ensures forall k :: 0 <= k < items.Length && !(lo <= k < hi) ==> items[k] == old(items[k]) && aux[k] == old(aux[k])
    decreases DEPTH_LIMIT - depth, 2
  {
    hide *;
    ghost var s := items[lo..hi];
    var d := ScanDepth(e, items, lo, hi, depth);
    if hi - lo <= e.threshold || d >= DEPTH_LIMIT {
      InsertionRange(items, lo, hi, KeyOrderFrom(e.key, e.reverse, d));
      InsertionArranged(e, s, depth, d);
      return;
    }
    var counts, starts := Pass(e, items, aux, lo, hi, d);
    RadixBuckets(e, items, aux, lo, hi, d, counts, starts, s, depth);
    Assemble(e, s, depth, d, lo, counts, starts, items[..]);
  }

  /** The loop over the buckets of one pass. */
  method RadixBuckets<T(!new)>(e: Engine<T>, items: array<T>, aux: array<T>, lo: nat, hi: nat, d: nat,
                               counts: seq<nat>, starts: seq<nat>, ghost s: seq<T>, ghost depth: nat)
    requires lo < hi <= items.Length == aux.Length && items != aux && |s| == hi - lo
    requires e.threshold >= 1 && Scanned(e, s, depth, d)
    requires Counts(e.key, d, s, counts) && Layout(counts, lo, e.reverse, starts) && Grouped(e, d, s, counts, starts, items[..])
    modifies items, aux
    ensures Pieces(e, d, s, counts, starts, items[..])
    ensures forall k :: 0 <= k < items.Length && !(lo <= k < hi) ==> items[k] == old(items[k]) && aux[k] == old(aux[k])
    decreases DEPTH_LIMIT - d, 1
  {
    assert d < DEPTH_LIMIT && Shares(e.key, s, d) && BUCKETS == 257;
    hide *;
    ProgressStart(e, s, d, counts, starts, items[..]);
    var b := 1;
    while b < BUCKETS
      invariant 1 <= b <= BUCKETS
      invariant InProgress(e, d, s, counts, starts, items[..], b)
      invariant forall k :: 0 <= k < items.Length && !(lo <= k < hi) ==> items[k] == old(items[k]) && aux[k] == old(aux[k])
    {
      RadixBucket(e, items, aux, lo, hi, d, counts, starts, b, s);
      b := b + 1;
    }
    ProgressDone(e, d, s, counts, starts, items[..]);
  }

  method RadixBucket<T(!new)>(e: Engine<T>, items: array<T>, aux: array<T>, lo: nat, hi: nat, d: nat,
                              counts: seq<nat>, starts: seq<nat>, b: nat, ghost s: seq<T>)
    requires lo < hi <= items.Length == aux.Length && items != aux && |s| == hi - lo
    requires e.threshold >= 1 && d < DEPTH_LIMIT && Shares(e.key, s, d) && 1 <= b < BUCKETS
    requires Counts(e.key, d, s, counts) && Layout(counts, lo, e.reverse, starts)
    requires InProgress(e, d, s, counts, starts, items[..], b)
    modifies items, aux
    ensures InProgress(e, d, s, counts, starts, items[..], b + 1)
    ensures forall k :: 0 <= k < items.Length && !(lo <= k < hi) ==> items[k] == old(items[k]) && aux[k] == old(aux[k])
    decreases DEPTH_LIMIT - d, 0
  {
    hide *;
    ghost var t := items[..];
    ProgressBounds(e, s, d, lo, counts, starts, t, b);
    var start := starts[b];
    var end := start + counts[b];
    if end - start > 1 {
      assert items[start..end] == t[start..end];
      BucketShares(e, s, d, b);
      RadixRange(e, items, aux, start, end, d + 1);
      assert items[..][start..end] == items[start..end];
      ProgressStep(e, s, d, lo, counts, starts, t, items[..], b);
    } else {
      ProgressSkip(e, s, d, counts, starts, t, b);
    }
  }
}
