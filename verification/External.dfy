/** External sorting (src/external.c): runs cut at record boundaries, each sorted
    by the in-memory engines, merged group by group and then all together. */
module External {
  import opened Bytes
  import opened Comparator
  import opened DirectMerge
  import Fields
  import H = HeapMerge
  import K = KeyEngine
  import opened KeyExact
  import opened LineSort
  import opened Orders
  import opened RankSort
  import opened Records
  import opened KeyedRuns
  import M = StreamMerge
  import Threads
  import opened Unique

  // ---------- What must survive every stage ----------

  lemma KeptThrough<A(!new)>(c: (A, A) -> int, unique: bool, s: seq<A>, t: seq<A>, u: seq<A>)
    requires SameParts(c, unique, s, t) && SameParts(c, unique, t, u)
    ensures SameParts(c, unique, s, u)
  {
    hide Project, Part;
    forall g ensures SamePart(c, unique, g, s, u) {
      assert SamePart(c, unique, g, s, t) && SamePart(c, unique, g, t, u);
    }
  }

  lemma KeptConcat<A(!new)>(c: (A, A) -> int, unique: bool, s: seq<A>, t: seq<A>, s': seq<A>, t': seq<A>)
    requires SameParts(c, unique, s, t) && SameParts(c, unique, s', t')
    ensures SameParts(c, unique, s + s', t + t')
  {
    hide Project;
    forall g ensures SamePart(c, unique, g, s + s', t + t') {
      H.ClassOf(c, g, s, s');
      H.ClassOf(c, g, t, t');
      assert SamePart(c, unique, g, s, t) && SamePart(c, unique, g, s', t');
    }
  }

  /** The first of every class, or everything, in sorted order. */
  lemma EmittedKept<A(!new)>(c: (A, A) -> int, unique: bool, s: seq<A>)
    requires TotalPreorder(c)
    ensures SameParts(c, unique, s, Emitted(c, unique, StableSort(c, s)))
    ensures Sorted(c, Emitted(c, unique, StableSort(c, s)))
  {
    var t := StableSort(c, s);
    StableSortStable(c, s);
    hide TotalPreorder, StableSort, Project, Dedup;
    if unique {
      DedupIsUniqueSort(c, s, t);
      forall g ensures SamePart(c, true, g, s, Dedup(c, t)) {
        assert Project(c, g, Dedup(c, t)) == First(Project(c, g, s));
      }
    }
  }

  /** Sequences that stand for each other give the same final result. */
  lemma KeptEmits<A(!new)>(c: (A, A) -> int, unique: bool, s: seq<A>, t: seq<A>)
    requires TotalPreorder(c) && SameParts(c, unique, s, t)
    ensures Emitted(c, unique, StableSort(c, s)) == Emitted(c, unique, StableSort(c, t))
  {
    StableSortStable(c, s);
    StableSortStable(c, t);
    if unique {
      DedupIsUniqueSort(c, s, StableSort(c, s));
      DedupIsUniqueSort(c, t, StableSort(c, t));
      hide TotalPreorder, StableSort, Project, Dedup;
      var d := Dedup(c, StableSort(c, t));
      forall g ensures Project(c, g, d) == First(Project(c, g, s)) {
        assert SamePart(c, unique, g, s, t);
        assert Project(c, g, d) == First(Project(c, g, t));
      }
      UniqueSortIsUnique(c, s, Dedup(c, StableSort(c, s)), d);
    } else {
      hide TotalPreorder, StableSort, Project;
      forall g ensures Project(c, g, s) == Project(c, g, t) { assert SamePart(c, unique, g, s, t); }
      StableVia(c, s, t, StableSort(c, t));
      StableSortIs(c, s, StableSort(c, t));
    }
  }

  // ---------- Sorting one run ----------

  lemma UniqueZeros(x: Outside, o: Options)
    requires ValidOptions(o) && o.unique
    ensures SameZeros(UniqueOrder(x, o), CompareOrder(x, o))
  {
    hide LineOrder, KeysOrder;
  }

  lemma EmittedByOrder(x: Outside, o: Options, texts: seq<Text>)
    requires ValidOptions(o)
    ensures Written(x, o, texts) == Emitted(CompareOrder(x, o), o.unique, texts)
    ensures Written(x, o, texts) == Emitted(UniqueOrder(x, o), o.unique, texts)
  {
    hide UniqueOrder, CompareOrder;
    if o.unique {
      UniqueZeros(x, o);
      DedupAgrees(UniqueOrder(x, o), CompareOrder(x, o), texts);
    }
  }

  lemma OracleIsSort(x: Outside, o: Options, data: Text, items: seq<Line>)
    requires ValidOptions(o)
    ensures OracleTexts(x, o, data, items) == StableSort(CompareOrder(x, o), ItemTexts(data, items))
  {
    MapStableSort(LineText(data), CompareOrder(x, o), items);
  }

  /** A run stands for the records exactly when it shows, after dropping, what the
      sorted records show. */
  lemma RunStands(c: (Text, Text) -> int, unique: bool, records: seq<Text>, w: seq<Text>)
    requires TotalPreorder(c) && Sorted(c, w)
    ensures Emitted(c, unique, w) == Emitted(c, unique, StableSort(c, records)) <==> SameParts(c, unique, records, w)
  {
    var t := StableSort(c, records);
    StableSortStable(c, records);
    hide TotalPreorder, StableSort, Dedup, Project, Sorted;
    StableIsSorted(c, records, t);
    if Emitted(c, unique, w) == Emitted(c, unique, t) {
      forall g
        ensures SamePart(c, unique, g, records, w)
      {
        assert Project(c, g, records) == Project(c, g, t);
        if unique {
          DedupClass(c, w, g);
          DedupClass(c, t, g);
        }
      }
    }
    if SameParts(c, unique, records, w) {
      KeptEmits(c, unique, records, w);
      SortedIsSort(c, w);
    }
  }

  lemma SortedIsSort(c: (Text, Text) -> int, w: seq<Text>)
    requires TotalPreorder(c) && Sorted(c, w)
    ensures StableSort(c, w) == w
  {
    hide TotalPreorder, Sorted, Project, StableSort;
    StableSortIs(c, w, w);
  }

  /** `write_one_run`: sort as planned, write without dropping anything. */
  method WriteOneRun(x: Outside, o: Options, par: Threads.Parallelism, data: Text, items: seq<Line>) returns (w: seq<Text>)
    requires ValidOptions(o) && InBuffer(data, items)
    ensures RunOf(x, o, ItemTexts(data, items), w)
  {
    hide *;
    var lines := CopyLines(data, items);
    ghost var copies := lines[..];
    var plan := PlanFromOptions(o);
    NoFlags(ItemTexts(data, copies));
    var len, reversed := SortLines(x, o, data, lines, Monotonic(false, 0), plan, par);
    SortsMeans(x, o, data, copies, lines[..len], reversed);
    var plain := o.(unique := false);
    StillValid(o, plain);
    w := WriteLines(x, plain, data, lines, len, reversed);
    ghost var texts := Map(LineText(data), K.Output(lines[..len], reversed));
    PlainWritten(x, plain, texts);
    WholeWhen(o, data, copies, lines[..len], reversed);
    KeysLaid(o, data, copies, K.Output(lines[..len], reversed));
    RunWritten(x, o, data, copies, texts);
  }

  /** A run written for some records: in order, and standing for them; under the
      keyed plan with every group of ties as that engine leaves it. */
  ghost predicate RunOf(x: Outside, o: Options, records: seq<Text>, w: seq<Text>)
    requires ValidOptions(o)
  {
    && Sorted(CompareOrder(x, o), w)
    && Whole(o, records, w)
    && if PlanOf(o) == RadixKeys then Laid(TextPlan(o), records, w) else SameParts(CompareOrder(x, o), o.unique, records, w)
  }

  lemma KeysLaid(o: Options, data: Text, s: seq<Line>, out: seq<Line>)
    requires ValidOptions(o) && (PlanOf(o) == RadixKeys ==> KeySorted(o, data, s, out))
    ensures PlanOf(o) == RadixKeys ==> Laid(TextPlan(o), ItemTexts(data, s), Map(LineText(data), out))
  {
    hide *;
    KeySortedIs(o, data, s, out);
    if PlanOf(o) == RadixKeys {
      PlanOfTexts(o, data);
      TextsLaid(LineText(data), KeyPlan(o, data), TextPlan(o), s, out);
      ItemTextsAre(data, s);
    }
  }

  /** Nothing is made up, and unless `-u` drops records, every record is there as
      often as it was. */
  ghost predicate Whole(o: Options, records: seq<Text>, w: seq<Text>) {
    (forall t :: t in w ==> t in records) && (!o.unique ==> multiset(w) == multiset(records))
  }

  lemma WholeSame(o: Options, records: seq<Text>)
    ensures Whole(o, records, records)
  {
  }

  lemma WholeWhen(o: Options, data: Text, s: seq<Line>, items: seq<Line>, reversed: bool)
    requires TextsKept(data, s, items, reversed)
    requires !o.unique ==> multiset(Map(LineText(data), K.Output(items, reversed))) == multiset(ItemTexts(data, s))
    ensures Whole(o, ItemTexts(data, s), Map(LineText(data), K.Output(items, reversed)))
  {
    hide Map, K.Output, ItemTexts;
  }

  lemma WholeClean(o: Options, records: seq<Text>, w: seq<Text>, d: Byte)
    requires Whole(o, records, w) && Clean(records, d)
    ensures Clean(w, d)
  {
    forall i | 0 <= i < |w| ensures d !in w[i] {
      assert w[i] in records;
      var j :| 0 <= j < |records| && records[j] == w[i];
    }
  }

  lemma WholeConcat(o: Options, records: seq<Text>, w: seq<Text>, more: seq<Text>, v: seq<Text>)
    requires Whole(o, records, w) && Whole(o, more, v)
    ensures Whole(o, records + more, w + v)
  {
  }

  lemma WholeThrough(o: Options, records: seq<Text>, w: seq<Text>, v: seq<Text>)
    requires Whole(o, records, w) && Whole(o, w, v)
    ensures Whole(o, records, v)
  {
  }

  lemma EmittedWhole(x: Outside, o: Options, records: seq<Text>)
    requires ValidOptions(o)
    ensures Whole(o, records, Emitted(CompareOrder(x, o), o.unique, StableSort(CompareOrder(x, o), records)))
  {
    hide CompareOrder, TotalPreorder, StableSort, Project, Sorted;
    ComparePreorder(x, o);
    StableSortStable(CompareOrder(x, o), records);
    SameClassesPermutes(CompareOrder(x, o), records, StableSort(CompareOrder(x, o), records));
    var t := StableSort(CompareOrder(x, o), records);
    forall y | y in Emitted(CompareOrder(x, o), o.unique, t) ensures y in t { DedupMembers(CompareOrder(x, o), t, y); }
    hide Dedup;
  }

  method CopyLines(data: Text, items: seq<Line>) returns (lines: array<Line>)
    requires InBuffer(data, items)
    ensures fresh(lines) && InBuffer(data, lines[..]) && ItemTexts(data, lines[..]) == ItemTexts(data, items)
  {
    lines := new Line[|items|](i requires 0 <= i < |items| => Line(items[i].span, i, 0));
    forall i | 0 <= i < |items| ensures LineText(data)(lines[i]) == LineText(data)(items[i]) {
    }
  }

  lemma NoFlags(texts: seq<Text>)
    ensures Describes(Monotonic(false, 0), texts)
  {
  }

  lemma StillValid(o: Options, p: Options)
    requires ValidOptions(o) && p == o.(unique := false)
    ensures ValidOptions(p)
  {
  }

  lemma PlainWritten(x: Outside, p: Options, texts: seq<Text>)
    requires ValidOptions(p) && !p.unique
    ensures Written(x, p, texts) == texts
  {
  }

  lemma RunWritten(x: Outside, o: Options, data: Text, items: seq<Line>, w: seq<Text>)
    requires ValidOptions(o) && Sorted(CompareOrder(x, o), w)
    requires Written(x, o, w) == Written(x, o, OracleTexts(x, o, data, items)) <==> Faithful(o, ItemTexts(data, items))
    requires PlanOf(o) == RadixKeys ==> Laid(TextPlan(o), ItemTexts(data, items), w)
    requires Whole(o, ItemTexts(data, items), w)
    ensures RunOf(x, o, ItemTexts(data, items), w)
  {
    hide Whole, Sorted, CompareOrder, Laid, PlanOf, SameParts, Written, OracleTexts, ItemTexts, StableSort, Emitted, Harmless;
    ComparePreorder(x, o);
    OracleIsSort(x, o, data, items);
    EmittedByOrder(x, o, w);
    EmittedByOrder(x, o, OracleTexts(x, o, data, items));
    RunStands(CompareOrder(x, o), o.unique, ItemTexts(data, items), w);
  }

  // ---------- Merging runs ----------

  ghost predicate AllSorted(c: (Text, Text) -> int, runs: seq<seq<Text>>) {
    H.AllSorted(c, runs)
  }

  function Bounds(runs: seq<seq<Text>>): (b: seq<nat>)
    ensures |b| == |runs| + 1
  {
    if runs == [] then [0] else Bounds(runs[..|runs| - 1]) + [Bounds(runs[..|runs| - 1])[|runs| - 1] + |runs[|runs| - 1]|]
  }

  ghost predicate Piece(t: seq<Text>, from: nat, to: nat, r: seq<Text>) {
    from <= to <= |t| && t[from..to] == r
  }

  /** `b` cuts `t` into `runs`. */
  ghost predicate Cuts(t: seq<Text>, b: seq<nat>, runs: seq<seq<Text>>) {
    |b| == |runs| + 1 && forall k :: 0 <= k < |runs| ==> Piece(t, b[k], b[k + 1], runs[k])
  }

  lemma CutsSnoc(t: seq<Text>, b: seq<nat>, runs: seq<seq<Text>>, r: seq<Text>)
    requires H.Partition(b, |t|) && Cuts(t, b, runs)
    ensures H.Partition(b + [|t| + |r|], |t + r|) && Cuts(t + r, b + [|t| + |r|], runs + [r])
  {
    var b', t', runs' := b + [|t| + |r|], t + r, runs + [r];
    forall k | 0 <= k < |runs'| ensures Piece(t', b'[k], b'[k + 1], runs'[k]) {
      if k < |runs| {
        assert Piece(t, b[k], b[k + 1], runs[k]);
        assert t'[b[k]..b[k + 1]] == t[b[k]..b[k + 1]];
      }
    }
  }

  lemma {:induction false} BoundsCut(runs: seq<seq<Text>>)
    ensures H.Partition(Bounds(runs), |H.Flatten(runs)|) && Cuts(H.Flatten(runs), Bounds(runs), runs)
  {
    if runs == [] {
      assert H.Flatten(runs) == [];
    } else {
      var n := |runs| - 1;
      BoundsCut(runs[..n]);
      H.FlattenSnoc(runs);
      assert runs == runs[..n] + [runs[n]];
      assert Bounds(runs) == Bounds(runs[..n]) + [Bounds(runs[..n])[n] + |runs[n]|];
      hide Bounds, H.Flatten, Cuts;
      CutsSnoc(H.Flatten(runs[..n]), Bounds(runs[..n]), runs[..n], runs[n]);
    }
  }

  lemma RunsAgain(runs: seq<seq<Text>>)
    ensures var b, t := Bounds(runs), H.Flatten(runs);
      && H.Partition(b, |t|) && H.Placed(|t|, b[..|b| - 1], b[1..])
      && H.Rest(t, b[..|b| - 1], b[1..]) == runs
  {
    BoundsCut(runs);
    var b, t := Bounds(runs), H.Flatten(runs);
    H.PartitionPlaced(b, |t|);
    hide Bounds, H.Flatten, H.Partition;
    var r := H.Rest(t, b[..|b| - 1], b[1..]);
    forall k | 0 <= k < |runs| ensures r[k] == runs[k] {
      assert Piece(t, b[k], b[k + 1], runs[k]);
    }
  }

  /** How reading returns the bytes of a run that was written: in any chunks. */
  ghost predicate Chunks(chunking: Text -> seq<Text>) {
    forall t: Text :: Concat(chunking(t)) == t
  }

  lemma {:induction false} FlattenHas(runs: seq<seq<Text>>, k: nat, t: Text)
    requires k < |runs| && t in runs[k]
    ensures t in H.Flatten(runs)
  {
    H.FlattenSplit(runs, k);
  }

  lemma PartsClean(runs: seq<seq<Text>>, k: nat, d: Byte)
    requires Clean(H.Flatten(runs), d) && k < |runs|
    ensures Clean(runs[k], d)
  {
    hide H.Flatten;
    forall i | 0 <= i < |runs[k]| ensures d !in runs[k][i] {
      FlattenHas(runs, k, runs[k][i]);
      var j :| 0 <= j < |H.Flatten(runs)| && H.Flatten(runs)[j] == runs[k][i];
    }
  }

  /** The runs as streams of bytes to be read again. */
  function Streamed(runs: seq<seq<Text>>, d: Byte, chunking: Text -> seq<Text>): (r: seq<seq<Text>>)
    ensures |r| == |runs| && forall k :: 0 <= k < |runs| ==> r[k] == chunking(Join(runs[k], d))
  {
    seq(|runs|, k requires 0 <= k < |runs| => chunking(Join(runs[k], d)))
  }

  lemma StreamedBack(runs: seq<seq<Text>>, d: Byte, chunking: Text -> seq<Text>)
    requires Clean(H.Flatten(runs), d) && Chunks(chunking)
    ensures M.Sources(Streamed(runs, d, chunking), d) == runs
  {
    hide Split, Join, Concat, H.Flatten;
    var sources := Streamed(runs, d, chunking);
    forall k | 0 <= k < |runs| ensures M.Sources(sources, d)[k] == runs[k] {
      PartsClean(runs, k, d);
      RoundTrip(runs[k], d);
      assert Concat(chunking(Join(runs[k], d))) == Join(runs[k], d);
    }
  }

  lemma PlainTexts(x: Outside, o: Options)
    requires ValidOptions(o) && o.keys == [] && Plain(o)
    ensures Agree(CompareOrder(x, o), Directed(o.reverse, ByteOrder()))
    ensures SameZeros(UniqueOrder(x, o), ByteOrder())
  {
    forall a: Text, b: Text
      ensures CompareOrder(x, o)(a, b) == Directed(o.reverse, ByteOrder())(a, b)
      ensures UniqueOrder(x, o)(a, b) == 0 <==> ByteOrder()(a, b) == 0
    {
      FilteredNone(a, o.modifiers);
      FilteredNone(b, o.modifiers);
    }
  }

  lemma AgreedRuns(c: (Text, Text) -> int, d: (Text, Text) -> int, runs: seq<seq<Text>>)
    requires Agree(d, c) && AllSorted(c, runs)
    ensures H.AllSorted(d, runs)
  {
  }

  /** Whole lines by bytes: the runs are read again record by record. */
  method MergeBytes(x: Outside, o: Options, d: Byte, chunking: Text -> seq<Text>, runs: seq<seq<Text>>) returns (out: seq<Text>)
    requires ValidOptions(o) && o.keys == [] && Plain(o)
    requires AllSorted(CompareOrder(x, o), runs) && Clean(H.Flatten(runs), d) && Chunks(chunking)
    ensures out == Emitted(UniqueOrder(x, o), o.unique, StableSort(CompareOrder(x, o), H.Flatten(runs)))
  {
    hide *;
    PlainTexts(x, o);
    AgreesBack(CompareOrder(x, o), Directed(o.reverse, ByteOrder()));
    AgreedRuns(CompareOrder(x, o), Directed(o.reverse, ByteOrder()), runs);
    StreamedBack(runs, d, chunking);
    out := M.MergeStreams(o.reverse, o.unique, d, Streamed(runs, d, chunking));
    StableSortAgrees(CompareOrder(x, o), Directed(o.reverse, ByteOrder()), H.Flatten(runs));
    EmittedAgrees(UniqueOrder(x, o), ByteOrder(), o.unique, StableSort(CompareOrder(x, o), H.Flatten(runs)));
  }

  /** `rank_merge_all`: streaming, direct or prepared. */
  method MergeAll(x: Outside, o: Options, d: Byte, chunking: Text -> seq<Text>, runs: seq<seq<Text>>) returns (out: seq<Text>)
    requires ValidOptions(o)
    requires AllSorted(CompareOrder(x, o), runs) && Clean(H.Flatten(runs), d) && Chunks(chunking)
    ensures out == Emitted(UniqueOrder(x, o), o.unique, StableSort(CompareOrder(x, o), H.Flatten(runs)))
  {
    RunsAgain(runs);
    assert H.AllSorted(CompareOrder(x, o), runs);
    hide *;
    if o.keys == [] && Plain(o) {
      out := MergeBytes(x, o, d, chunking, runs);
    } else if FastModeOf(o).Fast? {
      out := MergeRecords(x, o, H.Flatten(runs), Bounds(runs));
    } else {
      ComparePreorder(x, o);
      var merged := H.MergeOrderLines(CompareOrder(x, o), H.Flatten(runs), Bounds(runs));
      out := WriteRecords(x, o, merged);
    }
  }

  lemma AgreesBack(c: (Text, Text) -> int, d: (Text, Text) -> int)
    requires Agree(c, d)
    ensures Agree(d, c)
  {
  }

  method WriteRecords(x: Outside, o: Options, records: seq<Text>) returns (out: seq<Text>)
    requires ValidOptions(o)
    ensures out == Emitted(UniqueOrder(x, o), o.unique, records)
  {
    hide *;
    out := [];
    WrittenStart(x, o, records);
    for i := 0 to |records|
      invariant out == Written(x, o, records[..i])
    {
      WrittenStep(x, o, records, i);
      out := EmitLine(x, o, out, records[i]);
    }
    assert records[..|records|] == records;
    EmittedByOrder(x, o, records);
  }

  /** Merging sorted runs leaves a sorted run that stands for them. */
  method MergeGroup(x: Outside, o: Options, d: Byte, chunking: Text -> seq<Text>, runs: seq<seq<Text>>) returns (out: seq<Text>)
    requires ValidOptions(o) && AllSorted(CompareOrder(x, o), runs) && Clean(H.Flatten(runs), d) && Chunks(chunking)
    ensures out == Emitted(CompareOrder(x, o), o.unique, StableSort(CompareOrder(x, o), H.Flatten(runs)))
    ensures Sorted(CompareOrder(x, o), out) && SameParts(CompareOrder(x, o), o.unique, H.Flatten(runs), out)
    ensures Whole(o, H.Flatten(runs), out)
  {
    hide *;
    out := MergeAll(x, o, d, chunking, runs);
    EmittedByOrder(x, o, StableSort(CompareOrder(x, o), H.Flatten(runs)));
    ComparePreorder(x, o);
    EmittedKept(CompareOrder(x, o), o.unique, H.Flatten(runs));
    EmittedWhole(x, o, H.Flatten(runs));
  }

  /** A group of runs holds no delimiter if all of them together do not. */
  lemma GroupClean(runs: seq<seq<Text>>, i: nat, j: nat, d: Byte)
    requires Clean(H.Flatten(runs), d) && i <= j <= |runs|
    ensures Clean(H.Flatten(runs[i..j]), d)
  {
    hide H.Flatten;
    var g := H.Flatten(runs[i..j]);
    forall n | 0 <= n < |g| ensures d !in g[n] {
      var k, m := H.FlattenMember(runs[i..j], g[n]);
      FlattenHas(runs, i + k, g[n]);
      var l :| 0 <= l < |H.Flatten(runs)| && H.Flatten(runs)[l] == g[n];
    }
  }

  // ---------- Reducing the number of runs ----------

  /** Runs left after one pass over `n` runs in groups of `batch`. */
  function PassLength(n: nat, batch: nat): nat
    requires batch >= 1
  {
    if n == 0 then 0 else 1 + PassLength(n - (if n < batch then n else batch), batch)
  }

  lemma {:induction false} PassBound(n: nat, batch: nat)
    requires batch >= 1
    ensures PassLength(n, batch) <= n
    ensures batch == 1 ==> PassLength(n, batch) == n
  {
    if n > 0 {
      PassBound(n - (if n < batch then n else batch), batch);
    }
  }

  /** A pass over too many runs makes progress exactly for batches of two or more;
      with a batch of one the reduction loop would never end. */
  lemma PassShrinks(n: nat, batch: nat)
    requires batch >= 1 && n > batch
    ensures PassLength(n, batch) < n <==> batch >= 2
  {
    PassBound(n, batch);
    PassBound(n - batch, batch);
  }

  /** The runs stand for the records, and each is sorted. */
  ghost predicate Stand(x: Outside, o: Options, records: seq<Text>, runs: seq<seq<Text>>)
    requires ValidOptions(o)
  {
    AllSorted(CompareOrder(x, o), runs) && SameParts(CompareOrder(x, o), o.unique, records, H.Flatten(runs))
  }

  lemma NothingStands(x: Outside, o: Options)
    requires ValidOptions(o)
    ensures Stand(x, o, [], [])
  {
    assert H.Flatten<Text>([]) == [];
  }

  /** One run more, for some records more. */
  lemma StandSnoc(x: Outside, o: Options, records: seq<Text>, runs: seq<seq<Text>>, more: seq<Text>, w: seq<Text>)
    requires ValidOptions(o) && Stand(x, o, records, runs)
    requires Sorted(CompareOrder(x, o), w) && SameParts(CompareOrder(x, o), o.unique, more, w)
    ensures Stand(x, o, records + more, runs + [w])
  {
    hide CompareOrder, Sorted, SameParts;
    H.FlattenSnoc(runs + [w]);
    assert (runs + [w])[..|runs|] == runs;
    KeptConcat(CompareOrder(x, o), o.unique, records, H.Flatten(runs), more, w);
  }

  lemma GroupSorted(c: (Text, Text) -> int, runs: seq<seq<Text>>, i: nat, j: nat)
    requires AllSorted(c, runs) && i <= j <= |runs|
    ensures AllSorted(c, runs[i..j])
  {
  }

  lemma {:induction false} FlattenAppend(a: seq<seq<Text>>, b: seq<seq<Text>>)
    ensures H.Flatten(a + b) == H.Flatten(a) + H.Flatten(b)
  {
    if b == [] {
      assert a + b == a && H.Flatten<Text>([]) == [];
    } else {
      var n := |b| - 1;
      H.FlattenSnoc(a + b);
      H.FlattenSnoc(b);
      assert (a + b)[..|a + b| - 1] == a + b[..n];
      FlattenAppend(a, b[..n]);
    }
  }

  lemma NextGroup(runs: seq<seq<Text>>, i: nat, count: nat)
    requires i + count <= |runs|
    ensures H.Flatten(runs[..i + count]) == H.Flatten(runs[..i]) + H.Flatten(runs[i..i + count])
  {
    assert runs[..i + count] == runs[..i] + runs[i..i + count];
    FlattenAppend(runs[..i], runs[i..i + count]);
  }

  /** One pass: every group of consecutive runs becomes one run. */
  method MergeGroups(x: Outside, o: Options, d: Byte, chunking: Text -> seq<Text>, batch: nat, runs: seq<seq<Text>>) returns (next: seq<seq<Text>>)
    requires ValidOptions(o) && batch >= 1 && AllSorted(CompareOrder(x, o), runs)
    requires Clean(H.Flatten(runs), d) && Chunks(chunking)
    ensures Stand(x, o, H.Flatten(runs), next) && Whole(o, H.Flatten(runs), H.Flatten(next))
    ensures |next| == PassLength(|runs|, batch)
  {
    hide *;
    next := [];
    var i := 0;
    NothingStands(x, o);
    NoRuns();
    WholeSame(o, []);
    PassStart(|runs|, batch);
    assert runs[..0] == [];
    while i < |runs|
      invariant 0 <= i <= |runs|
      invariant Stand(x, o, H.Flatten(runs[..i]), next) && Whole(o, H.Flatten(runs[..i]), H.Flatten(next))
      invariant |next| + PassLength(|runs| - i, batch) == PassLength(|runs|, batch)
    {
      var count := if |runs| - i < batch then |runs| - i else batch;
      GroupSorted(CompareOrder(x, o), runs, i, i + count);
      GroupClean(runs, i, i + count, d);
      var w := MergeGroup(x, o, d, chunking, runs[i..i + count]);
      NextGroup(runs, i, count);
      StandSnoc(x, o, H.Flatten(runs[..i]), next, H.Flatten(runs[i..i + count]), w);
      WholeSnoc(o, H.Flatten(runs[..i]), next, H.Flatten(runs[i..i + count]), w);
      PassStart(|runs| - i, batch);
      next := next + [w];
      i := i + count;
    }
    PassStart(0, batch);
    assert runs[..|runs|] == runs;
  }

  lemma NoRuns()
    ensures H.Flatten<Text>([]) == []
  {
  }

  lemma WholeSnoc(o: Options, records: seq<Text>, runs: seq<seq<Text>>, more: seq<Text>, w: seq<Text>)
    requires Whole(o, records, H.Flatten(runs)) && Whole(o, more, w)
    ensures Whole(o, records + more, H.Flatten(runs + [w]))
  {
    hide Whole, H.Flatten;
    H.FlattenSnoc(runs + [w]);
    assert (runs + [w])[..|runs|] == runs;
    WholeConcat(o, records, H.Flatten(runs), more, w);
  }

  lemma PassStart(n: nat, batch: nat)
    requires batch >= 1
    ensures PassLength(n, batch) == if n == 0 then 0 else 1 + PassLength(n - (if n < batch then n else batch), batch)
  {
  }

  lemma StandThrough(x: Outside, o: Options, records: seq<Text>, runs: seq<seq<Text>>, next: seq<seq<Text>>)
    requires ValidOptions(o) && Stand(x, o, records, runs) && Stand(x, o, H.Flatten(runs), next)
    ensures Stand(x, o, records, next)
  {
    hide CompareOrder, SameParts;
    KeptThrough(CompareOrder(x, o), o.unique, records, H.Flatten(runs), H.Flatten(next));
  }

  lemma StandSame(x: Outside, o: Options, runs: seq<seq<Text>>)
    requires ValidOptions(o) && AllSorted(CompareOrder(x, o), runs)
    ensures Stand(x, o, H.Flatten(runs), runs)
  {
    hide CompareOrder, Project, H.Flatten;
  }

  lemma StandSorted(x: Outside, o: Options, records: seq<Text>, runs: seq<seq<Text>>)
    requires ValidOptions(o) && Stand(x, o, records, runs)
    ensures AllSorted(CompareOrder(x, o), runs)
  {
  }

  /** `reduce_temp_runs`: passes until the runs fit one merge.  It ends for no
      batch size, and for one of at least two, and where nothing is to be done. */
  method ReduceRuns(x: Outside, o: Options, d: Byte, chunking: Text -> seq<Text>, batch: nat, runs: seq<seq<Text>>) returns (reduced: seq<seq<Text>>)
    requires ValidOptions(o) && (batch == 1 ==> |runs| <= 1) && AllSorted(CompareOrder(x, o), runs)
    requires Clean(H.Flatten(runs), d) && Chunks(chunking)
    ensures Stand(x, o, H.Flatten(runs), reduced)
    ensures Whole(o, H.Flatten(runs), H.Flatten(reduced))
    ensures batch >= 1 ==> |reduced| <= batch
  {
    hide *;
    reduced := runs;
    StandSame(x, o, runs);
    WholeSame(o, H.Flatten(runs));
    if batch == 0 || |runs| <= batch {
      return;
    }
    while |reduced| > batch
      invariant Stand(x, o, H.Flatten(runs), reduced)
      invariant Whole(o, H.Flatten(runs), H.Flatten(reduced))
      decreases |reduced|
    {
      WholeClean(o, H.Flatten(runs), H.Flatten(reduced), d);
      StandSorted(x, o, H.Flatten(runs), reduced);
      var next := MergeGroups(x, o, d, chunking, batch, reduced);
      StandThrough(x, o, H.Flatten(runs), reduced, next);
      WholeThrough(o, H.Flatten(runs), H.Flatten(reduced), H.Flatten(next));
      PassShrinks(|reduced|, batch);
      reduced := next;
    }
  }

  // ---------- Forming runs ----------

  /** How a stream is cut into runs: the records of the runs already cut off, those
      collected since, the bytes buffered for them, and the unfinished record. */
  datatype Cutting = Cutting(done: seq<seq<Text>>, current: seq<Text>, size: nat, pending: Text)

  ghost function TakeBytes(c: Cutting, chunk: Text, d: Byte): Cutting {
    Cutting(c.done, c.current + Complete(c.pending + chunk, d), c.size + |chunk|, Tail(c.pending + chunk, d))
  }

  /** A run ends only where a record does, once enough bytes are buffered. */
  ghost function CutIfNeeded(c: Cutting, bufferSize: nat): Cutting {
    if c.current != [] && c.pending == [] && c.size >= bufferSize then CutOff(c) else c
  }

  ghost function CutOff(c: Cutting): Cutting {
    Cutting(c.done + [c.current], [], 0, [])
  }

  ghost function CutChunks(c: Cutting, chunks: seq<Text>, d: Byte, bufferSize: nat): Cutting {
    if chunks == [] then c
    else CutIfNeeded(TakeBytes(CutChunks(c, chunks[..|chunks| - 1], d, bufferSize), chunks[|chunks| - 1], d), bufferSize)
  }

  /** An unterminated last record ends with its file. */
  ghost function EndRecord(c: Cutting): Cutting {
    if c.pending == [] then c else Cutting(c.done, c.current + [c.pending], c.size, [])
  }

  ghost function CutFile(c: Cutting, chunks: seq<Text>, d: Byte, bufferSize: nat): Cutting {
    var e := CutChunks(c, chunks, d, bufferSize);
    if e.pending == [] then e else CutIfNeeded(EndRecord(e), bufferSize)
  }

  ghost function CutFiles(files: seq<seq<Text>>, d: Byte, bufferSize: nat): Cutting {
    if files == [] then Cutting([], [], 0, [])
    else CutFile(CutFiles(files[..|files| - 1], d, bufferSize), files[|files| - 1], d, bufferSize)
  }

  /** The records of each run that external sorting forms. */
  ghost function RunRecords(files: seq<seq<Text>>, d: Byte, bufferSize: nat): seq<seq<Text>> {
    var c := CutFiles(files, d, bufferSize);
    if c.current == [] then c.done else CutOff(c).done
  }

  ghost function Cut(c: Cutting): seq<Text> {
    H.Flatten(c.done) + c.current
  }

  lemma CutOffKeeps(c: Cutting)
    ensures Cut(CutOff(c)) == Cut(c)
  {
    H.FlattenSnoc(c.done + [c.current]);
    assert (c.done + [c.current])[..|c.done|] == c.done;
  }

  lemma CutIfKeeps(c: Cutting, bufferSize: nat)
    ensures Cut(CutIfNeeded(c, bufferSize)) == Cut(c) && CutIfNeeded(c, bufferSize).pending == c.pending
  {
    hide Cut;
    CutOffKeeps(c);
  }

  lemma TakeKeeps(c: Cutting, chunk: Text, d: Byte)
    ensures Cut(TakeBytes(c, chunk, d)) == Cut(c) + Complete(c.pending + chunk, d)
    ensures TakeBytes(c, chunk, d).pending == Tail(c.pending + chunk, d)
  {
    hide Complete, Tail, H.Flatten;
  }

  lemma EndKeeps(c: Cutting)
    ensures Cut(EndRecord(c)) == Cut(c) + (if c.pending == [] then [] else [c.pending]) && EndRecord(c).pending == []
  {
    hide H.Flatten;
  }

  lemma {:induction false} ChunksKept(c: Cutting, chunks: seq<Text>, d: Byte, bufferSize: nat)
    requires c.pending == []
    ensures var e := CutChunks(c, chunks, d, bufferSize);
      Cut(e) == Cut(c) + Complete(Concat(chunks), d) && e.pending == Tail(Concat(chunks), d)
  {
    hide Complete, Tail, Cut, CutIfNeeded, TakeBytes;
    if chunks == [] {
      NothingRead(d);
    } else {
      var n := |chunks| - 1;
      var read := Concat(chunks[..n]);
      ChunksKept(c, chunks[..n], d, bufferSize);
      var e := CutChunks(c, chunks[..n], d, bufferSize);
      TakeKeeps(e, chunks[n], d);
      CutIfKeeps(TakeBytes(e, chunks[n], d), bufferSize);
      SplitAppend(read, chunks[n], d);
      assert Cut(c) + Complete(read, d) + Complete(Tail(read, d) + chunks[n], d) == Cut(c) + (Complete(read, d) + Complete(Tail(read, d) + chunks[n], d));
    }
  }

  lemma FileKept(c: Cutting, chunks: seq<Text>, d: Byte, bufferSize: nat)
    requires c.pending == []
    ensures var e := CutFile(c, chunks, d, bufferSize);
      Cut(e) == Cut(c) + Split(Concat(chunks), d) && e.pending == []
  {
    hide Complete, Tail, Cut, CutIfNeeded, EndRecord, CutChunks, Split;
    var e := CutChunks(c, chunks, d, bufferSize);
    ChunksKept(c, chunks, d, bufferSize);
    SplitIs(Concat(chunks), d);
    EndKeeps(e);
    CutIfKeeps(EndRecord(e), bufferSize);
    var last := if e.pending == [] then [] else [e.pending];
    assert Cut(c) + Complete(Concat(chunks), d) + last == Cut(c) + (Complete(Concat(chunks), d) + last);
  }

  lemma {:induction false} FilesKept(files: seq<seq<Text>>, d: Byte, bufferSize: nat)
    ensures var c := CutFiles(files, d, bufferSize); Cut(c) == FileRecords(files, d) && c.pending == []
  {
    if files == [] {
      NoRuns();
    } else {
      hide CutFile, Split, Concat, Cut;
      FilesKept(files[..|files| - 1], d, bufferSize);
      FileKept(CutFiles(files[..|files| - 1], d, bufferSize), files[|files| - 1], d, bufferSize);
    }
  }

  /** Whatever the buffer size and the chunks, the runs hold the records of the
      files, in order. */
  lemma RunsHoldRecords(files: seq<seq<Text>>, d: Byte, bufferSize: nat)
    ensures H.Flatten(RunRecords(files, d, bufferSize)) == FileRecords(files, d)
  {
    hide CutFiles, FileRecords, H.Flatten;
    FilesKept(files, d, bufferSize);
    CutOffKeeps(CutFiles(files, d, bufferSize));
  }

  /** A run for each of the record sequences. */
  ghost predicate RunsOf(x: Outside, o: Options, cut: seq<seq<Text>>, runs: seq<seq<Text>>)
    requires ValidOptions(o)
  {
    |cut| == |runs| && forall k :: 0 <= k < |cut| ==> RunOf(x, o, cut[k], runs[k])
  }

  lemma RunsSorted(x: Outside, o: Options, cut: seq<seq<Text>>, runs: seq<seq<Text>>)
    requires ValidOptions(o) && RunsOf(x, o, cut, runs)
    ensures |runs| == |cut| && AllSorted(CompareOrder(x, o), runs)
  {
    hide CompareOrder, SameParts, Faithful, Sorted;
    forall k | 0 <= k < |runs| ensures Sorted(CompareOrder(x, o), runs[k]) {
      assert RunOf(x, o, cut[k], runs[k]);
    }
  }

  lemma RunsSnoc(x: Outside, o: Options, cut: seq<seq<Text>>, runs: seq<seq<Text>>)
    requires ValidOptions(o) && RunsOf(x, o, cut, runs) && cut != []
    ensures |runs| == |cut| && runs == runs[..|cut| - 1] + [runs[|cut| - 1]]
    ensures RunsOf(x, o, cut[..|cut| - 1], runs[..|cut| - 1])
    ensures RunOf(x, o, cut[|cut| - 1], runs[|cut| - 1])
  {
    hide RunOf;
  }

  lemma RunOfMeans(x: Outside, o: Options, records: seq<Text>, w: seq<Text>)
    requires ValidOptions(o) && RunOf(x, o, records, w)
    ensures Sorted(CompareOrder(x, o), w) && Whole(o, records, w)
    ensures PlanOf(o) != RadixKeys ==> SameParts(CompareOrder(x, o), o.unique, records, w)
  {
    hide Sorted, Whole, PlanOf, SameParts, CompareOrder, Laid;
  }

  lemma {:induction false} RunsWhole(x: Outside, o: Options, cut: seq<seq<Text>>, runs: seq<seq<Text>>)
    requires ValidOptions(o) && RunsOf(x, o, cut, runs)
    ensures Whole(o, H.Flatten(cut), H.Flatten(runs))
  {
    if cut == [] {
      assert runs == cut;
    } else {
      hide *;
      var n := |cut| - 1;
      RunsSnoc(x, o, cut, runs);
      RunsWhole(x, o, cut[..n], runs[..n]);
      H.FlattenSnoc(cut);
      RunOfMeans(x, o, cut[n], runs[n]);
      WholeSnoc(o, H.Flatten(cut[..n]), runs[..n], cut[n], runs[n]);
    }
  }

  /** Other plans than the keyed one lose nothing. */
  lemma {:induction false} RunsStand(x: Outside, o: Options, cut: seq<seq<Text>>, runs: seq<seq<Text>>)
    requires ValidOptions(o) && RunsOf(x, o, cut, runs) && PlanOf(o) != RadixKeys
    ensures Stand(x, o, H.Flatten(cut), runs)
  {
    if cut == [] {
      assert runs == cut;
      NothingStands(x, o);
      NoRuns();
    } else {
      hide *;
      var n := |cut| - 1;
      RunsSnoc(x, o, cut, runs);
      RunsStand(x, o, cut[..n], runs[..n]);
      H.FlattenSnoc(cut);
      RunOfMeans(x, o, cut[n], runs[n]);
      StandSnoc(x, o, H.Flatten(cut[..n]), runs[..n], cut[n], runs[n]);
    }
  }

  /** External sorting is faithful on records cut into such runs: always, unless the
      plan is the keyed one and some run shows a reversal that matters. */
  ghost predicate FaithfulRuns(o: Options, cut: seq<seq<Text>>)
    requires ValidOptions(o)
  {
    PlanOf(o) == RadixKeys ==> HarmlessRuns(TextPlan(o), cut)
  }

  lemma RunsLaid(x: Outside, o: Options, cut: seq<seq<Text>>, runs: seq<seq<Text>>)
    requires ValidOptions(o) && RunsOf(x, o, cut, runs) && PlanOf(o) == RadixKeys
    ensures LaidRuns(TextPlan(o), cut, runs)
  {
    hide Sorted, Whole, PlanOf, SameParts, CompareOrder, Laid, TextPlan;
    forall k | 0 <= k < |cut| ensures Laid(TextPlan(o), cut[k], runs[k]) {
      assert RunOf(x, o, cut[k], runs[k]);
    }
  }

  lemma SamePartsAgree<A(!new)>(c: (A, A) -> int, e: (A, A) -> int, unique: bool, s: seq<A>, t: seq<A>)
    requires Agree(c, e)
    ensures SameParts(c, unique, s, t) <==> SameParts(e, unique, s, t)
  {
    forall g ensures SamePart(c, unique, g, s, t) <==> SamePart(e, unique, g, s, t) {
      FilterSame(Like(c, g), Like(e, g), s);
      FilterSame(Like(c, g), Like(e, g), t);
    }
  }

  lemma TextPlanIs(o: Options)
    requires ValidOptions(o)
    ensures TextPlan(o).unique == o.unique && forall t :: TextPlan(o).text(t) == t
  {
  }

  lemma KeyedRunsStand(x: Outside, o: Options, cut: seq<seq<Text>>, runs: seq<seq<Text>>)
    requires ValidOptions(o) && RunsOf(x, o, cut, runs) && PlanOf(o) == RadixKeys && BytesOnly(o) && o.keys != []
    ensures SameParts(CompareOrder(x, o), o.unique, H.Flatten(cut), H.Flatten(runs)) <==> HarmlessRuns(TextPlan(o), cut)
  {
    hide *;
    RunsLaid(x, o, cut, runs);
    TextPlanIs(o);
    RunsExact(TextPlan(o), cut, runs);
    TextPlanAgrees(x, o);
    SamePartsAgree(K.OrderFrom(TextPlan(o), 0), CompareOrder(x, o), o.unique, H.Flatten(cut), H.Flatten(runs));
  }

  /** Exactly then the runs stand for all the records. */
  lemma RunsStandExactly(x: Outside, o: Options, cut: seq<seq<Text>>, runs: seq<seq<Text>>)
    requires ValidOptions(o) && RunsOf(x, o, cut, runs)
    ensures SameParts(CompareOrder(x, o), o.unique, H.Flatten(cut), H.Flatten(runs)) <==> FaithfulRuns(o, cut)
  {
    PlanMeans(o);
    hide RunsOf, PlanOf, SameParts, CompareOrder, TextPlan, HarmlessRuns, H.Flatten, BytesOnly;
    if PlanOf(o) == RadixKeys {
      KeyedRunsStand(x, o, cut, runs);
    } else {
      RunsStand(x, o, cut, runs);
    }
  }

  /** The run being collected and those already written. */
  class RunBuffer {
    const x: Outside
    const o: Options
    const par: Threads.Parallelism
    const d: Byte
    const bufferSize: nat
    var data: Text
    var items: seq<Line>
    var recordStart: nat
    var runs: seq<seq<Text>>
    /** The records of each run already written. */
    ghost var done: seq<seq<Text>>

    ghost predicate Valid()
      reads this
    {
      Scanning() && Undelimited(data, recordStart, |data|, d)
    }

    /** The part of `Valid` that holds in the middle of a scan. */
    ghost predicate Scanning()
      reads this
    {
      && ValidOptions(o) && RunsOf(x, o, done, runs)
      && InBuffer(data, items) && recordStart <= |data| && (items == [] ==> recordStart == 0)
    }

    /** Where the cutting stands. */
    ghost function State(): Cutting
      reads this
      requires Valid()
    {
      Cutting(done, ItemTexts(data, items), |data|, data[recordStart..])
    }

    constructor (x: Outside, o: Options, par: Threads.Parallelism, d: Byte, bufferSize: nat)
      requires ValidOptions(o)
      ensures Valid() && State() == Cutting([], [], 0, []) && recordStart == |data|
      ensures this.x == x && this.o == o && this.d == d && this.bufferSize == bufferSize
    {
      this.x, this.o, this.par, this.d, this.bufferSize := x, o, par, d, bufferSize;
      data, items, recordStart, runs, done := [], [], 0, [], [];
    }

    /** `add_run_line`, which ends the pending record at `end`. */
    method AddRunLine(end: nat)
      requires InBuffer(data, items) && recordStart <= end <= |data|
      modifies this`items
      ensures InBuffer(data, items) && items != []
      ensures ItemTexts(data, items) == old(ItemTexts(data, items)) + [data[recordStart..end]]
    {
      hide InBuffer, ItemTexts;
      LineAdded(data, items, recordStart, end - recordStart);
      items := items + [Line(Span(recordStart, end - recordStart), |items|, 0)];
      assert recordStart + (end - recordStart) == end;
    }

    /** `append_run_bytes` and `parse_run_records`: one chunk. */
    method TakeChunk(chunk: Text)
      requires Valid()
      modifies this`data, this`items, this`recordStart
      ensures Valid() && State() == TakeBytes(old(State()), chunk, d)
    {
      hide RunsOf, ValidOptions, InBuffer, ItemTexts, Complete, Tail;
      var i := |data|;
      ghost var before, all := ItemTexts(data, items), data[recordStart..] + chunk;
      TextsGrow(data, chunk, items);
      StillUndelimited(data, chunk, recordStart, d);
      assert (data + chunk)[recordStart..] == all;
      data := data + chunk;
      hide Undelimited;
      while i < |data|
        invariant Scanning() && recordStart <= i <= |data| && Undelimited(data, recordStart, i, d)
        invariant ItemTexts(data, items) + Complete(data[recordStart..], d) == before + Complete(all, d)
        invariant Tail(data[recordStart..], d) == Tail(all, d)
        invariant data == old(data) + chunk
        decreases |data| - i
      {
        i := NextDelimiter(i);
      }
      NoMoreRecords(data, d, recordStart);
      assert ItemTexts(data, items) + [] == ItemTexts(data, items);
    }

    /** One turn of the scan: to the next delimiter, or to the end of the data. */
    method NextDelimiter(i: nat) returns (next: nat)
      requires Scanning() && recordStart <= i < |data| && Undelimited(data, recordStart, i, d)
      modifies this`items, this`recordStart
      ensures Scanning() && i < next && recordStart <= next <= |data| && Undelimited(data, recordStart, next, d)
      ensures ItemTexts(data, items) + Complete(data[recordStart..], d) == old(ItemTexts(data, items) + Complete(data[recordStart..], d))
      ensures Tail(data[recordStart..], d) == old(Tail(data[recordStart..], d))
    {
      hide RunsOf, ValidOptions, InBuffer, ItemTexts, Complete, Tail, Undelimited;
      var hit := Fields.FindByte(data, i, d);
      FoundNext(data, recordStart, i, hit, d);
      if hit == |data| {
        return hit;
      }
      ghost var before, t := ItemTexts(data, items), data[recordStart..recordStart + (hit - recordStart)];
      assert recordStart + (hit - recordStart) == hit;
      AddRunLine(hit);
      assert before + ([t] + Complete(data[hit + 1..], d)) == ItemTexts(data, items) + Complete(data[hit + 1..], d);
      recordStart := hit + 1;
      NothingBetween(data, recordStart, d);
      next := hit + 1;
    }

    /** `flush_run`: sorts the collected records, writes them, starts afresh. */
    method FlushRun()
      requires Valid() && recordStart == |data|
      modifies this`data, this`items, this`recordStart, this`runs, this`done
      ensures Valid() && State() == CutOff(old(State()))
    {
      hide RunOf, ValidOptions, ItemTexts;
      var w := WriteOneRun(x, o, par, data, items);
      NoItems();
      done := done + [ItemTexts(data, items)];
      runs := runs + [w];
      data, items, recordStart := [], [], 0;
    }

    /** `flush_run_if_needed`: only where a record ends, and only when there is
        enough. */
    method FlushIfNeeded()
      requires Valid()
      modifies this`data, this`items, this`recordStart, this`runs, this`done
      ensures Valid() && State() == CutIfNeeded(old(State()), bufferSize)
    {
      if |items| > 0 && recordStart == |data| && |data| >= bufferSize {
        FlushRun();
      }
    }

    /** `read_stream_runs`: one input file, in whatever chunks it comes. */
    method ReadStream(chunks: seq<Text>)
      requires Valid() && recordStart == |data|
      modifies this`data, this`items, this`recordStart, this`runs, this`done
      ensures Valid() && recordStart == |data|
      ensures State() == CutFile(old(State()), chunks, d, bufferSize)
    {
      hide RunsOf, ValidOptions, InBuffer, ItemTexts, Complete, Tail, Undelimited, CutIfNeeded, TakeBytes, CutChunks;
      ghost var before := State();
      ChunksNone(before, d, bufferSize);
      assert chunks[..0] == [];
      for i := 0 to |chunks|
        invariant Valid() && State() == CutChunks(before, chunks[..i], d, bufferSize)
      {
        ChunksSnoc(before, chunks, i, d, bufferSize);
        TakeChunk(chunks[i]);
        FlushIfNeeded();
      }
      assert chunks[..|chunks|] == chunks;
      if recordStart < |data| {
        ghost var last := State();
        AddRunLine(|data|);
        assert data[recordStart..|data|] == last.pending;
        recordStart := |data|;
        NothingBetween(data, recordStart, d);
        assert State() == EndRecord(last);
        FlushIfNeeded();
        CutEnds(EndRecord(last), bufferSize);
      }
    }

    /** Whatever is left becomes the last run. */
    method Finish()
      requires Valid() && recordStart == |data|
      modifies this`data, this`items, this`recordStart, this`runs, this`done
      ensures Valid() && RunsOf(x, o, done, runs)
      ensures done == (if old(State()).current == [] then old(State()).done else CutOff(old(State())).done)
    {
      if |items| > 0 {
        FlushRun();
      }
    }
  }

  lemma ChunksNone(c: Cutting, d: Byte, bufferSize: nat)
    ensures CutChunks(c, [], d, bufferSize) == c
  {
  }

  lemma ChunksSnoc(c: Cutting, chunks: seq<Text>, i: nat, d: Byte, bufferSize: nat)
    requires i < |chunks|
    ensures CutChunks(c, chunks[..i + 1], d, bufferSize) == CutIfNeeded(TakeBytes(CutChunks(c, chunks[..i], d, bufferSize), chunks[i], d), bufferSize)
  {
    assert chunks[..i + 1][..i] == chunks[..i];
  }

  lemma CutEnds(c: Cutting, bufferSize: nat)
    requires c.pending == []
    ensures CutIfNeeded(c, bufferSize).pending == []
  {
  }

  lemma NoItems()
    ensures forall data: Text :: ItemTexts(data, []) == []
    ensures InBuffer([], [])
  {
  }

  // ---------- The whole of it ----------

  /** The records of several files, each split on its own. */
  ghost function FileRecords(files: seq<seq<Text>>, d: Byte): seq<Text> {
    if files == [] then []
    else FileRecords(files[..|files| - 1], d) + Split(Concat(files[|files| - 1]), d)
  }

  lemma FileRecordsSnoc(files: seq<seq<Text>>, d: Byte, i: nat)
    requires i < |files|
    ensures FileRecords(files[..i + 1], d) == FileRecords(files[..i], d) + Split(Concat(files[i]), d)
  {
    assert files[..i + 1][..i] == files[..i];
  }

  lemma {:induction false} FilesClean(files: seq<seq<Text>>, d: Byte)
    ensures Clean(FileRecords(files, d), d)
  {
    if files != [] {
      FilesClean(files[..|files| - 1], d);
      SplitClean(Concat(files[|files| - 1]), d);
    }
  }

  lemma FilesSnoc(files: seq<seq<Text>>, i: nat, d: Byte, bufferSize: nat)
    requires i < |files|
    ensures CutFiles(files[..i + 1], d, bufferSize) == CutFile(CutFiles(files[..i], d, bufferSize), files[i], d, bufferSize)
  {
    assert files[..i + 1][..i] == files[..i];
  }

  lemma NoFiles(d: Byte, bufferSize: nat)
    ensures CutFiles([], d, bufferSize) == Cutting([], [], 0, [])
  {
  }

  method FormRuns(x: Outside, o: Options, par: Threads.Parallelism, d: Byte, bufferSize: nat, files: seq<seq<Text>>) returns (runs: seq<seq<Text>>)
    requires ValidOptions(o)
    ensures RunsOf(x, o, RunRecords(files, d, bufferSize), runs)
  {
    hide *;
    var buffer := new RunBuffer(x, o, par, d, bufferSize);
    assert files[..0] == [];
    NoFiles(d, bufferSize);
    for i := 0 to |files|
      invariant buffer.Valid() && buffer.recordStart == |buffer.data| && fresh(buffer)
      invariant buffer.State() == CutFiles(files[..i], d, bufferSize)
    {
      FilesSnoc(files, i, d, bufferSize);
      buffer.ReadStream(files[i]);
    }
    assert files[..|files|] == files;
    RunRecordsAre(files, d, bufferSize);
    buffer.Finish();
    runs := buffer.runs;
  }

  lemma RunRecordsAre(files: seq<seq<Text>>, d: Byte, bufferSize: nat)
    ensures var c := CutFiles(files, d, bufferSize);
      RunRecords(files, d, bufferSize) == if c.current == [] then c.done else CutOff(c).done
  {
  }

  /** External sorting, for any buffer size, chunks and threads, and any batch size
      with which the reduction ends: the output is in order and, unless `-u` drops
      them, holds all records; it is what one stable sort of all records writes
      exactly when sorting the runs is faithful. */
  method ExternalSort(x: Outside, o: Options, par: Threads.Parallelism, chunking: Text -> seq<Text>, d: Byte, bufferSize: nat, batch: nat, files: seq<seq<Text>>) returns (out: seq<Text>)
    requires ValidOptions(o) && Chunks(chunking)
    requires batch == 1 ==> |RunRecords(files, d, bufferSize)| <= 1
    ensures Sorted(CompareOrder(x, o), out) && Whole(o, FileRecords(files, d), out)
    ensures out == Written(x, o, StableSort(CompareOrder(x, o), FileRecords(files, d))) <==>
      FaithfulRuns(o, RunRecords(files, d, bufferSize))
  {
    hide *;
    ghost var cut, records := RunRecords(files, d, bufferSize), FileRecords(files, d);
    var runs := FormRuns(x, o, par, d, bufferSize, files);
    RunsSorted(x, o, cut, runs);
    RunsHoldRecords(files, d, bufferSize);
    RunsStandExactly(x, o, cut, runs);
    RunsWhole(x, o, cut, runs);
    ghost var formed := H.Flatten(runs);
    FilesClean(files, d);
    WholeClean(o, records, formed, d);
    runs := ReduceRuns(x, o, d, chunking, batch, runs);
    WholeThrough(o, records, formed, H.Flatten(runs));
    StandsWritten(x, o, records, formed, runs);
    if |runs| == 0 {
      out := [];
      NothingSorted(x, o, runs);
    } else {
      WholeClean(o, records, H.Flatten(runs), d);
      StandSorted(x, o, formed, runs);
      out := MergeGroup(x, o, d, chunking, runs);
      WholeThrough(o, records, H.Flatten(runs), out);
    }
  }

  /** Faithful on every run is enough; unless `-u` drops lines, nothing less is. */
  lemma FaithfulEach(o: Options, cut: seq<seq<Text>>)
    requires ValidOptions(o)
    ensures (forall k :: 0 <= k < |cut| ==> Faithful(o, cut[k])) ==> FaithfulRuns(o, cut)
    ensures !o.unique && FaithfulRuns(o, cut) ==> forall k :: 0 <= k < |cut| ==> Faithful(o, cut[k])
  {
    hide PlanOf, TextPlan, Harmless, HarmlessRuns;
    TextPlanIs(o);
    RunByRun(TextPlan(o), cut);
    forall k | 0 <= k < |cut| ensures Faithful(o, cut[k]) <==> (PlanOf(o) == RadixKeys ==> Harmless(TextPlan(o), cut[k])) {
    }
  }

  lemma OneRunFaithful(o: Options, s: seq<Text>)
    requires ValidOptions(o)
    ensures FaithfulRuns(o, [s]) <==> Faithful(o, s)
  {
    hide PlanOf, TextPlan, Harmless, HarmlessRuns;
    OneRun(TextPlan(o), s);
  }

  /** With the last resort, or without reversed keys, that is always so. */
  lemma FaithfulRunsWhen(o: Options, cut: seq<seq<Text>>)
    requires ValidOptions(o) && (LastResort(o) || forall k :: 0 <= k < |o.keys| ==> !o.keys[k].reverse)
    ensures FaithfulRuns(o, cut)
  {
    hide Faithful, FaithfulRuns;
    forall k | 0 <= k < |cut| ensures Faithful(o, cut[k]) { FaithfulWhen(o, cut[k]); }
    FaithfulEach(o, cut);
  }

  lemma NothingSorted(x: Outside, o: Options, runs: seq<seq<Text>>)
    requires ValidOptions(o) && runs == []
    ensures Sorted(CompareOrder(x, o), []) && H.Flatten(runs) == []
    ensures Emitted(CompareOrder(x, o), o.unique, StableSort(CompareOrder(x, o), H.Flatten(runs))) == []
  {
    NoRuns();
  }

  lemma SamePartsThrough<A(!new)>(c: (A, A) -> int, unique: bool, s: seq<A>, t: seq<A>, u: seq<A>)
    requires SameClasses(c, t, u)
    ensures SameParts(c, unique, s, u) <==> SameParts(c, unique, s, t)
  {
    hide Project, Part;
    forall g ensures SamePart(c, unique, g, s, u) <==> SamePart(c, unique, g, s, t) {
      assert Project(c, g, t) == Project(c, g, u);
    }
  }

  /** Merging what stands for the runs gives what sorting the records gives, exactly
      when the runs stand for the records. */
  lemma StandsWritten(x: Outside, o: Options, records: seq<Text>, formed: seq<Text>, runs: seq<seq<Text>>)
    requires ValidOptions(o) && Stand(x, o, formed, runs)
    ensures var out := Emitted(CompareOrder(x, o), o.unique, StableSort(CompareOrder(x, o), H.Flatten(runs)));
      out == Written(x, o, StableSort(CompareOrder(x, o), records)) <==>
      SameParts(CompareOrder(x, o), o.unique, records, formed)
  {
    var c := CompareOrder(x, o);
    var w := StableSort(c, formed);
    ComparePreorder(x, o);
    StableSortStable(c, formed);
    hide CompareOrder, SameParts, StableSort, Written, Emitted, Project, TotalPreorder, H.Flatten, Sorted;
    StableIsSorted(c, formed, w);
    EmittedByOrder(x, o, StableSort(c, records));
    KeptEmits(c, o.unique, formed, H.Flatten(runs));
    RunStands(c, o.unique, records, w);
    SamePartsThrough(c, o.unique, records, formed, w);
  }

  lemma LinesDescribed(lines: Lines)
    requires lines.Valid()
    ensures Describes(lines.monotonic, ItemTexts(lines.data, lines.items))
  {
    TracksDescribes(lines.monotonic, ItemTexts(lines.data, lines.items));
  }

  /** Reading everything. */
  method ReadAll(d: Byte, files: seq<seq<Text>>) returns (data: Text, a: array<Line>, m: Monotonic)
    ensures fresh(a) && InBuffer(data, a[..]) && Describes(m, ItemTexts(data, a[..]))
    ensures ItemTexts(data, a[..]) == FileRecords(files, d)
  {
    hide Describes, Tracks, Split, Concat, InBuffer, ItemTexts;
    var lines := new Lines();
    assert files[..0] == [];
    for i := 0 to |files|
      invariant lines.Valid() && fresh(lines) && lines.Texts() == FileRecords(files[..i], d)
    {
      FileRecordsSnoc(files, d, i);
      lines.ReadStream(d, files[i]);
    }
    assert files[..|files|] == files;
    LinesDescribed(lines);
    var items := lines.items;
    a := new Line[|items|](i requires 0 <= i < |items| => items[i]);
    assert a[..] == items;
    data, m := lines.data, lines.monotonic;
  }

  /** Reading everything, then sorting in memory: the same result, exactly when the
      plan is faithful on the records. */
  method SortInMemory(x: Outside, o: Options, par: Threads.Parallelism, d: Byte, files: seq<seq<Text>>) returns (out: seq<Text>)
    requires ValidOptions(o)
    ensures out == Written(x, o, StableSort(CompareOrder(x, o), FileRecords(files, d))) <==> Faithful(o, FileRecords(files, d))
  {
    hide *;
    var data, a, m := ReadAll(d, files);
    ghost var s := a[..];
    out := Run(x, o, data, a, m, par);
    OracleIsSort(x, o, data, s);
  }
}
