/** The streaming merge (src/merge.c, `merge_stream_bytes`): of every run only the
    next record is in memory, put together from the chunks that reading returns. */
module StreamMerge {
  import opened Bytes
  import opened Comparator
  import opened DirectMerge
  import Fields
  import opened Heap
  import opened HeapMerge
  import opened Orders
  import opened Records
  import opened Unique

  // ---------- The streams ----------

  /** What is left of a run: the record at hand and those still to be read. */
  ghost predicate Stream(d: Byte, run: StreamRun, head: Fields.Option<Text>, rest: seq<Text>)
    reads run
  {
    && run.Valid()
    && (head.Some? ==> run.record == head.value && rest == [head.value] + Split(run.Remaining(), d))
    && (head.None? ==> rest == [])
    && (head.Some? <==> run.record != [] || !run.eof)
  }

  ghost predicate Streams(d: Byte, runs: seq<StreamRun>, heads: seq<Fields.Option<Text>>, rest: seq<seq<Text>>)
    reads runs
  {
    && |runs| == |heads| == |rest|
    && (forall j, k :: 0 <= j < k < |runs| ==> runs[j] != runs[k])
    && forall k :: 0 <= k < |runs| ==> Stream(d, runs[k], heads[k], rest[k])
  }

  /** The records of every source. */
  ghost function Sources(sources: seq<seq<Text>>, d: Byte): (r: seq<seq<Text>>)
    ensures |r| == |sources|
    ensures forall k :: 0 <= k < |sources| ==> r[k] == Split(Concat(sources[k]), d)
  {
    seq(|sources|, k requires 0 <= k < |sources| => Split(Concat(sources[k]), d))
  }

  /** Opens a source and reads its first record. */
  method OpenRun(source: seq<Text>, d: Byte) returns (run: StreamRun, head: Fields.Option<Text>)
    ensures fresh(run) && Stream(d, run, head, Split(Concat(source), d))
  {
    hide Split, Concat;
    run := new StreamRun(source);
    var has := run.ReadHead(d);
    head := if has then Fields.Some(run.record) else Fields.None;
  }

  /** `merge_stream_open_runs`. */
  method OpenRuns(sources: seq<seq<Text>>, d: Byte) returns (runs: seq<StreamRun>, heads: seq<Fields.Option<Text>>)
    ensures fresh(runs) && Streams(d, runs, heads, Sources(sources, d))
  {
    hide Split, Concat, Stream;
    runs, heads := [], [];
    for i := 0 to |sources|
      invariant |runs| == |heads| == i && fresh(runs)
      invariant forall j, k :: 0 <= j < k < i ==> runs[j] != runs[k]
      invariant forall k :: 0 <= k < i ==> Stream(d, runs[k], heads[k], Split(Concat(sources[k]), d))
    {
      var run, head := OpenRun(sources[i], d);
      runs, heads := runs + [run], heads + [head];
    }
  }

  /** `merge_stream_consume` and `merge_stream_read_head`. */
  method NextRecord(run: StreamRun, d: Byte, ghost head: Fields.Option<Text>, ghost rest: seq<Text>) returns (head': Fields.Option<Text>)
    requires Stream(d, run, head, rest) && head.Some?
    modifies run
    ensures rest != [] && Stream(d, run, head', rest[1..])
    ensures head'.Some? <==> rest[1..] != []
  {
    hide Split, Concat;
    run.Consume();
    var has := run.ReadHead(d);
    head' := if has then Fields.Some(run.record) else Fields.None;
  }

  method Advance(runs: seq<StreamRun>, d: Byte, heads: seq<Fields.Option<Text>>, choice: nat, ghost rest: seq<seq<Text>>) returns (heads': seq<Fields.Option<Text>>)
    requires Streams(d, runs, heads, rest) && choice < |runs| && heads[choice].Some?
    modifies runs[choice]
    ensures rest[choice] != [] && Streams(d, runs, heads', rest[choice := rest[choice][1..]])
    ensures |heads'| == |heads| && (heads'[choice].Some? <==> rest[choice][1..] != [])
  {
    hide Stream;
    var head := NextRecord(runs[choice], d, heads[choice], rest[choice]);
    heads' := heads[choice := head];
    forall k | 0 <= k < |runs| ensures Stream(d, runs[k], heads'[k], rest[choice := rest[choice][1..]][k]) {
      if k < choice {
        assert runs[k] != runs[choice];
      } else if choice < k {
        assert runs[choice] != runs[k];
      }
    }
  }

  lemma HeadIs(d: Byte, runs: seq<StreamRun>, heads: seq<Fields.Option<Text>>, rest: seq<seq<Text>>, k: nat)
    requires Streams(d, runs, heads, rest) && k < |runs|
    ensures heads[k].Some? <==> rest[k] != []
    ensures rest[k] != [] ==> heads[k].value == rest[k][0]
    ensures heads[k].Some? <==> runs[k].record != [] || !runs[k].eof
  {
    hide Split;
    assert Stream(d, runs[k], heads[k], rest[k]);
  }

  // ---------- The heap ----------

  /** `merge_stream_run_less`. */
  function StreamLess(c: (Text, Text) -> int, heads: seq<Fields.Option<Text>>): (nat, nat) -> bool {
    (a: nat, b: nat) =>
      a < |heads| && b < |heads| && heads[a].Some? && heads[b].Some? &&
      (c(heads[a].value, heads[b].value) < 0 || (c(heads[a].value, heads[b].value) == 0 && a < b))
  }

  lemma StreamLessModels(c: (Text, Text) -> int, d: Byte, runs: seq<StreamRun>, heads: seq<Fields.Option<Text>>, rest: seq<seq<Text>>)
    requires Streams(d, runs, heads, rest)
    ensures Models(c, rest, StreamLess(c, heads))
  {
    forall a, b | a in Live(rest) && b in Live(rest) ensures StreamLess(c, heads)(a, b) == HeadLess(c, rest, a, b) {
      HeadIs(d, runs, heads, rest, a);
      HeadIs(d, runs, heads, rest, b);
    }
  }

  lemma HeapGrows(rest: seq<seq<Text>>, h: seq<nat>, i: nat, live: bool)
    requires i < |rest| && (live <==> rest[i] != []) && Below(rest, h, i)
    ensures Below(rest, if live then h + [i] else h, i + 1)
  {
    CountSnoc(h, i);
  }

  /** The runs below `i` that have a record, once each. */
  ghost predicate Below(rest: seq<seq<Text>>, h: seq<nat>, i: nat) {
    forall k: nat :: Count(h, k) == if k < i && k in Live(rest) then 1 else 0
  }

  lemma BelowAll(rest: seq<seq<Text>>, h: seq<nat>)
    ensures Below(rest, [], 0)
    ensures Below(rest, h, |rest|) ==> Holds(rest, h)
  {
  }

  method Push(heap: array<nat>, len: nat, i: nat) returns (len': nat)
    requires len < heap.Length
    modifies heap
    ensures len' == len + 1 && heap[..len'] == old(heap[..len]) + [i]
  {
    heap[len] := i;
    len' := len + 1;
  }

  /** `merge_stream_heap_build`: the runs that have a record. */
  method BuildStreamHeap(heap: array<nat>, d: Byte, runs: seq<StreamRun>, ghost heads: seq<Fields.Option<Text>>, ghost rest: seq<seq<Text>>) returns (len: nat)
    requires Streams(d, runs, heads, rest) && heap.Length == |runs|
    modifies heap
    ensures len <= heap.Length && Holds(rest, heap[..len])
    ensures Streams(d, runs, heads, rest)
  {
    hide *;
    SameCount(d, runs, heads, rest);
    len := 0;
    BelowAll(rest, []);
    assert heap[..0] == [];
    for i := 0 to |runs|
      invariant 0 <= len <= i && Streams(d, runs, heads, rest)
      invariant Below(rest, heap[..len], i)
    {
      HeadIs(d, runs, heads, rest, i);
      HeapGrows(rest, heap[..len], i, rest[i] != []);
      if |runs[i].record| > 0 || !runs[i].eof {
        len := Push(heap, len, i);
      }
    }
    BelowAll(rest, heap[..len]);
  }

  method StartStreamHeap(c: (Text, Text) -> int, heap: array<nat>, d: Byte, runs: seq<StreamRun>, heads: seq<Fields.Option<Text>>, ghost rest: seq<seq<Text>>) returns (len: nat)
    requires TotalPreorder(c) && Streams(d, runs, heads, rest) && heap.Length == |runs|
    modifies heap
    ensures len <= heap.Length && Ready(c, rest, StreamLess(c, heads), heap[..len]) && Streams(d, runs, heads, rest)
  {
    hide TotalPreorder, Models, Holds, Live, StrictOn, HeapFrom, Streams, StreamLess;
    len := BuildStreamHeap(heap, d, runs, heads, rest);
    StreamLessModels(c, d, runs, heads, rest);
    ModelsStrict(c, rest, StreamLess(c, heads));
    HoldsInside(rest, heap[..len]);
    if len > 1 {
      ghost var h := heap[..len];
      Heapify(heap, len, StreamLess(c, heads), Live(rest));
      HoldsPermuted(rest, h, heap[..len]);
    } else {
      TinyHeap(StreamLess(c, heads), heap[..len]);
    }
  }

  // ---------- The merge ----------

  /** `done` has come out of the heap, and sorting what is left completes the sort
      of all records. */
  ghost predicate Streaming(c: (Text, Text) -> int, all: seq<Text>, done: seq<Text>, rest: seq<seq<Text>>) {
    AllSorted(c, rest) && done + StableSort(c, Flatten(rest)) == StableSort(c, all)
  }

  lemma StreamingStart(c: (Text, Text) -> int, rest: seq<seq<Text>>)
    requires AllSorted(c, rest)
    ensures Streaming(c, Flatten(rest), [], rest)
  {
  }

  lemma NextHas(c: (Text, Text) -> int, rest: seq<seq<Text>>, i: nat)
    requires Next(c, rest, i)
    ensures i < |rest| && rest[i] != []
  {
    assert i in Live(rest);
  }

  lemma StreamingStep(c: (Text, Text) -> int, all: seq<Text>, done: seq<Text>, rest: seq<seq<Text>>, i: nat)
    requires TotalPreorder(c) && Streaming(c, all, done, rest) && Next(c, rest, i)
    ensures i < |rest| && rest[i] != [] && Streaming(c, all, done + [rest[i][0]], rest[i := rest[i][1..]])
    ensures |done| < |all|
  {
    NextHas(c, rest, i);
    StableSortLength(c, all);
    hide TotalPreorder, Next, AllSorted, StableSort, Flatten;
    TakeNext(c, rest, i);
    assert done + ([rest[i][0]] + StableSort(c, Flatten(rest[i := rest[i][1..]]))) == (done + [rest[i][0]]) + StableSort(c, Flatten(rest[i := rest[i][1..]]));
  }

  lemma StreamingDone(c: (Text, Text) -> int, all: seq<Text>, done: seq<Text>, rest: seq<seq<Text>>)
    requires Streaming(c, all, done, rest) && Holds(rest, [])
    ensures done == StableSort(c, all)
  {
    EmptyHeap(rest, []);
    Exhausted(rest);
    assert StableSort(c, []) == [];
  }

  /** Writes the record at hand, unless `-u` finds it equal to the last one. */
  method EmitRecord(u: (Text, Text) -> int, unique: bool, record: Text, out: seq<Text>, last: Fields.Option<Text>, ghost done: seq<Text>)
    returns (out': seq<Text>, last': Fields.Option<Text>)
    requires out == Emitted(u, unique, done)
    requires unique ==> last == if out == [] then Fields.None else Fields.Some(out[|out| - 1])
    ensures out' == Emitted(u, unique, done + [record])
    ensures unique ==> last' == if out' == [] then Fields.None else Fields.Some(out'[|out'| - 1])
  {
    DedupIs(u, done, record);
    out', last' := out, last;
    var skip := unique && last.Some? && u(last.value, record) == 0;
    if !skip {
      out' := out + [record];
      if unique {
        last' := Fields.Some(record);
      }
    }
  }

  /** One turn: the record at the root goes out, its run reads on, and the heap is
      put in order again. */
  method StreamStep(c: (Text, Text) -> int, d: Byte, runs: seq<StreamRun>, heads: seq<Fields.Option<Text>>, heap: array<nat>, len: nat, ghost rest: seq<seq<Text>>)
    returns (record: Text, heads': seq<Fields.Option<Text>>, len': nat, ghost rest': seq<seq<Text>>)
    requires TotalPreorder(c) && 0 < len <= heap.Length
    requires Streams(d, runs, heads, rest) && Ready(c, rest, StreamLess(c, heads), heap[..len])
    modifies heap, runs
    ensures len' <= heap.Length && Streams(d, runs, heads', rest') && Ready(c, rest', StreamLess(c, heads'), heap[..len'])
    ensures Next(c, rest, old(heap[0])) && old(heap[0]) < |rest| && rest[old(heap[0])] != []
    ensures record == rest[old(heap[0])][0] && rest' == rest[old(heap[0]) := rest[old(heap[0])][1..]]
  {
    hide *;
    ghost var before := StreamLess(c, heads);
    var choice := heap[0];
    RootIsNext(c, rest, before, heap[..len]);
    NextHas(c, rest, choice);
    SameCount(d, runs, heads, rest);
    HeadIs(d, runs, heads, rest, choice);
    record := heads[choice].value;
    heads' := Advance(runs, d, heads, choice, rest);
    rest' := rest[choice := rest[choice][1..]];
    StreamLessModels(c, d, runs, heads', rest');
    len' := Replace(heap, len, StreamLess(c, heads'), heads'[choice].None?, c, rest, before);
  }

  lemma SameCount(d: Byte, runs: seq<StreamRun>, heads: seq<Fields.Option<Text>>, rest: seq<seq<Text>>)
    requires Streams(d, runs, heads, rest)
    ensures |runs| == |heads| == |rest|
  {
  }

  /** `merge_stream_bytes`: whatever the chunks, merging sorted runs record by record
      writes the stable sort of all their records, under `-u` the first of each. */
  method MergeStreams(reverse: bool, unique: bool, d: Byte, sources: seq<seq<Text>>) returns (out: seq<Text>)
    requires AllSorted(Directed(reverse, ByteOrder()), Sources(sources, d))
    ensures out == Emitted(ByteOrder(), unique, StableSort(Directed(reverse, ByteOrder()), Flatten(Sources(sources, d))))
  {
    hide *;
    var c, u := Directed(reverse, ByteOrder()), ByteOrder();
    BytePreorder();
    DirectedPreorder(reverse, u);
    var runs, heads := OpenRuns(sources, d);
    ghost var rest, done, all := Sources(sources, d), [], Flatten(Sources(sources, d));
    SameCount(d, runs, heads, rest);
    var heap := new nat[|runs|];
    var len: nat := StartStreamHeap(c, heap, d, runs, heads, rest);
    StreamingStart(c, rest);
    out := [];
    EmittedNothing(u, unique);
    var last: Fields.Option<Text> := Fields.None;
    while len > 0
      invariant len <= heap.Length && fresh(runs)
      invariant Streams(d, runs, heads, rest) && Ready(c, rest, StreamLess(c, heads), heap[..len])
      invariant Streaming(c, all, done, rest) && |done| <= |all|
      invariant out == Emitted(u, unique, done)
      invariant unique ==> last == if out == [] then Fields.None else Fields.Some(out[|out| - 1])
      decreases |all| - |done|
    {
      ghost var before := rest;
      ghost var choice := heap[0];
      var record;
      record, heads, len, rest := StreamStep(c, d, runs, heads, heap, len, rest);
      StreamingStep(c, all, done, before, choice);
      out, last := EmitRecord(u, unique, record, out, last, done);
      done := done + [record];
    }
    assert heap[..len] == [];
    ReadyHolds(c, rest, StreamLess(c, heads), heap[..len]);
    StreamingDone(c, all, done, rest);
  }
}
