/** From the bytes of the input files to the bytes of the output (src/main.c):
    reading, planning, sorting and writing put together. */
module WholeProgram {
  import opened Bytes
  import opened Comparator
  import External
  import K = KeyEngine
  import opened LineSort
  import opened Orders
  import Output
  import opened RankSort
  import opened Records
  import Threads
  import opened Unique

  // ---------- Writing ----------

  /** The bytes that an array and its flag stand for. */
  ghost function OutputBytes(x: Outside, o: Options, data: Text, items: seq<Line>, reversed: bool, d: Byte): Text
    requires ValidOptions(o)
  {
    Join(Written(x, o, OutputTexts(data, items, reversed)), d)
  }

  lemma TextsAreItems(data: Text, items: seq<Line>, reversed: bool)
    ensures ItemTexts(data, K.Output(items, reversed)) == OutputTexts(data, items, reversed)
  {
  }

  /** One turn of the loop under `-u`: the line goes out, unless it equals the last
      one that went out. */
  method WriteUnlessRepeated(x: Outside, o: Options, writer: Output.Writer, data: Text, line: Line, last: seq<Text>, d: Byte, ghost written: seq<Text>)
    returns (ok: bool, last': seq<Text>)
    requires ValidOptions(o) && o.unique && writer.Valid() && line.span.off + line.span.len <= |data|
    requires last == if written == [] then [] else [written[|written| - 1]]
    modifies writer, writer.sink
    ensures writer.Valid() && (if ok then writer.sink.broken == old(writer.sink.broken) else writer.sink.broken)
    ensures var text := LineText(data)(line);
      var next := if written != [] && UniqueOrder(x, o)(written[|written| - 1], text) == 0 then written else written + [text];
      && last' == (if next == [] then [] else [next[|next| - 1]])
      && (ok ==> writer.Written() == old(writer.Written()) + Join(next[|written|..], d))
  {
    hide UniqueOrder;
    TextAt(data, line);
    JoinNothing(d);
    var text := LineText(data)(line);
    if last != [] {
      var same := CompareUnique(x, o, last[0], text);
      if same == 0 {
        assert written[|written|..] == [];
        return true, last;
      }
    }
    ok := writer.WriteLine(data, line, d);
    last' := [text];
    Output.OneJoined(written + [text], |written|, d);
    assert (written + [text])[|written|..] == (written + [text])[|written|..|written| + 1];
  }

  lemma WrittenNext(x: Outside, o: Options, texts: seq<Text>, i: nat, d: Byte, before: Text)
    requires ValidOptions(o) && o.unique && i < |texts|
    ensures var w := Written(x, o, texts[..i]);
      var next := if w != [] && UniqueOrder(x, o)(w[|w| - 1], texts[i]) == 0 then w else w + [texts[i]];
      && next == Written(x, o, texts[..i + 1])
      && before + Join(w, d) + Join(next[|w|..], d) == before + Join(next, d)
  {
    WrittenStep(x, o, texts, i);
    var w := Written(x, o, texts[..i]);
    var next := Written(x, o, texts[..i + 1]);
    hide Written, Join, UniqueOrder;
    assert next == w + next[|w|..];
    Output.JoinAppend(w, next[|w|..], d);
    Output.Reassociate(before, Join(w, d), Join(next[|w|..], d));
  }

  /** The loop of `rank_output_lines` under `-u`, through the buffered writer. */
  method WriteUnique(x: Outside, o: Options, d: Byte, data: Text, lines: array<Line>, len: nat, reversed: bool, sink: Output.Sink) returns (ok: bool)
    requires ValidOptions(o) && o.unique && len <= lines.Length && InBuffer(data, lines[..len])
    modifies sink
    ensures ok ==> sink.out == old(sink.out) + OutputBytes(x, o, data, lines[..len], reversed, d)
    ensures if ok then sink.broken == old(sink.broken) else sink.broken
  {
    hide *;
    ghost var texts := OutputTexts(data, lines[..len], reversed);
    var writer := new Output.Writer(sink);
    var last: seq<Text> := [];
    WrittenStart(x, o, texts);
    StartOut(sink.out, d);
    for i := 0 to len
      invariant fresh(writer) && writer.sink == sink && writer.Valid() && sink.broken == old(sink.broken)
      invariant last == (var w := Written(x, o, texts[..i]); if w == [] then [] else [w[|w| - 1]])
      invariant writer.Written() == old(sink.out) + Join(Written(x, o, texts[..i]), d)
    {
      var index := if reversed then len - 1 - i else i;
      InBufferAt(data, lines[..len], index);
      WrittenNext(x, o, texts, i, d, old(sink.out));
      ok, last := WriteUnlessRepeated(x, o, writer, data, lines[index], last, d, Written(x, o, texts[..i]));
      if !ok {
        return;
      }
    }
    WholeOf(texts);
    ok := writer.Flush();
    if ok {
      Output.FlushedOut(writer);
      OutputBytesAre(x, o, data, lines[..len], reversed, d);
    }
  }

  lemma StartOut(out: Text, d: Byte)
    ensures out + Join([], d) == out
  {
  }

  lemma InBufferAt(data: Text, items: seq<Line>, i: nat)
    requires InBuffer(data, items) && i < |items|
    ensures items[i].span.off + items[i].span.len <= |data|
  {
  }

  lemma OutputBytesAre(x: Outside, o: Options, data: Text, items: seq<Line>, reversed: bool, d: Byte)
    requires ValidOptions(o)
    ensures OutputBytes(x, o, data, items, reversed, d) == Join(Written(x, o, OutputTexts(data, items, reversed)), d)
  {
  }

  /** `rank_output_lines`. */
  method OutputLines(x: Outside, o: Options, d: Byte, data: Text, lines: array<Line>, len: nat, reversed: bool, m: Monotonic, sink: Output.Sink) returns (ok: bool)
    requires ValidOptions(o) && len <= lines.Length && InBuffer(data, lines[..len])
    modifies sink
    ensures ok ==> sink.out == old(sink.out) + OutputBytes(x, o, data, lines[..len], reversed, d)
    ensures if ok then sink.broken == old(sink.broken) else sink.broken
  {
    hide *;
    if !o.unique {
      ok := Output.WritePlainLines(sink, data, lines, len, reversed, m, d);
      TextsAreItems(data, lines[..len], reversed);
      External.PlainWritten(x, o, OutputTexts(data, lines[..len], reversed));
      OutputBytesAre(x, o, data, lines[..len], reversed, d);
    } else {
      ok := WriteUnique(x, o, d, data, lines, len, reversed, sink);
    }
  }

  // ---------- The program ----------

  /** What the program should write for some records. */
  ghost function Wanted(x: Outside, o: Options, records: seq<Text>, d: Byte): Text
    requires ValidOptions(o)
  {
    Join(Written(x, o, StableSort(CompareOrder(x, o), records)), d)
  }

  /** Reading all files, planning, sorting and writing: whatever the chunks, the
      threads and the kernel do, success means that the bytes written are those of
      one stable sort of all records, exactly when the plan is faithful on them. */
  method SortFiles(x: Outside, o: Options, par: Threads.Parallelism, d: Byte, files: seq<seq<Text>>, sink: Output.Sink) returns (ok: bool)
    requires ValidOptions(o)
    modifies sink
    ensures ok ==>
      (sink.out == old(sink.out) + Wanted(x, o, External.FileRecords(files, d), d) <==>
       Faithful(o, External.FileRecords(files, d)))
    ensures if ok then sink.broken == old(sink.broken) else sink.broken
  {
    hide *;
    var data, a, m := External.ReadAll(d, files);
    ghost var s := a[..];
    var plan := PlanFromOptions(o);
    var len, reversed := SortLines(x, o, data, a, m, plan, par);
    SortsMeans(x, o, data, s, a[..len], reversed);
    External.OracleIsSort(x, o, data, s);
    ok := OutputLines(x, o, d, data, a, len, reversed, m, sink);
    OutputBytesAre(x, o, data, a[..len], reversed, d);
    OutputTextsAre(data, a[..len], reversed);
    WantedIs(x, o, External.FileRecords(files, d), d);
    External.FilesClean(files, d);
    WantedExactly(x, o, data, s, a[..len], reversed, d);
    ghost var bytes, wanted := OutputBytes(x, o, data, a[..len], reversed, d), Wanted(x, o, External.FileRecords(files, d), d);
    BehindAlike(old(sink.out), bytes, wanted);
  }

  lemma BehindAlike(out: Text, a: Text, b: Text)
    ensures out + a == out + b <==> a == b
  {
    assert (out + a)[|out|..] == a && (out + b)[|out|..] == b;
  }

  /** Dropping repeats makes nothing up. */
  lemma WrittenMember(x: Outside, o: Options, texts: seq<Text>, t: Text)
    requires ValidOptions(o) && t in Written(x, o, texts)
    ensures t in texts
  {
    hide UniqueOrder;
    DedupMembers(UniqueOrder(x, o), texts, t);
  }

  lemma WrittenClean(x: Outside, o: Options, texts: seq<Text>, records: seq<Text>, d: Byte)
    requires ValidOptions(o) && Clean(records, d) && forall t :: t in texts ==> t in records
    ensures Clean(Written(x, o, texts), d)
  {
    hide Written;
    var w := Written(x, o, texts);
    forall i | 0 <= i < |w| ensures d !in w[i] {
      WrittenMember(x, o, texts, w[i]);
      var j :| 0 <= j < |records| && records[j] == w[i];
    }
  }

  /** Different clean records make different bytes. */
  lemma JoinedAlike(v: seq<Text>, w: seq<Text>, d: Byte)
    requires Clean(v, d) && Clean(w, d)
    ensures Join(v, d) == Join(w, d) <==> v == w
  {
    hide Join, Split;
    RoundTrip(v, d);
    RoundTrip(w, d);
  }

  lemma WantedExactly(x: Outside, o: Options, data: Text, s: seq<Line>, items: seq<Line>, reversed: bool, d: Byte)
    requires ValidOptions(o) && Clean(ItemTexts(data, s), d) && TextsKept(data, s, items, reversed)
    ensures OutputBytes(x, o, data, items, reversed, d) == Wanted(x, o, ItemTexts(data, s), d) <==>
      Written(x, o, Map(LineText(data), K.Output(items, reversed))) == Written(x, o, StableSort(CompareOrder(x, o), ItemTexts(data, s)))
  {
    var records, c := ItemTexts(data, s), CompareOrder(x, o);
    var out := Map(LineText(data), K.Output(items, reversed));
    hide *;
    OutputBytesAre(x, o, data, items, reversed, d);
    OutputTextsAre(data, items, reversed);
    WantedIs(x, o, records, d);
    KeptMeans(data, s, items, reversed);
    WrittenClean(x, o, out, records, d);
    SortKeepsRecords(x, o, records);
    WrittenClean(x, o, StableSort(c, records), records, d);
    JoinedAlike(Written(x, o, out), Written(x, o, StableSort(c, records)), d);
  }

  lemma KeptMeans(data: Text, s: seq<Line>, items: seq<Line>, reversed: bool)
    requires TextsKept(data, s, items, reversed)
    ensures forall t :: t in Map(LineText(data), K.Output(items, reversed)) ==> t in ItemTexts(data, s)
  {
  }

  lemma SortKeepsRecords(x: Outside, o: Options, records: seq<Text>)
    requires ValidOptions(o)
    ensures forall t :: t in StableSort(CompareOrder(x, o), records) ==> t in records
  {
    var c := CompareOrder(x, o);
    ComparePreorder(x, o);
    hide CompareOrder, TotalPreorder, StableSort, Project;
    StableSortStable(c, records);
    SameClassesPermutes(c, records, StableSort(c, records));
    forall t | t in StableSort(c, records) ensures t in records {
      assert t in multiset(StableSort(c, records));
    }
  }

  lemma WantedIs(x: Outside, o: Options, records: seq<Text>, d: Byte)
    requires ValidOptions(o)
    ensures Wanted(x, o, records, d) == Join(Written(x, o, StableSort(CompareOrder(x, o), records)), d)
  {
  }

  // ---------- Reading the output back ----------

  /** Splitting the bytes written gives back the sorted records, one by one. */
  lemma WantedReadsBack(x: Outside, o: Options, d: Byte, files: seq<seq<Text>>)
    requires ValidOptions(o)
    ensures Split(Wanted(x, o, External.FileRecords(files, d), d), d) ==
            Written(x, o, StableSort(CompareOrder(x, o), External.FileRecords(files, d)))
  {
    var records := External.FileRecords(files, d);
    hide *;
    WantedIs(x, o, records, d);
    External.FilesClean(files, d);
    SortKeepsRecords(x, o, records);
    WrittenClean(x, o, StableSort(CompareOrder(x, o), records), records, d);
    RoundTrip(Written(x, o, StableSort(CompareOrder(x, o), records)), d);
  }
}
