/** Where an external sort cuts its runs: as soon as the buffer is full at the end of
    a record, and not before. */
module RunSizes {
  import opened Bytes
  import opened External
  import Fields
  import opened Records

  /** Bytes of some records, each with its delimiter. */
  function Bulk(rs: seq<Text>): nat {
    if rs == [] then 0 else Bulk(rs[..|rs| - 1]) + |rs[|rs| - 1]| + 1
  }

  lemma {:induction false} BulkAppend(a: seq<Text>, b: seq<Text>)
    ensures Bulk(a + b) == Bulk(a) + Bulk(b)
  {
    if b == [] {
      assert a + b == a;
    } else {
      BulkAppend(a, b[..|b| - 1]);
      assert (a + b)[..|a + b| - 1] == a + b[..|b| - 1];
    }
  }

  lemma {:induction false} BulkComplete(t: Text, d: Byte)
    ensures Bulk(Complete(t, d)) + |Tail(t, d)| == |t|
    decreases |t|
  {
    CompleteStep(t, d);
    var k := Fields.Find(t, 0, d);
    hide Fields.Find, Complete, Tail, Bulk;
    if k == |t| {
      assert Bulk([]) == 0 by { NoBulk(t); }
    } else {
      BulkComplete(t[k + 1..], d);
      BulkAppend([t[..k]], Complete(t[k + 1..], d));
      OneBulk(t[..k]);
    }
  }

  lemma NoBulk(t: Text)
    ensures Bulk([]) == 0
  {
  }

  lemma OneBulk(t: Text)
    ensures Bulk([t]) == |t| + 1
  {
    assert [t][..0] == [] && Bulk([]) == 0;
  }

  /** Runs cut off have filled the buffer; the bytes counted are those of the records
      collected and of the unfinished one, where up to `e` records at the end of a
      file had no delimiter. */
  ghost predicate Sized(c: Cutting, bufferSize: nat, e: nat) {
    && (forall k :: 0 <= k < |c.done| ==> Bulk(c.done[k]) >= bufferSize)
    && c.size <= Bulk(c.current) + |c.pending| <= c.size + e
  }

  /** What is collected up to the end of a record does not fill the buffer. */
  ghost predicate Waiting(c: Cutting, bufferSize: nat) {
    c.current != [] && c.pending == [] ==> c.size < bufferSize
  }

  lemma CutSized(c: Cutting, bufferSize: nat, e: nat)
    requires Sized(c, bufferSize, e)
    ensures Sized(CutIfNeeded(c, bufferSize), bufferSize, e) && Waiting(CutIfNeeded(c, bufferSize), bufferSize)
  {
    assert Bulk([]) == 0;
  }

  lemma TakeSized(c: Cutting, chunk: Text, d: Byte, bufferSize: nat, e: nat)
    requires Sized(c, bufferSize, e)
    ensures Sized(TakeBytes(c, chunk, d), bufferSize, e)
  {
    BulkComplete(c.pending + chunk, d);
    BulkAppend(c.current, Complete(c.pending + chunk, d));
    hide Complete, Tail, Bulk;
  }

  lemma EndSized(c: Cutting, bufferSize: nat, e: nat)
    requires Sized(c, bufferSize, e)
    ensures Sized(EndRecord(c), bufferSize, e + 1)
  {
    BulkAppend(c.current, [c.pending]);
    OneBulk(c.pending);
    hide Bulk;
  }

  lemma {:induction false} ChunksSized(c: Cutting, chunks: seq<Text>, d: Byte, bufferSize: nat, e: nat)
    requires Sized(c, bufferSize, e) && Waiting(c, bufferSize)
    ensures var r := CutChunks(c, chunks, d, bufferSize); Sized(r, bufferSize, e) && Waiting(r, bufferSize)
  {
    if chunks != [] {
      var n := |chunks| - 1;
      ChunksSized(c, chunks[..n], d, bufferSize, e);
      hide Sized, Waiting, TakeBytes, CutIfNeeded;
      var r := CutChunks(c, chunks[..n], d, bufferSize);
      TakeSized(r, chunks[n], d, bufferSize, e);
      CutSized(TakeBytes(r, chunks[n], d), bufferSize, e);
    }
  }

  lemma FileSized(c: Cutting, chunks: seq<Text>, d: Byte, bufferSize: nat, e: nat)
    requires Sized(c, bufferSize, e) && Waiting(c, bufferSize)
    ensures var r := CutFile(c, chunks, d, bufferSize); Sized(r, bufferSize, e + 1) && Waiting(r, bufferSize)
  {
    ChunksSized(c, chunks, d, bufferSize, e);
    var r := CutChunks(c, chunks, d, bufferSize);
    EndSized(r, bufferSize, e);
    CutSized(EndRecord(r), bufferSize, e + 1);
    hide CutChunks, CutIfNeeded, EndRecord, Bulk, Waiting;
  }

  lemma {:induction false} FilesSized(files: seq<seq<Text>>, d: Byte, bufferSize: nat)
    ensures var r := CutFiles(files, d, bufferSize); Sized(r, bufferSize, |files|) && Waiting(r, bufferSize)
  {
    if files == [] {
      assert Bulk([]) == 0;
    } else {
      var n := |files| - 1;
      FilesSized(files[..n], d, bufferSize);
      hide Sized, Waiting, CutFile;
      FileSized(CutFiles(files[..n], d, bufferSize), files[n], d, bufferSize, n);
    }
  }

  /** Every run but the last fills the buffer; the last one, if it does not, is what
      was left, and falls short of it but for delimiters that a file did not have. */
  lemma RunsFill(files: seq<seq<Text>>, d: Byte, bufferSize: nat)
    ensures var runs := RunRecords(files, d, bufferSize);
      && (forall k :: 0 <= k < |runs| - 1 ==> Bulk(runs[k]) >= bufferSize)
      && (CutFiles(files, d, bufferSize).current != [] ==> Bulk(runs[|runs| - 1]) < bufferSize + |files|)
  {
    FilesSized(files, d, bufferSize);
    FilesKept(files, d, bufferSize);
    hide CutFiles, Bulk, Cut;
  }
}
