/** Records of a byte stream: what reading makes of it, under any chunking, and
    what writing puts into it (src/line.c, src/merge.c). */
module Records {
  import opened Bytes
  import opened Comparator
  import Fields
  import opened LineSort
  import opened Orders

  // ---------- Splitting and joining ----------

  /** The records that end with the delimiter. */
  function Complete(t: Text, d: Byte): seq<Text>
    decreases |t|
  {
    var k := Fields.Find(t, 0, d);
    if k == |t| then [] else [t[..k]] + Complete(t[k + 1..], d)
  }

  /** What follows the last delimiter. */
  function Tail(t: Text, d: Byte): Text
    decreases |t|
  {
    var k := Fields.Find(t, 0, d);
    if k == |t| then t else Tail(t[k + 1..], d)
  }

  function Rest(tail: Text): seq<Text> {
    if tail == [] then [] else [tail]
  }

  /** All records of a stream; the last one need not be terminated. */
  function Split(t: Text, d: Byte): seq<Text> {
    Complete(t, d) + Rest(Tail(t, d))
  }

  /** Every record followed by the delimiter. */
  function Join(rs: seq<Text>, d: Byte): Text {
    if rs == [] then [] else rs[0] + [d] + Join(rs[1..], d)
  }

  lemma CompleteStep(t: Text, d: Byte)
    ensures var k := Fields.Find(t, 0, d);
      if k == |t| then Complete(t, d) == [] && Tail(t, d) == t
      else Complete(t, d) == [t[..k]] + Complete(t[k + 1..], d) && Tail(t, d) == Tail(t[k + 1..], d) && t[k] == d
  {
    hide Fields.Find;
  }

  lemma FindAppend(t: Text, u: Text, d: Byte)
    requires Fields.Find(t, 0, d) < |t|
    ensures Fields.Find(t + u, 0, d) == Fields.Find(t, 0, d)
  {
    Fields.FindIs(t + u, 0, Fields.Find(t, 0, d), d);
  }

  /** Reading on from the unfinished record is reading all of it at once: chunks
      may be cut anywhere. */
  lemma {:induction false} SplitAppend(t: Text, u: Text, d: Byte)
    ensures Complete(t + u, d) == Complete(t, d) + Complete(Tail(t, d) + u, d)
    ensures Tail(t + u, d) == Tail(Tail(t, d) + u, d)
    decreases |t|
  {
    CompleteStep(t, d);
    CompleteStep(t + u, d);
    hide Complete, Tail;
    var k := Fields.Find(t, 0, d);
    if k < |t| {
      FindAppend(t, u, d);
      assert (t + u)[..k] == t[..k] && (t + u)[k + 1..] == t[k + 1..] + u;
      SplitAppend(t[k + 1..], u, d);
    }
  }

  ghost predicate Clean(rs: seq<Text>, d: Byte) {
    forall i :: 0 <= i < |rs| ==> d !in rs[i]
  }

  lemma FindAt(r: Text, u: Text, d: Byte)
    requires d !in r
    ensures Fields.Find(r + [d] + u, 0, d) == |r|
  {
    forall k | 0 <= k < |r| ensures (r + [d] + u)[k] != d { assert r[k] in r; }
    Fields.FindIs(r + [d] + u, 0, |r|, d);
  }

  /** Reading back what was written gives the records again. */
  lemma {:induction false} RoundTrip(rs: seq<Text>, d: Byte)
    requires Clean(rs, d)
    ensures Split(Join(rs, d), d) == rs
    ensures Complete(Join(rs, d), d) == rs && Tail(Join(rs, d), d) == []
  {
    if rs != [] {
      var t := Join(rs, d);
      FindAt(rs[0], Join(rs[1..], d), d);
      assert t[..|rs[0]|] == rs[0] && t[|rs[0]| + 1..] == Join(rs[1..], d);
      RoundTrip(rs[1..], d);
    }
  }

  lemma {:induction false} SplitClean(t: Text, d: Byte)
    ensures Clean(Split(t, d), d)
    decreases |t|
  {
    var k := Fields.Find(t, 0, d);
    if k < |t| {
      SplitClean(t[k + 1..], d);
      assert Split(t, d) == [t[..k]] + Split(t[k + 1..], d);
    }
  }

  lemma JoinCons(r: Text, rs: seq<Text>, d: Byte)
    ensures Join([r] + rs, d) == r + [d] + Join(rs, d)
  {
  }

  /** Writing what was read gives the same bytes, up to the last record. */
  lemma {:induction false} JoinSplit(t: Text, d: Byte)
    ensures Join(Complete(t, d), d) + Tail(t, d) == t
    decreases |t|
  {
    CompleteStep(t, d);
    var k := Fields.Find(t, 0, d);
    hide Complete, Tail, Join, Fields.Find;
    if k < |t| {
      JoinSplit(t[k + 1..], d);
      JoinCons(t[..k], Complete(t[k + 1..], d), d);
      SplitAt(t, k);
      Regroup(t[..k] + [d], Join(Complete(t[k + 1..], d), d), Tail(t[k + 1..], d));
    } else {
      JoinNothing(d);
    }
  }

  lemma Regroup(a: Text, b: Text, c: Text)
    ensures (a + b) + c == a + (b + c)
  {
  }

  lemma SplitAt(t: Text, k: nat)
    requires k < |t|
    ensures t == t[..k] + [t[k]] + t[k + 1..]
  {
  }

  lemma JoinNothing(d: Byte)
    ensures Join([], d) == []
  {
  }

  function Concat(chunks: seq<Text>): Text {
    if chunks == [] then [] else Concat(chunks[..|chunks| - 1]) + chunks[|chunks| - 1]
  }

  lemma ConcatSnoc(chunks: seq<Text>, i: nat)
    requires i < |chunks|
    ensures Concat(chunks[..i + 1]) == Concat(chunks[..i]) + chunks[i]
  {
    assert chunks[..i + 1][..i] == chunks[..i];
  }

  // ---------- Is the input in order already? ----------

  /** The flags that the reader keeps: no line so far was below its predecessor
      (`direction` <= 0), or none was above it (`direction` >= 0). */
  datatype Monotonic = Monotonic(valid: bool, direction: int)

  ghost predicate Describes(m: Monotonic, texts: seq<Text>) {
    m.valid ==>
      && (m.direction <= 0 ==> Sorted(ByteOrder(), texts))
      && (m.direction >= 0 ==> Sorted(Reversed(ByteOrder()), texts))
  }

  ghost function ItemTexts(data: Text, items: seq<Line>): seq<Text> {
    Map(LineText(data), items)
  }

  /** One more line. */
  function NextMonotonic(m: Monotonic, first: bool, cmp: int): Monotonic {
    if !m.valid || first || cmp == 0 then m
    else if m.direction == 0 then m.(direction := if cmp < 0 then -1 else 1)
    else if (m.direction < 0 && cmp > 0) || (m.direction > 0 && cmp < 0) then m.(valid := false)
    else m
  }

  /** The flags say exactly whether the lines are in order, and which way; 0 is for
      lines that are all equal. */
  ghost predicate Tracks(m: Monotonic, texts: seq<Text>) {
    Flags(m, Sorted(ByteOrder(), texts), Sorted(Reversed(ByteOrder()), texts))
  }

  ghost predicate Flags(m: Monotonic, up: bool, down: bool) {
    && (m.valid <==> up || down)
    && (m.valid ==> m.direction == if up && down then 0 else if up then -1 else 1)
  }

  lemma FlagsStep(m: Monotonic, up: bool, down: bool, cmp: int)
    requires Flags(m, up, down)
    ensures Flags(NextMonotonic(m, false, cmp), up && cmp <= 0, down && cmp >= 0)
  {
  }

  lemma TracksDescribes(m: Monotonic, texts: seq<Text>)
    requires Tracks(m, texts)
    ensures Describes(m, texts)
  {
  }

  lemma SortedSnocWhen(c: (Text, Text) -> int, texts: seq<Text>, t: Text)
    requires TotalPreorder(c) && texts != []
    ensures Sorted(c, texts + [t]) <==> Sorted(c, texts) && c(texts[|texts| - 1], t) <= 0
  {
    var all := texts + [t];
    if Sorted(c, all) {
      forall i, j | 0 <= i < j < |texts| ensures c(texts[i], texts[j]) <= 0 {
        assert c(all[i], all[j]) <= 0;
      }
      assert c(all[|texts| - 1], all[|texts|]) <= 0;
    } else if Sorted(c, texts) && c(texts[|texts| - 1], t) <= 0 {
      SortedSnoc(c, texts, t);
    }
  }

  /** One more line leaves the flags exact. */
  lemma NextTracks(m: Monotonic, texts: seq<Text>, t: Text)
    requires Tracks(m, texts)
    ensures Tracks(NextMonotonic(m, texts == [], if texts == [] then 0 else Compare(texts[|texts| - 1], t)), texts + [t])
  {
    BytePreorder();
    ReversedPreorder(ByteOrder());
    hide TotalPreorder;
    if texts == [] {
      OneSorted(ByteOrder(), t);
      OneSorted(Reversed(ByteOrder()), t);
    } else {
      SortedSnocWhen(ByteOrder(), texts, t);
      SortedSnocWhen(Reversed(ByteOrder()), texts, t);
      hide Sorted, NextMonotonic, Flags;
      FlagsStep(m, Sorted(ByteOrder(), texts), Sorted(Reversed(ByteOrder()), texts), Compare(texts[|texts| - 1], t));
    }
  }

  lemma OneSorted(c: (Text, Text) -> int, t: Text)
    ensures Sorted(c, []) && Sorted(c, [] + [t])
  {
  }

  /** The records read so far, in one buffer (`struct rank_lines`). */
  class Lines {
    var data: Text
    var items: seq<Line>
    var monotonic: Monotonic

    ghost predicate Valid()
      reads this
    {
      && InBuffer(data, items)
      && Tracks(monotonic, ItemTexts(data, items))
      && forall i :: 0 <= i < |items| ==> items[i].ordinal == i
    }

    ghost function Texts(): seq<Text>
      reads this
    {
      ItemTexts(data, items)
    }

    constructor ()
      ensures Valid() && Texts() == [] && data == []
    {
      data, items := [], [];
      monotonic := Monotonic(true, 0);
    }

    method AppendBytes(chunk: Text)
      requires Valid()
      modifies this
      ensures Valid() && data == old(data) + chunk && Texts() == old(Texts())
      ensures items == old(items)
    {
      TextsGrow(data, chunk, items);
      data := data + chunk;
    }

    /** `add_line`, with its update of the monotonic flags. */
    method AddLine(off: nat, len: nat)
      requires Valid() && off + len <= |data|
      modifies this`items, this`monotonic
      ensures Valid() && Texts() == old(Texts()) + [data[off..off + len]]
    {
      var cmp := 0;
      if |items| > 0 && monotonic.valid {
        var last := items[|items| - 1].span;
        cmp := CompareFromDepth(data[last.off..last.off + last.len], data[off..off + len], 0);
      }
      LineTracked(data, items, monotonic, off, len, cmp);
      hide Tracks, Map;
      monotonic := NextMonotonic(monotonic, items == [], cmp);
      items := items + [Line(Span(off, len), |items|, 0)];
    }

    /** `parse_records`: scans the new bytes only; what was left before them holds
        no delimiter. */
    method ParseRecords(d: Byte, start: nat, recordStart: nat) returns (next: nat)
      requires Valid() && recordStart <= start <= |data|
      requires Undelimited(data, recordStart, start, d)
      modifies this`items, this`monotonic
      ensures Valid() && recordStart <= next <= |data|
      ensures Texts() == old(Texts()) + Complete(data[recordStart..], d)
      ensures data[next..] == Tail(data[recordStart..], d)
      ensures Undelimited(data, next, |data|, d)
    {
      hide *;
      var i := start;
      next := recordStart;
      ghost var before := Texts();
      while i < |data|
        invariant Valid() && recordStart <= next <= i <= |data|
        invariant Undelimited(data, next, i, d)
        invariant Texts() + Complete(data[next..], d) == before + Complete(data[recordStart..], d)
        invariant Tail(data[next..], d) == Tail(data[recordStart..], d)
        decreases |data| - i
      {
        var hit := Fields.FindByte(data, i, d);
        FoundNext(data, next, i, hit, d);
        if hit == |data| {
          i := hit;
          break;
        }
        ghost var sofar := Texts();
        AddLine(next, hit - next);
        assert sofar + ([data[next..next + (hit - next)]] + Complete(data[hit + 1..], d)) == Texts() + Complete(data[hit + 1..], d);
        next := hit + 1;
        i := hit + 1;
        NothingBetween(data, next, d);
      }
      NoMoreRecords(data, d, next);
      assert Texts() + [] == Texts();
    }

    /** `read_stream`: chunks of any size, and a last record that need not be
        terminated.  The result depends on the bytes alone. */
    method ReadStream(d: Byte, chunks: seq<Text>)
      requires Valid()
      modifies this
      ensures Valid() && data == old(data) + Concat(chunks)
      ensures Texts() == old(Texts()) + Split(Concat(chunks), d)
    {
      hide *;
      var recordStart: nat := |data|;
      ghost var base, before := |data|, Texts();
      ghost var start := data;
      assert chunks[..0] == [];
      NothingRead(d);
      NothingBetween(data, |data|, d);
      for i := 0 to |chunks|
        invariant Valid() && base <= recordStart <= |data| && data == start + Concat(chunks[..i])
        invariant Undelimited(data, recordStart, |data|, d)
        invariant Texts() == before + Complete(Concat(chunks[..i]), d)
        invariant data[recordStart..] == Tail(Concat(chunks[..i]), d)
      {
        var oldLen := |data|;
        ghost var read := Concat(chunks[..i]);
        AppendBytes(chunks[i]);
        ConcatSnoc(chunks, i);
        SplitAppend(read, chunks[i], d);
        assert data[recordStart..] == Tail(read, d) + chunks[i];
        StillUndelimited(data[..oldLen], chunks[i], recordStart, d);
        assert data == data[..oldLen] + chunks[i];
        recordStart := ParseRecords(d, oldLen, recordStart);
      }
      assert chunks[..|chunks|] == chunks;
      SplitIs(Concat(chunks), d);
      if recordStart < |data| {
        AddLine(recordStart, |data| - recordStart);
        assert data[recordStart..recordStart + (|data| - recordStart)] == data[recordStart..];
      }
    }
  }

  ghost predicate Undelimited(data: Text, from: nat, to: nat, d: Byte) {
    from <= to <= |data| && forall k :: from <= k < to ==> data[k] != d
  }

  lemma NothingBetween(data: Text, i: nat, d: Byte)
    requires i <= |data|
    ensures Undelimited(data, i, i, d)
  {
  }

  lemma StillUndelimited(data: Text, chunk: Text, from: nat, d: Byte)
    requires Undelimited(data, from, |data|, d)
    ensures Undelimited(data + chunk, from, |data|, d)
  {
  }

  lemma TextAt(data: Text, l: Line)
    requires l.span.off + l.span.len <= |data|
    ensures LineText(data)(l) == data[l.span.off..l.span.off + l.span.len]
  {
    assert LineText(data)(l) == SpanText(data)(l.span);
  }

  lemma TextsGrow(data: Text, chunk: Text, items: seq<Line>)
    requires InBuffer(data, items)
    ensures ItemTexts(data + chunk, items) == ItemTexts(data, items) && InBuffer(data + chunk, items)
  {
    forall i | 0 <= i < |items| ensures LineText(data + chunk)(items[i]) == LineText(data)(items[i]) {
      var p := items[i].span;
      TextAt(data, items[i]);
      TextAt(data + chunk, items[i]);
      assert (data + chunk)[p.off..p.off + p.len] == data[p.off..p.off + p.len];
    }
  }

  /** A line more: its text comes last. */
  lemma LineAdded(data: Text, items: seq<Line>, off: nat, len: nat)
    requires InBuffer(data, items) && off + len <= |data|
    ensures var more := items + [Line(Span(off, len), |items|, 0)];
      InBuffer(data, more) && ItemTexts(data, more) == ItemTexts(data, items) + [data[off..off + len]]
  {
    var line := Line(Span(off, len), |items|, 0);
    TextAt(data, line);
    assert ItemTexts(data, items + [line]) == ItemTexts(data, items) + [data[off..off + len]];
  }

  lemma LineTracked(data: Text, items: seq<Line>, m: Monotonic, off: nat, len: nat, cmp: int)
    requires InBuffer(data, items) && Tracks(m, ItemTexts(data, items)) && off + len <= |data|
    requires m.valid && items != [] ==>
      var p := items[|items| - 1].span;
      cmp == CompareFrom(data[p.off..p.off + p.len], data[off..off + len], 0)
    ensures var more := items + [Line(Span(off, len), |items|, 0)];
      && InBuffer(data, more) && ItemTexts(data, more) == ItemTexts(data, items) + [data[off..off + len]]
      && Tracks(NextMonotonic(m, items == [], cmp), ItemTexts(data, more))
  {
    LineAdded(data, items, off, len);
    if items != [] {
      TextAt(data, items[|items| - 1]);
    }
    hide Tracks, Map;
    NextTracks(m, ItemTexts(data, items), data[off..off + len]);
  }

  lemma FoundNext(data: Text, next: nat, i: nat, hit: nat, d: Byte)
    requires next <= i <= |data| && Undelimited(data, next, i, d) && hit == Fields.Find(data, i, d)
    ensures i <= hit <= |data|
    ensures hit < |data| ==> Complete(data[next..], d) == [data[next..next + (hit - next)]] + Complete(data[hit + 1..], d)
    ensures hit < |data| ==> Tail(data[next..], d) == Tail(data[hit + 1..], d)
    ensures hit == |data| ==> Undelimited(data, next, |data|, d)
  {
    hide Complete, Tail;
    if hit < |data| {
      var t := data[next..];
      Fields.FindIs(t, 0, hit - next, d);
      CompleteStep(t, d);
      assert t[..hit - next] == data[next..hit] && t[hit - next + 1..] == data[hit + 1..];
    }
  }

  lemma NoMoreRecords(data: Text, d: Byte, next: nat)
    requires Undelimited(data, next, |data|, d)
    ensures Complete(data[next..], d) == [] && Tail(data[next..], d) == data[next..]
  {
    Fields.FindIs(data[next..], 0, |data| - next, d);
    CompleteStep(data[next..], d);
  }

  lemma NothingRead(d: Byte)
    ensures Complete(Concat([]), d) == [] && Tail(Concat([]), d) == [] && Concat([]) == []
  {
  }

  lemma SplitIs(t: Text, d: Byte)
    ensures Split(t, d) == Complete(t, d) + if Tail(t, d) == [] then [] else [Tail(t, d)]
  {
  }

  // ---------- One record at a time ----------

  lemma {:induction false} ConcatCons(chunk: Text, chunks: seq<Text>)
    ensures Concat([chunk] + chunks) == chunk + Concat(chunks)
  {
    var all := [chunk] + chunks;
    if chunks == [] {
      assert all[..0] == [] && Concat([]) == [];
    } else {
      assert all[..|all| - 1] == [chunk] + chunks[..|chunks| - 1];
      ConcatCons(chunk, chunks[..|chunks| - 1]);
    }
  }

  lemma FirstRecord(r: Text, u: Text, d: Byte)
    requires d !in r
    ensures Split(r + [d] + u, d) == [r] + Split(u, d)
  {
    FindAt(r, u, d);
    CompleteStep(r + [d] + u, d);
    assert (r + [d] + u)[..|r|] == r && (r + [d] + u)[|r| + 1..] == u;
  }

  lemma LastRecord(r: Text, d: Byte)
    requires d !in r
    ensures Split(r, d) == Rest(r)
  {
    forall k | 0 <= k < |r| ensures r[k] != d { assert r[k] in r; }
    Fields.FindIs(r, 0, |r|, d);
  }

  lemma PartTaken(record: Text, buffer: Text, pos: nat, hit: nat, rest: Text)
    requires pos <= hit <= |buffer|
    ensures (record + buffer[pos..hit]) + (buffer[hit..] + rest) == record + (buffer[pos..] + rest)
    ensures hit < |buffer| ==>
      record + buffer[pos..hit] + [buffer[hit]] + (buffer[hit + 1..] + rest) == record + (buffer[pos..] + rest)
  {
    var part := buffer[pos..hit];
    assert buffer[pos..] == part + buffer[hit..];
    Regroup(record, part, buffer[hit..] + rest);
    Regroup(part, buffer[hit..], rest);
    if hit < |buffer| {
      assert buffer[hit..] == [buffer[hit]] + buffer[hit + 1..];
      Regroup([buffer[hit]], buffer[hit + 1..], rest);
      Regroup(record + part, [buffer[hit]], buffer[hit + 1..] + rest);
    }
  }

  /** A stream read through a buffer; `chunks` is what `read` will return. */
  class StreamRun {
    var chunks: seq<Text>
    var buffer: Text
    var pos: nat
    var record: Text
    var eof: bool

    ghost predicate Valid()
      reads this
    {
      pos <= |buffer| && (eof ==> chunks == [] && pos == |buffer|)
    }

    /** The bytes not taken yet. */
    ghost function Remaining(): Text
      reads this
      requires Valid()
    {
      buffer[pos..] + Concat(chunks)
    }

    constructor (source: seq<Text>)
      ensures Valid() && Remaining() == Concat(source) && record == [] && !eof
    {
      chunks, buffer, pos, record, eof := source, [], 0, [], false;
    }

    method Refill()
      requires Valid() && pos == |buffer| && chunks != []
      modifies this
      ensures Valid() && Remaining() == old(Remaining()) && record == old(record) && eof == old(eof)
      ensures |chunks| < old(|chunks|)
    {
      assert chunks == [chunks[0]] + chunks[1..];
      ConcatCons(chunks[0], chunks[1..]);
      buffer, pos, chunks := chunks[0], 0, chunks[1..];
    }

    /** Moves what the buffer has of the record into it, and past the delimiter. */
    method TakePart(d: Byte) returns (found: bool)
      requires Valid() && pos < |buffer| && d !in record
      modifies this`pos, this`record
      ensures Valid() && d !in record && pos > old(pos)
      ensures found ==> record + [d] + Remaining() == old(record + Remaining())
      ensures !found ==> record + Remaining() == old(record + Remaining()) && pos == |buffer|
    {
      hide Concat;
      var hit := Fields.FindByte(buffer, pos, d);
      var part := buffer[pos..hit];
      assert d !in part;
      ghost var rest := Concat(chunks);
      PartTaken(record, buffer, pos, hit, rest);
      record := record + part;
      found := hit < |buffer|;
      pos := if found then hit + 1 else hit;
    }

    /** Nothing more to read: what has been put together is the last record. */
    method AtEnd(d: Byte, ghost all: Text) returns (has: bool)
      requires Valid() && !eof && pos == |buffer| && chunks == [] && d !in record && record + Remaining() == all
      modifies this`eof
      ensures Valid() && eof && has == (record != []) && Split(Remaining(), d) == []
      ensures Split(all, d) == if has then [record] + Split(Remaining(), d) else []
    {
      NoBytes();
      LastRecord([], d);
      assert all == record && Remaining() == [];
      hide Split, Concat;
      LastRecord(record, d);
      eof := true;
      has := record != [];
    }

    /** The next record, put together from as many chunks as it spans: together
        the calls deliver exactly the records of the stream, in order. */
    method ReadHead(d: Byte) returns (has: bool)
      requires Valid() && record == []
      modifies this
      ensures Valid()
      ensures has <==> Split(old(Remaining()), d) != []
      ensures has ==> Split(old(Remaining()), d) == [record] + Split(Remaining(), d)
      ensures has <==> record != [] || !eof
      ensures !has ==> Split(Remaining(), d) == []
    {
      ghost var all := Remaining();
      LastRecord([], d);
      NoBytes();
      hide Split, Concat;
      if eof {
        assert all == [];
        return false;
      }
      while true
        invariant Valid() && !eof && record + Remaining() == all && d !in record
        decreases |chunks|, |buffer| - pos
      {
        if pos < |buffer| {
          var found := TakePart(d);
          if found {
            FirstRecord(record, Remaining(), d);
            return true;
          }
        } else if chunks != [] {
          Refill();
        } else {
          has := AtEnd(d, all);
          return;
        }
      }
    }

    /** The writer has taken the record. */
    method Consume()
      requires Valid()
      modifies this`record
      ensures Valid() && record == []
    {
      record := [];
    }
  }

  lemma NoBytes()
    ensures Concat([]) == []
  {
  }
}
