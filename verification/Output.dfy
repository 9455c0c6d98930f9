/** Writing the result (src/output.c): lines gathered into an iovec, neighbours in
    the buffer taken as one piece, and a kernel that accepts what it likes. */
module Output {
  import opened Bytes
  import opened Comparator
  import Fields
  import H = HeapMerge
  import K = KeyEngine
  import opened LineSort
  import opened Orders
  import opened Records
  import opened Unique

  const IOV_MAX := 1024

  datatype Outcome = Interrupted | Failed | Took(n: nat)

  function Joined(pieces: seq<Text>): Text {
    H.Flatten(pieces)
  }

  /** A file descriptor.  `schedule` is what the next calls will return; after it
      every call takes all it is given. */
  class Sink {
    var schedule: seq<Outcome>
    ghost var out: Text
    /** Some call has failed, or has taken nothing. */
    ghost var broken: bool

    constructor (schedule: seq<Outcome>)
      ensures this.schedule == schedule && out == [] && !broken
    {
      this.schedule, out, broken := schedule, [], false;
    }

    /** `writev`: nothing, or a prefix of the bytes. */
    method WriteV(pieces: seq<Text>) returns (r: Outcome)
      modifies this
      ensures r.Took? ==> r.n <= |Joined(pieces)| && out == old(out) + Joined(pieces)[..r.n]
      ensures !r.Took? ==> out == old(out)
      ensures broken <==> old(broken) || r.Failed? || r == Took(0)
      ensures old(schedule) != [] ==> |schedule| < |old(schedule)|
      ensures old(schedule) == [] ==> schedule == [] && r == Took(|Joined(pieces)|)
    {
      var all := Joined(pieces);
      if schedule == [] {
        r := Took(|all|);
      } else {
        r := schedule[0];
        if r.Took? && r.n > |all| {
          r := Took(|all|);
        }
        schedule := schedule[1..];
      }
      if r.Took? {
        out := out + all[..r.n];
      }
      broken := broken || r.Failed? || r == Took(0);
    }
  }

  // ---------- Partial writes ----------

  lemma JoinedFrom(iov: seq<Text>, start: nat)
    requires start < |iov|
    ensures Joined(iov[start..]) == iov[start] + Joined(iov[start + 1..])
  {
    assert iov[start..][0] == iov[start] && iov[start..][1..] == iov[start + 1..];
  }

  lemma JoinedSnoc(iov: seq<Text>, piece: Text)
    ensures Joined(iov + [piece]) == Joined(iov) + piece
  {
    H.FlattenSplit(iov + [piece], |iov|);
    assert (iov + [piece])[..|iov|] == iov && (iov + [piece])[|iov| + 1..] == [];
    assert H.Flatten<Text>([]) == [];
  }

  /** Drops what a partial write has taken off the front of the vector. */
  method Skip(iov: array<Text>, start: nat, count: nat, taken: nat) returns (next: nat)
    requires start <= count <= iov.Length && taken <= |Joined(iov[start..count])|
    modifies iov
    ensures start <= next <= count
    ensures Joined(iov[next..count]) == old(Joined(iov[start..count]))[taken..]
  {
    ghost var all := Joined(iov[start..count]);
    var n: nat := taken;
    next := start;
    while next < count && n >= |iov[next]|
      invariant start <= next <= count && n <= |Joined(iov[next..count])|
      invariant Joined(iov[next..count])[n..] == all[taken..]
    {
      JoinedFrom(iov[..count], next);
      assert iov[..count][next..] == iov[next..count] && iov[..count][next + 1..] == iov[next + 1..count];
      n := n - |iov[next]|;
      next := next + 1;
    }
    if next < count && n > 0 {
      JoinedFrom(iov[..count], next);
      assert iov[..count][next..] == iov[next..count] && iov[..count][next + 1..] == iov[next + 1..count];
      ghost var tail := iov[next + 1..count];
      iov[next] := iov[next][n..];
      assert iov[next + 1..count] == tail;
      JoinedFrom(iov[..count], next);
      assert iov[..count][next..] == iov[next..count] && iov[..count][next + 1..] == iov[next + 1..count];
    } else if next == count {
      assert iov[next..count] == [];
    }
  }

  /** `flush_iov`: on success every byte is out, in order, however the kernel cut
      the writes; on failure a prefix is. */
  method FlushIov(sink: Sink, iov: array<Text>, count: nat) returns (ok: bool)
    requires count <= iov.Length
    modifies sink, iov
    ensures ok ==> sink.out == old(sink.out + Joined(iov[..count]))
    ensures sink.out <= old(sink.out + Joined(iov[..count]))
    ensures if ok then sink.broken == old(sink.broken) else sink.broken
  {
    hide H.Flatten;
    ghost var all := sink.out + Joined(iov[..count]);
    var start := 0;
    assert iov[0..count] == iov[..count];
    while start < count
      invariant 0 <= start <= count
      invariant sink.out + Joined(iov[start..count]) == all && sink.broken == old(sink.broken)
      decreases |sink.schedule|, count - start, |Joined(iov[start..count])|
    {
      hide Joined;
      ghost var before, left := sink.out, Joined(iov[start..count]);
      var r := sink.WriteV(iov[start..count]);
      match r {
        case Interrupted =>
        case Failed =>
          return false;
        case Took(n) =>
          if n == 0 {
            return false;
          }
          assert sink.out + left[n..] == before + left;
          start := Skip(iov, start, count, n);
      }
    }
    assert iov[count..count] == [] && Joined([]) == [] by { NothingJoined(); }
    ok := true;
  }

  lemma NothingJoined()
    ensures Joined([]) == []
  {
  }

  // ---------- Lines into the vector ----------

  lemma JoinSnoc(rs: seq<Text>, r: Text, d: Byte)
    ensures Join(rs + [r], d) == Join(rs, d) + r + [d]
  {
    if rs == [] {
      assert [r][1..] == [] && Join([], d) == [];
    } else {
      JoinSnoc(rs[1..], r, d);
      assert (rs + [r])[1..] == rs[1..] + [r];
    }
  }

  /** The delimiter follows the line in the buffer. */
  predicate Terminated(data: Text, l: Line, d: Byte) {
    l.span.off < |data| && l.span.len < |data| - l.span.off && data[l.span.off + l.span.len] == d
  }

  method Put(iov: array<Text>, count: nat, piece: Text) returns (next: nat)
    requires count < iov.Length
    modifies iov
    ensures next == count + 1 && Joined(iov[..next]) == old(Joined(iov[..count])) + piece
  {
    iov[count] := piece;
    next := count + 1;
    assert iov[..next] == old(iov[..count]) + [piece];
    JoinedSnoc(old(iov[..count]), piece);
  }

  /** `append_plain_line_iov`: the line with the delimiter behind it in the buffer,
      or the line and a delimiter of its own. */
  method AppendLine(data: Text, l: Line, d: Byte, iov: array<Text>, count: nat) returns (next: nat)
    requires l.span.off + l.span.len <= |data| && count + 2 <= iov.Length
    modifies iov
    ensures count < next <= count + 2
    ensures Joined(iov[..next]) == old(Joined(iov[..count])) + (data[l.span.off..l.span.off + l.span.len] + [d])
  {
    hide Joined;
    var off, len := l.span.off, l.span.len;
    if Terminated(data, l, d) {
      next := Put(iov, count, data[off..off + len + 1]);
      assert data[off..off + len + 1] == data[off..off + len] + [d];
      return;
    }
    next := count;
    ghost var before := Joined(iov[..count]);
    if len > 0 {
      next := Put(iov, next, data[off..off + len]);
    }
    assert Joined(iov[..next]) == before + data[off..off + len];
    next := Put(iov, next, [d]);
  }

  /** Lines `i` to `j` lie one behind the other in the buffer, each terminated. */
  ghost predicate Contiguous(data: Text, items: seq<Line>, i: nat, j: nat, d: Byte) {
    && i <= j < |items|
    && (forall k :: i <= k <= j ==> Terminated(data, items[k], d))
    && (forall k :: i <= k < j ==> items[k + 1].span.off == items[k].span.off + items[k].span.len + 1)
  }

  lemma ContiguousMore(data: Text, items: seq<Line>, i: nat, j: nat, d: Byte)
    requires Contiguous(data, items, i, j, d) && j + 1 < |items| && Terminated(data, items[j + 1], d)
    requires items[j + 1].span.off == items[j].span.off + items[j].span.len + 1
    ensures Contiguous(data, items, i, j + 1, d)
  {
  }

  /** Taken as one piece they read as the lines with their delimiters. */
  lemma {:induction false} ContiguousBytes(data: Text, items: seq<Line>, i: nat, j: nat, d: Byte)
    requires Contiguous(data, items, i, j, d)
    ensures items[i].span.off <= items[j].span.off + items[j].span.len + 1 <= |data|
    ensures data[items[i].span.off..items[j].span.off + items[j].span.len + 1] == Join(ItemTexts(data, items)[i..j + 1], d)
    decreases j
  {
    var texts := ItemTexts(data, items);
    var p := items[j].span;
    TextAt(data, items[j]);
    assert data[p.off..p.off + p.len + 1] == texts[j] + [d];
    if i == j {
      assert texts[i..j + 1] == [] + [texts[j]];
      JoinSnoc([], texts[j], d);
      assert Join([], d) == [];
    } else {
      ContiguousBytes(data, items, i, j - 1, d);
      assert texts[i..j + 1] == texts[i..j] + [texts[j]];
      JoinSnoc(texts[i..j], texts[j], d);
      assert items[j].span.off == items[j - 1].span.off + items[j - 1].span.len + 1;
      assert data[items[i].span.off..p.off + p.len + 1] == data[items[i].span.off..p.off] + data[p.off..p.off + p.len + 1];
    }
  }

  /** `append_contiguous_run_iov`: the longest contiguous run, if it has at least
      two lines. */
  method AppendRun(data: Text, items: array<Line>, len: nat, i: nat, d: Byte, iov: array<Text>, count: nat) returns (taken: bool, last: nat, next: nat)
    requires i < len <= items.Length && count < iov.Length
    requires InBuffer(data, items[..len])
    modifies iov
    ensures i <= last < len && count <= next <= count + 1
    ensures !taken ==> last == i && next == count && iov[..] == old(iov[..])
    ensures taken ==> Joined(iov[..next]) == old(Joined(iov[..count])) + Join(ItemTexts(data, items[..len])[i..last + 1], d)
  {
    hide Joined, ItemTexts, Join, InBuffer;
    taken, last, next := false, i, count;
    if !Terminated(data, items[i], d) {
      return;
    }
    ghost var lines := items[..len];
    var start := items[i].span.off;
    var end := start + items[i].span.len + 1;
    while last + 1 < len && items[last + 1].span.off == end && Terminated(data, items[last + 1], d)
      invariant i <= last < len && Contiguous(data, lines, i, last, d)
      invariant end == items[last].span.off + items[last].span.len + 1
      invariant iov[..] == old(iov[..]) && items[..len] == lines
    {
      ContiguousMore(data, lines, i, last, d);
      end := items[last + 1].span.off + items[last + 1].span.len + 1;
      last := last + 1;
    }
    if last == i {
      return;
    }
    ContiguousBytes(data, lines, i, last, d);
    assert iov[..count] == iov[..][..count];
    taken := true;
    next := Put(iov, count, data[start..end]);
  }

  lemma {:induction false} JoinAppend(a: seq<Text>, b: seq<Text>, d: Byte)
    ensures Join(a + b, d) == Join(a, d) + Join(b, d)
  {
    if a == [] {
      assert a + b == b;
    } else {
      JoinAppend(a[1..], b, d);
      assert (a + b)[1..] == a[1..] + b;
    }
  }

  lemma InOutput(data: Text, items: seq<Line>, reversed: bool, i: nat)
    requires i < |items| && InBuffer(data, items)
    ensures |K.Output(items, reversed)| == |items|
    ensures var l := items[if reversed then |items| - 1 - i else i];
      l.span.off + l.span.len <= |data| &&
      ItemTexts(data, K.Output(items, reversed))[i] == data[l.span.off..l.span.off + l.span.len]
  {
    TextAt(data, items[if reversed then |items| - 1 - i else i]);
  }

  /** `write_plain_lines`: on success exactly every line with its delimiter, in
      output order. */
  method WritePlainLines(sink: Sink, data: Text, items: array<Line>, len: nat, reversed: bool, m: Monotonic, d: Byte) returns (ok: bool)
    requires len <= items.Length && InBuffer(data, items[..len])
    modifies sink
    ensures ok ==> sink.out == old(sink.out) + Join(ItemTexts(data, K.Output(items[..len], reversed)), d)
    ensures if ok then sink.broken == old(sink.broken) else sink.broken
  {
    hide Joined, ItemTexts, Join, InBuffer, K.Output;
    ghost var texts, lines := ItemTexts(data, K.Output(items[..len], reversed)), items[..len];
    OutputLength(data, lines, reversed);
    var iov := new Text[IOV_MAX](_ => []);
    var count, i := 0, 0;
    var contiguous := !reversed && m.valid && m.direction <= 0;
    NothingJoined();
    assert texts[..0] == [] && iov[..0] == [];
    JoinNothing(d);
    while i < len
      invariant 0 <= i <= len && 0 <= count <= IOV_MAX && iov.Length == IOV_MAX && fresh(iov)
      invariant sink.out + Joined(iov[..count]) == old(sink.out) + Join(texts[..i], d) && sink.broken == old(sink.broken)
    {
      if count >= IOV_MAX - 2 {
        ok := FlushIov(sink, iov, count);
        if !ok {
          return;
        }
        count := 0;
        assert iov[..0] == [];
      }
      ghost var before, gathered := i, Joined(iov[..count]);
      i, count := AppendNext(data, items, len, reversed, contiguous, i, d, iov, count, texts);
      assert texts[..i] == texts[..before] + texts[before..i];
      JoinAppend(texts[..before], texts[before..i], d);
      Reassociate(sink.out, gathered, Join(texts[before..i], d));
      Reassociate(old(sink.out), Join(texts[..before], d), Join(texts[before..i], d));
    }
    assert texts[..len] == texts;
    ok := FlushIov(sink, iov, count);
  }

  lemma Reassociate(a: Text, b: Text, c: Text)
    ensures (a + b) + c == a + (b + c)
  {
  }

  lemma OutputLength(data: Text, items: seq<Line>, reversed: bool)
    ensures |ItemTexts(data, K.Output(items, reversed))| == |items|
    ensures !reversed ==> K.Output(items, reversed) == items
  {
  }

  method AppendNext(data: Text, items: array<Line>, len: nat, reversed: bool, contiguous: bool, i: nat, d: Byte, iov: array<Text>, count: nat, ghost texts: seq<Text>)
    returns (j: nat, next: nat)
    requires i < len <= items.Length && InBuffer(data, items[..len]) && count + 2 <= iov.Length && (contiguous ==> !reversed)
    requires texts == ItemTexts(data, K.Output(items[..len], reversed)) && |texts| == len
    modifies iov
    ensures i < j <= len && count <= next <= count + 2
    ensures Joined(iov[..next]) == old(Joined(iov[..count])) + Join(texts[i..j], d)
  {
    OutputLength(data, items[..len], reversed);
    InOutput(data, items[..len], reversed, i);
    OneJoined(texts, i, d);
    hide Joined, ItemTexts, Join, InBuffer, K.Output;
    if contiguous {
      var taken: bool, last: nat;
      taken, last, next := AppendRun(data, items, len, i, d, iov, count);
      if taken {
        return last + 1, next;
      }
    }
    var index := if reversed then len - 1 - i else i;
    next := AppendLine(data, items[index], d, iov, count);
    j := i + 1;
  }

  lemma OneJoined(texts: seq<Text>, i: nat, d: Byte)
    requires i < |texts|
    ensures Join(texts[i..i + 1], d) == texts[i] + [d]
  {
    assert texts[i..i + 1] == [] + [texts[i]];
    JoinSnoc([], texts[i], d);
    JoinNothing(d);
  }

  // ---------- The buffered writer ----------

  const BUFFER_SIZE := 1048576

  /** `writer_write_fd`. */
  method WriteFd(sink: Sink, bytes: Text) returns (ok: bool)
    modifies sink
    ensures ok ==> sink.out == old(sink.out) + bytes
    ensures sink.out <= old(sink.out) + bytes
    ensures if ok then sink.broken == old(sink.broken) else sink.broken
  {
    var written := 0;
    while written < |bytes|
      invariant 0 <= written <= |bytes| && sink.out == old(sink.out) + bytes[..written] && sink.broken == old(sink.broken)
      decreases |sink.schedule|, |bytes| - written
    {
      SingleJoined(bytes[written..]);
      var r := sink.WriteV([bytes[written..]]);
      match r {
        case Interrupted =>
        case Failed =>
          return false;
        case Took(n) =>
          if n == 0 {
            return false;
          }
          assert bytes[..written] + bytes[written..][..n] == bytes[..written + n];
          written := written + n;
      }
    }
    assert bytes[..written] == bytes;
    ok := true;
  }

  lemma SingleJoined(piece: Text)
    ensures Joined([piece]) == piece
  {
    NothingJoined();
    assert [] + [piece] == [piece];
    JoinedSnoc([], piece);
  }

  /** The writer under `-u`: what is out and what is buffered make up what was
      written. */
  class Writer {
    const sink: Sink
    var buffer: Text

    ghost predicate Valid()
      reads this
    {
      |buffer| <= BUFFER_SIZE
    }

    ghost function Written(): Text
      reads this, sink
    {
      sink.out + buffer
    }

    constructor (sink: Sink)
      ensures Valid() && this.sink == sink && Written() == sink.out
    {
      this.sink, buffer := sink, [];
    }

    method Flush() returns (ok: bool)
      requires Valid()
      modifies this, sink
      ensures Valid() && (ok ==> Written() == old(Written()) && buffer == [])
      ensures if ok then sink.broken == old(sink.broken) else sink.broken
    {
      if buffer == [] {
        return true;
      }
      ok := WriteFd(sink, buffer);
      if ok {
        buffer := [];
      }
    }

    method Write(bytes: Text) returns (ok: bool)
      requires Valid()
      modifies this, sink
      ensures Valid() && (ok ==> Written() == old(Written()) + bytes)
      ensures if ok then sink.broken == old(sink.broken) else sink.broken
    {
      if |bytes| > BUFFER_SIZE {
        ok := Flush();
        if ok {
          ok := WriteFd(sink, bytes);
        }
        return;
      }
      if BUFFER_SIZE - |buffer| < |bytes| {
        ok := Flush();
        if !ok {
          return;
        }
      }
      buffer := buffer + bytes;
      ok := true;
    }

    /** `write_line`. */
    method WriteLine(data: Text, l: Line, d: Byte) returns (ok: bool)
      requires Valid() && l.span.off + l.span.len <= |data|
      modifies this, sink
      ensures Valid()
      ensures ok ==> Written() == old(Written()) + (data[l.span.off..l.span.off + l.span.len] + [d])
      ensures if ok then sink.broken == old(sink.broken) else sink.broken
    {
      var off, len := l.span.off, l.span.len;
      if Terminated(data, l, d) {
        assert data[off..off + len + 1] == data[off..off + len] + [d];
        ok := Write(data[off..off + len + 1]);
        return;
      }
      ok := Write(data[off..off + len]);
      if ok {
        ok := Write([d]);
      }
    }
  }

  lemma FlushedOut(writer: Writer)
    requires writer.buffer == []
    ensures writer.Written() == writer.sink.out
  {
  }
}
