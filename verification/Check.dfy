/** Checking a stream for order (src/check.c): two record buffers that swap roles,
    and a cached key that points into one of them. */
module Check {
  import opened Bytes
  import opened Comparator
  import opened DirectMerge
  import Fields
  import Numeric
  import opened Orders
  import opened Records
  import opened Unique

  /** `b` may not follow `a`. */
  ghost predicate Disordered(x: Outside, o: Options, a: Text, b: Text)
    requires ValidOptions(o)
  {
    CompareOrder(x, o)(a, b) > 0 || (o.unique && UniqueOrder(x, o)(a, b) == 0)
  }

  ghost predicate InOrder(x: Outside, o: Options, rs: seq<Text>)
    requires ValidOptions(o)
  {
    forall i :: 0 < i < |rs| ==> !Disordered(x, o, rs[i - 1], rs[i])
  }

  datatype Fast = Generic | FastBytes | FastKey

  function FastOf(o: Options): Fast {
    if |o.keys| == 0 then (if Plain(o) then FastBytes else Generic)
    else if FastModeOf(o).Fast? && FastModeOf(o).keyed then FastKey
    else Generic
  }

  /** A key by its place in a record buffer, with its parsed value in the modes
      that have one. */
  datatype KeyCache = KeyCache(data: array<Byte>, start: nat, end: nat, value: Head)

  class CheckStream {
    const x: Outside
    const o: Options
    var previous: array<Byte>
    var previousLen: nat
    var current: array<Byte>
    var currentLen: nat
    var number: nat
    var havePrevious: bool
    var prevKey: Fields.Option<KeyCache>
    /** The records accepted so far. */
    ghost var seen: seq<Text>

    /** The key a cache stands for, read through its pointer. */
    function KeyHead(k: KeyCache): Head
      requires FastModeOf(o).Fast?
      reads k.data
    {
      if CachesValue(FastModeOf(o).mode) then k.value
      else TextHead(if k.start <= k.end <= k.data.Length then k.data[k.start..k.end] else [])
    }

    /** The cache is the key of the record of length `len` in `data`. */
    ghost predicate Holds(k: KeyCache, data: array<Byte>, len: nat)
      reads data
    {
      && FastModeOf(o).Fast? && k.data == data && k.start <= k.end <= len <= data.Length
      && KeyHead(k) == HeadView(x, o)(data[..len])
    }

    ghost predicate Valid()
      reads this, previous, current
    {
      && ValidOptions(o)
      && previous != current && previousLen <= previous.Length && currentLen <= current.Length
      && (havePrevious <==> seen != [])
      && (havePrevious ==> previous[..previousLen] == seen[|seen| - 1])
      && (prevKey.Some? ==> havePrevious && FastOf(o) == FastKey && Holds(prevKey.value, previous, previousLen))
      && InOrder(x, o, seen)
    }

    ghost function Current(): Text
      reads this, current
      requires currentLen <= current.Length
    {
      current[..currentLen]
    }

    constructor (x: Outside, o: Options)
      requires ValidOptions(o)
      ensures Valid() && seen == [] && Current() == [] && number == 0
      ensures fresh(previous) && fresh(current)
      ensures this.x == x && this.o == o
    {
      this.x, this.o := x, o;
      previous, current := new Byte[0], new Byte[0];
      previousLen, currentLen, number, havePrevious, prevKey, seen := 0, 0, 0, false, Fields.None, [];
    }

    /** `check_record_append`: into the current buffer, which may have to move. */
    method Append(bytes: Text)
      requires Valid()
      modifies this`current, this`currentLen, current
      ensures Valid() && Current() == old(Current()) + bytes
      ensures current == old(current) || fresh(current)
    {
      hide ValidOptions, InOrder, FastOf, HeadView, FastModeOf;
      if bytes == [] {
        return;
      }
      if currentLen + |bytes| > current.Length {
        Grow(currentLen + |bytes|);
      }
      CopyInto(current, currentLen, bytes);
      currentLen := currentLen + |bytes|;
    }

    /** Doubles the capacity until `needed` bytes fit. */
    method Grow(needed: nat)
      requires Valid() && needed > current.Length
      modifies this`current
      ensures Valid() && fresh(current) && current.Length >= needed && Current() == old(Current())
    {
      hide ValidOptions, InOrder, FastOf, HeadView, FastModeOf;
      var small := current;
      var cap := if small.Length == 0 then 65536 else small.Length;
      while cap < needed
        invariant cap > 0 && cap >= small.Length
        decreases needed - cap
      {
        cap := cap * 2;
      }
      var bigger := new Byte[cap](i requires 0 <= i < cap reads small => if i < small.Length then small[i] else 0);
      assert bigger[..currentLen] == small[..currentLen];
      current := bigger;
    }

    /** `check_key_cache_fill` for the record in `data`. */
    method FillCache(data: array<Byte>, len: nat) returns (k: KeyCache)
      requires ValidOptions(o) && FastOf(o) == FastKey && len <= data.Length
      ensures Holds(k, data, len)
    {
      FastKeyIs(o);
      hide FastModeOf, FastOf, HeadOf, HeadView, ValidOptions, Fields.SimpleSpan;
      var t := data[..len];
      var s := Fields.SimpleKeySpan(t, o.separator, o.keys[0].place);
      ArraySlice(data, len, s.start, s.end);
      CachedHead(x, o, t, s);
      k := KeyCache(data, s.start, s.end, HeadOf(x, FastModeOf(o).mode, t[s.start..s.end]));
    }

    /** `check_key_records_disordered`: compares the cached key of the previous
        record with that of the current one, which is then cached. */
    method KeyRecordsDisordered() returns (r: bool)
      requires Valid() && havePrevious && FastOf(o) == FastKey
      modifies this`prevKey
      ensures r <==> Disordered(x, o, previous[..previousLen], Current())
      ensures prevKey.Some? && Holds(prevKey.value, current, currentLen)
    {
      hide FastModeOf, FastOf, HeadView, CompareHeads, ValidOptions, InOrder, Disordered, CachesValue;
      FastKeyIs(o);
      var p: KeyCache;
      if prevKey.Some? {
        p := prevKey.value;
      } else {
        p := FillCache(previous, previousLen);
      }
      var c := FillCache(current, currentLen);
      var result := CompareHeads(FastModeOf(o).mode, KeyHead(p), KeyHead(c));
      r := DecideByKey(x, o, previous[..previousLen], current[..currentLen], result);
      prevKey := Fields.Some(c);
    }

    /** `check_records_disordered`: bytes, a cached key, or the comparator. */
    method RecordsDisordered() returns (r: bool)
      requires Valid() && havePrevious
      modifies this`prevKey
      ensures r <==> Disordered(x, o, previous[..previousLen], Current())
      ensures FastOf(o) == FastKey ==> prevKey.Some? && Holds(prevKey.value, current, currentLen)
      ensures FastOf(o) != FastKey ==> prevKey == old(prevKey)
    {
      FastIs(o);
      hide FastModeOf, FastOf, HeadView, ValidOptions, InOrder, Disordered, CachesValue;
      match FastOf(o) {
        case FastBytes =>
          r := DecideByBytes(x, o, previous[..previousLen], current[..currentLen]);
        case FastKey =>
          r := KeyRecordsDisordered();
        case Generic =>
          r := DecideByComparator(x, o, previous[..previousLen], current[..currentLen]);
      }
    }

    /** One more record has ended. */
    method CountRecord()
      requires Valid()
      modifies this`number
      ensures Valid() && Current() == old(Current()) && number == old(number) + 1
    {
      hide ValidOptions, InOrder, FastOf, HeadView, FastModeOf;
      number := number + 1;
    }

    /** `check_process_record` and `check_record_promote`: the buffers swap, so the
        cached key of the current record becomes that of the previous one. */
    method ProcessRecord() returns (ok: bool)
      requires Valid()
      modifies this`previous, this`current, this`previousLen, this`currentLen, this`havePrevious, this`prevKey, this`seen
      ensures ok ==> Valid() && seen == old(seen) + [old(Current())] && Current() == []
      ensures ok ==> previous == old(current) && current == old(previous)
      ensures ok <==> old(seen) == [] || !Disordered(x, o, old(seen)[|old(seen)| - 1], old(Current()))
    {
      hide FastModeOf, FastOf, HeadView, ValidOptions, InOrder, Disordered, CachesValue;
      if havePrevious {
        var disordered := RecordsDisordered();
        if disordered {
          return false;
        }
      }
      OrderMore(x, o, seen, Current());
      ghost var t := Current();
      previous, current, previousLen, currentLen := current, previous, currentLen, 0;
      havePrevious := true;
      seen := seen + [t];
      ok := true;
    }
  }

  lemma ArraySlice(data: array<Byte>, len: nat, from: nat, to: nat)
    requires from <= to <= len <= data.Length
    ensures data[..len][from..to] == data[from..to]
  {
  }

  method CopyInto(a: array<Byte>, at: nat, bytes: Text)
    requires at + |bytes| <= a.Length
    modifies a
    ensures a[..at + |bytes|] == old(a[..at]) + bytes
  {
    for i := 0 to |bytes|
      invariant a[..at] == old(a[..at])
      invariant a[at..at + i] == bytes[..i]
    {
      a[at + i] := bytes[i];
      assert a[at..at + i + 1] == a[at..at + i] + [bytes[i]];
    }
    assert a[..at + |bytes|] == a[..at] + a[at..at + |bytes|];
  }

  lemma FastKeyIs(o: Options)
    requires FastOf(o) == FastKey
    ensures FastModeOf(o).Fast? && FastModeOf(o).keyed && |o.keys| == 1 && o.keys[0].place.startField >= 1
  {
  }

  lemma FastIs(o: Options)
    ensures FastOf(o) == FastBytes ==> o.keys == [] && Plain(o)
  {
  }

  lemma CachedHead(x: Outside, o: Options, t: Text, s: Fields.Span)
    requires FastOf(o) == FastKey && o.keys != [] && o.keys[0].place.startField >= 1 && FastModeOf(o).Fast?
    requires s == Fields.SimpleSpan(t, o.separator, o.keys[0].place) && s.start <= s.end <= |t|
    ensures HeadView(x, o)(t) == HeadOf(x, FastModeOf(o).mode, t[s.start..s.end])
    ensures !CachesValue(FastModeOf(o).mode) ==> HeadOf(x, FastModeOf(o).mode, t[s.start..s.end]) == TextHead(t[s.start..s.end])
  {
    FastKeyIs(o);
    hide FastModeOf, Fields.SimpleSpan;
  }

  /** The key decides, then the whole records unless that is switched off. */
  method DecideByKey(x: Outside, o: Options, a: Text, b: Text, heads: int) returns (r: bool)
    requires ValidOptions(o) && FastOf(o) == FastKey && FastModeOf(o).Fast? && |o.keys| == 1
    requires heads == CompareHeads(FastModeOf(o).mode, HeadView(x, o)(a), HeadView(x, o)(b))
    ensures r <==> Disordered(x, o, a, b)
  {
    HeadsDecide(x, o, a, b);
    hide FastModeOf, FastOf, HeadView, CompareHeads, ValidOptions, CompareOrder, UniqueOrder;
    var result := if o.keys[0].reverse then -heads else heads;
    var keyEqual := result == 0;
    if result == 0 && !(o.stable || o.unique) {
      result := CompareFromDepth(a, b, 0);
      if o.reverse {
        result := -result;
      }
    }
    r := result > 0 || (o.unique && keyEqual);
  }

  method DecideByBytes(x: Outside, o: Options, a: Text, b: Text) returns (r: bool)
    requires ValidOptions(o) && o.keys == [] && Plain(o)
    ensures r <==> Disordered(x, o, a, b)
  {
    BytesDecide(x, o, a, b);
    hide CompareOrder, UniqueOrder, ValidOptions, Plain;
    var result := CompareFromDepth(a, b, 0);
    if o.reverse {
      result := -result;
    }
    r := result > 0 || (o.unique && result == 0);
  }

  method DecideByComparator(x: Outside, o: Options, a: Text, b: Text) returns (r: bool)
    requires ValidOptions(o)
    ensures r <==> Disordered(x, o, a, b)
  {
    hide CompareOrder, UniqueOrder, ValidOptions;
    var result := CompareLines(x, o, a, b);
    var same := 1;
    if result <= 0 && o.unique {
      same := CompareUnique(x, o, a, b);
    }
    r := result > 0 || (o.unique && same == 0);
  }

  lemma OrderMore(x: Outside, o: Options, seen: seq<Text>, t: Text)
    requires ValidOptions(o) && InOrder(x, o, seen)
    requires seen == [] || !Disordered(x, o, seen[|seen| - 1], t)
    ensures InOrder(x, o, seen + [t])
  {
    hide Disordered;
  }

  lemma HeadsDecide(x: Outside, o: Options, a: Text, b: Text)
    requires ValidOptions(o) && FastOf(o) == FastKey
    ensures var h := CompareHeads(FastModeOf(o).mode, HeadView(x, o)(a), HeadView(x, o)(b));
      var k := if o.keys[0].reverse then -h else h;
      var last := if o.reverse then -Compare(a, b) else Compare(a, b);
      && (UniqueOrder(x, o)(a, b) == 0 <==> k == 0)
      && CompareOrder(x, o)(a, b) == if k != 0 || o.stable || o.unique then k else last
  {
    FastModeExact(x, o);
    FastKeyIs(o);
    FastOrders(x, o, a, b);
    hide HeadView, CompareHeads, CompareOrder, UniqueOrder, FastModeOf, FastOf, HeadOrder, TieOrder, Compare, ValidOptions;
    assert Lex(Through(HeadView(x, o), HeadOrder(o)), TieOrder(o))(a, b) == CompareOrder(x, o)(a, b);
    assert Through(HeadView(x, o), HeadOrder(o))(a, b) == 0 <==> UniqueOrder(x, o)(a, b) == 0;
  }

  lemma FastOrders(x: Outside, o: Options, a: Text, b: Text)
    requires FastOf(o) == FastKey && FastModeOf(o).Fast? && |o.keys| == 1
    ensures var h := CompareHeads(FastModeOf(o).mode, HeadView(x, o)(a), HeadView(x, o)(b));
      Through(HeadView(x, o), HeadOrder(o))(a, b) == if o.keys[0].reverse then -h else h
    ensures TieOrder(o)(a, b) ==
      if o.stable || o.unique then 0 else if o.reverse then -Compare(a, b) else Compare(a, b)
  {
    FastKeyIs(o);
    hide HeadView, CompareHeads, FastModeOf, Compare;
  }

  lemma BytesDecide(x: Outside, o: Options, a: Text, b: Text)
    requires ValidOptions(o) && o.keys == [] && Plain(o)
    ensures CompareOrder(x, o)(a, b) == if o.reverse then -Compare(a, b) else Compare(a, b)
    ensures UniqueOrder(x, o)(a, b) == Compare(a, b)
  {
    FilteredNone(a, o.modifiers);
    FilteredNone(b, o.modifiers);
  }

  // ---------- The whole stream ----------

  datatype Verdict = InOrderThroughout | DisorderAt(number: nat, text: Text)

  /** The verdict names the first record that may not follow its predecessor. */
  ghost predicate Exact(x: Outside, o: Options, rs: seq<Text>, v: Verdict)
    requires ValidOptions(o)
  {
    match v
    case InOrderThroughout => InOrder(x, o, rs)
    case DisorderAt(n, t) =>
      2 <= n <= |rs| && t == rs[n - 1] && Disordered(x, o, rs[n - 2], rs[n - 1]) && InOrder(x, o, rs[..n - 1])
  }

  lemma FoundDisorder(x: Outside, o: Options, rs: seq<Text>, seen: seq<Text>, t: Text, more: seq<Text>)
    requires ValidOptions(o) && rs == seen + ([t] + more) && seen != []
    requires InOrder(x, o, seen) && Disordered(x, o, seen[|seen| - 1], t)
    ensures Exact(x, o, rs, DisorderAt(|seen| + 1, t))
  {
    assert rs[..|seen|] == seen && rs[|seen|] == t && rs[|seen| - 1] == seen[|seen| - 1];
    hide Disordered, InOrder;
  }

  lemma ValidOrder(c: CheckStream)
    requires c.Valid()
    ensures InOrder(c.x, c.o, c.seen)
  {
  }

  /** Ends the current record and judges it. */
  method EndRecord(c: CheckStream, ghost rs: seq<Text>, ghost more: seq<Text>) returns (v: Fields.Option<Verdict>)
    requires c.Valid() && c.number == |c.seen|
    requires rs == c.seen + ([c.Current()] + more)
    modifies c
    ensures v.None? ==> c.Valid() && c.number == |c.seen| && c.Current() == [] && rs == c.seen + more
    ensures v.None? ==> c.previous == old(c.current) && c.current == old(c.previous)
    ensures v.Some? ==> ValidOptions(c.o) && Exact(c.x, c.o, rs, v.value)
  {
    ValidOrder(c);
    hide *;
    ghost var seen, t := c.seen, c.Current();
    c.CountRecord();
    CurrentIs(c);
    SeenMore(seen, t, more);
    var text := c.current[..c.currentLen];
    var ok := c.ProcessRecord();
    v := Fields.None;
    if !ok {
      v := Fields.Some(DisorderAt(c.number, text));
      FoundDisorder(c.x, c.o, rs, seen, t, more);
    }
  }

  lemma SeenMore(seen: seq<Text>, t: Text, more: seq<Text>)
    ensures (seen + [t]) + more == seen + ([t] + more)
  {
  }

  lemma CurrentIs(c: CheckStream)
    requires c.Valid()
    ensures c.currentLen <= c.current.Length && c.Current() == c.current[..c.currentLen]
  {
  }

  /** One chunk of the input; `rest` is what is still to be read. */
  method TakeChunk(c: CheckStream, d: Byte, chunk: Text, ghost rest: Text, ghost rs: seq<Text>) returns (v: Fields.Option<Verdict>)
    requires c.Valid() && c.number == |c.seen| && d !in c.Current()
    requires rs == c.seen + Split(c.Current() + (chunk + rest), d)
    modifies c, c.previous, c.current
    ensures v.None? ==> c.Valid() && c.number == |c.seen| && d !in c.Current()
    ensures v.None? ==> rs == c.seen + Split(c.Current() + rest, d)
    ensures v.None? ==> fresh({c.previous, c.current} - old({c.previous, c.current}))
    ensures v.Some? ==> ValidOptions(c.o) && Exact(c.x, c.o, rs, v.value)
  {
    hide InOrder, FastOf, HeadView, FastModeOf, ValidOptions, Exact, Split;
    var pos := 0;
    v := Fields.None;
    assert chunk[0..] == chunk;
    while pos < |chunk|
      invariant 0 <= pos <= |chunk| && v.None?
      invariant c.Valid() && c.number == |c.seen| && d !in c.Current()
      invariant rs == c.seen + Split(c.Current() + (chunk[pos..] + rest), d)
      invariant fresh({c.previous, c.current} - old({c.previous, c.current}))
      decreases |chunk| - pos
    {
      var hit := Fields.FindByte(chunk, pos, d);
      ghost var r := c.Current();
      assert d !in chunk[pos..hit];
      c.Append(chunk[pos..hit]);
      assert r + (chunk[pos..] + rest) == c.Current() + (chunk[hit..] + rest);
      if hit < |chunk| {
        assert c.Current() + (chunk[hit..] + rest) == c.Current() + [d] + (chunk[hit + 1..] + rest);
        FirstRecord(c.Current(), chunk[hit + 1..] + rest, d);
        v := EndRecord(c, rs, Split(chunk[hit + 1..] + rest, d));
        if v.Some? {
          return;
        }
        assert c.Current() + (chunk[hit + 1..] + rest) == chunk[hit + 1..] + rest;
        pos := hit + 1;
      } else {
        pos := hit;
      }
    }
    assert chunk[pos..] + rest == rest;
  }

  /** `check_fd`: in order, or the first record out of order, whatever the chunks. */
  method CheckInput(x: Outside, o: Options, d: Byte, chunks: seq<Text>) returns (v: Verdict)
    requires ValidOptions(o)
    ensures Exact(x, o, Split(Concat(chunks), d), v)
  {
    hide InOrder, FastOf, HeadView, FastModeOf, ValidOptions, Exact, Split, Concat;
    ghost var rs := Split(Concat(chunks), d);
    var c := new CheckStream(x, o);
    assert chunks[0..] == chunks;
    assert [] + rs == rs && c.Current() + Concat(chunks) == Concat(chunks);
    for i := 0 to |chunks|
      invariant c.Valid() && c.number == |c.seen| && d !in c.Current()
      invariant fresh(c) && fresh(c.previous) && fresh(c.current) && c.x == x && c.o == o
      invariant rs == c.seen + Split(c.Current() + Concat(chunks[i..]), d)
    {
      assert chunks[i..] == [chunks[i]] + chunks[i + 1..];
      ConcatCons(chunks[i], chunks[i + 1..]);
      var w := TakeChunk(c, d, chunks[i], Concat(chunks[i + 1..]), rs);
      if w.Some? {
        return w.value;
      }
    }
    NoBytes();
    assert c.Current() + Concat(chunks[|chunks|..]) == c.Current();
    LastRecord(c.Current(), d);
    v := LastVerdict(c, rs);
  }

  /** An unterminated last record counts too. */
  method LastVerdict(c: CheckStream, ghost rs: seq<Text>) returns (v: Verdict)
    requires c.Valid() && c.number == |c.seen|
    requires rs == c.seen + if c.Current() == [] then [] else [c.Current()]
    modifies c
    ensures ValidOptions(c.o) && Exact(c.x, c.o, rs, v)
  {
    ValidOrder(c);
    if c.currentLen > 0 {
      assert [c.Current()] + [] == [c.Current()];
      var w := EndRecord(c, rs, []);
      if w.Some? {
        return w.value;
      }
      ValidOrder(c);
      assert rs == c.seen;
    } else {
      assert rs == c.seen;
    }
    v := InOrderThroughout;
  }
}
