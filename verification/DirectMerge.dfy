/** The direct merge (src/merge.c): runs are compared by cached keys of their
    heads, and lines are written as they come out of the heap. */
module DirectMerge {
  import opened Bytes
  import opened Comparator
  import Fields
  import opened Heap
  import opened HeapMerge
  import Numeric
  import opened Orders
  import opened Unique
  import Version

  // ---------- The merge, for any cached view of a line ----------

  /** `caches[k]` is the view of the head of run `k`, while it has one. */
  ghost predicate Cached<A, V>(view: A -> V, items: seq<A>, pos: seq<nat>, ends: seq<nat>, caches: seq<Fields.Option<V>>) {
    && Placed(|items|, pos, ends) && |caches| == |pos|
    && forall k :: 0 <= k < |pos| && pos[k] < ends[k] ==> caches[k] == Fields.Some(view(items[pos[k]]))
  }

  /** Cached keys first; the lines themselves only when those tie. */
  function CachedLess<A, V>(vc: (V, V) -> int, f: (A, A) -> int, items: seq<A>, pos: seq<nat>, caches: seq<Fields.Option<V>>): (nat, nat) -> bool {
    (a: nat, b: nat) =>
      a < |pos| && b < |pos| && pos[a] < |items| && pos[b] < |items| && a < |caches| && b < |caches| &&
      caches[a].Some? && caches[b].Some? &&
      var r := vc(caches[a].value, caches[b].value);
      var s := if r != 0 then r else f(items[pos[a]], items[pos[b]]);
      s < 0 || (s == 0 && a < b)
  }

  /** As long as the caches are up to date, comparing through them is comparing
      the lines. */
  lemma CachedLessModels<A, V>(view: A -> V, vc: (V, V) -> int, f: (A, A) -> int, items: seq<A>, pos: seq<nat>, ends: seq<nat>, caches: seq<Fields.Option<V>>)
    requires Cached(view, items, pos, ends, caches)
    ensures Placed(|items|, pos, ends)
    ensures Models(Lex(Through(view, vc), f), Rest(items, pos, ends), CachedLess(vc, f, items, pos, caches))
  {
    var rest := Rest(items, pos, ends);
    forall a, b | a in Live(rest) && b in Live(rest)
      ensures CachedLess(vc, f, items, pos, caches)(a, b) == HeadLess(Lex(Through(view, vc), f), rest, a, b)
    {
      assert rest[a][0] == items[pos[a]] && rest[b][0] == items[pos[b]];
    }
  }

  method InitCaches<A, V>(view: A -> V, items: seq<A>, pos: seq<nat>, ends: seq<nat>) returns (caches: seq<Fields.Option<V>>)
    requires Placed(|items|, pos, ends)
    ensures Cached(view, items, pos, ends, caches)
  {
    caches := [];
    for i := 0 to |pos|
      invariant |caches| == i
      invariant forall k :: 0 <= k < i && pos[k] < ends[k] ==> caches[k] == Fields.Some(view(items[pos[k]]))
    {
      var head: Fields.Option<V> := Fields.None;
      if pos[i] < ends[i] {
        head := Fields.Some(view(items[pos[i]]));
      }
      caches := caches + [head];
    }
  }

  /** Moving a run on, and refreshing its cache unless the run has ended. */
  lemma CacheStep<A, V>(view: A -> V, items: seq<A>, pos: seq<nat>, ends: seq<nat>, caches: seq<Fields.Option<V>>, i: nat, caches': seq<Fields.Option<V>>)
    requires Cached(view, items, pos, ends, caches) && i < |pos| && pos[i] < ends[i]
    requires caches' == if pos[i] + 1 == ends[i] then caches
                        else caches[i := Fields.Some(if pos[i] + 1 < |items| then view(items[pos[i] + 1]) else view(items[pos[i]]))]
    ensures Cached(view, items, pos[i := pos[i] + 1], ends, caches')
  {
  }

  /** What has been written when `done` has come out of the heap. */
  ghost function Emitted<A>(u: (A, A) -> int, unique: bool, done: seq<A>): seq<A> {
    if unique then Dedup(u, done) else done
  }

  method EmitHead<A, V>(view: A -> V, vc: (V, V) -> int, unique: bool, line: A, head: V, out: seq<A>, last: Fields.Option<V>, ghost done: seq<A>)
    returns (out': seq<A>, last': Fields.Option<V>)
    requires head == view(line)
    requires out == Emitted(Through(view, vc), unique, done)
    requires unique ==> last == if out == [] then Fields.None else Fields.Some(view(out[|out| - 1]))
    ensures out' == Emitted(Through(view, vc), unique, done + [line])
    ensures unique ==> last' == if out' == [] then Fields.None else Fields.Some(view(out'[|out'| - 1]))
  {
    DedupIs(Through(view, vc), done, line);
    out', last' := out, last;
    var skip := unique && last.Some? && vc(last.value, head) == 0;
    if !skip {
      out' := out + [line];
      if unique {
        last' := Fields.Some(head);
      }
    }
  }

  /** What the loop keeps: the merge itself, up-to-date caches, a heap, and the
      lines written so far with the key of the last one. */
  ghost predicate Direct<A(!new), V>(view: A -> V, vc: (V, V) -> int, f: (A, A) -> int, unique: bool, items: seq<A>, pos: seq<nat>, ends: seq<nat>,
                               caches: seq<Fields.Option<V>>, h: seq<nat>, done: seq<A>, out: seq<A>, last: Fields.Option<V>) {
    && Merging(Lex(Through(view, vc), f), items, done, pos, ends) && Cached(view, items, pos, ends, caches)
    && Ready(Lex(Through(view, vc), f), Rest(items, pos, ends), CachedLess(vc, f, items, pos, caches), h)
    && out == Emitted(Through(view, vc), unique, done)
    && (unique ==> last == if out == [] then Fields.None else Fields.Some(view(out[|out| - 1])))
  }

  lemma DirectBound<A(!new), V>(view: A -> V, vc: (V, V) -> int, f: (A, A) -> int, unique: bool, items: seq<A>, pos: seq<nat>, ends: seq<nat>,
                          caches: seq<Fields.Option<V>>, h: seq<nat>, done: seq<A>, out: seq<A>, last: Fields.Option<V>)
    requires Direct(view, vc, f, unique, items, pos, ends, caches, h, done, out, last)
    ensures |done| <= |items|
  {
    MergingBound(Lex(Through(view, vc), f), items, done, pos, ends);
  }

  lemma DirectDone<A(!new), V>(view: A -> V, vc: (V, V) -> int, f: (A, A) -> int, unique: bool, items: seq<A>, pos: seq<nat>, ends: seq<nat>,
                         caches: seq<Fields.Option<V>>, done: seq<A>, out: seq<A>, last: Fields.Option<V>)
    requires Direct(view, vc, f, unique, items, pos, ends, caches, [], done, out, last)
    ensures out == Emitted(Through(view, vc), unique, StableSort(Lex(Through(view, vc), f), items))
  {
    EmptyHeap(Rest(items, pos, ends), []);
    MergingDone(Lex(Through(view, vc), f), items, done, pos, ends);
  }

  method StartDirect<A(!new), V(!new)>(view: A -> V, vc: (V, V) -> int, f: (A, A) -> int, unique: bool, items: seq<A>, bounds: seq<nat>, heap: array<nat>)
    returns (caches: seq<Fields.Option<V>>, len: nat)
    requires TotalPreorder(Lex(Through(view, vc), f))
    requires Partition(bounds, |items|) && Placed(|items|, bounds[..|bounds| - 1], bounds[1..])
    requires AllSorted(Lex(Through(view, vc), f), Rest(items, bounds[..|bounds| - 1], bounds[1..]))
    requires heap.Length == |bounds| - 1
    modifies heap
    ensures len <= heap.Length
    ensures Direct(view, vc, f, unique, items, bounds[..|bounds| - 1], bounds[1..], caches, heap[..len], [], [], Fields.None)
  {
    hide TotalPreorder, Partition, Placed, AllSorted, Cached, Merging, Ready, Models, Lex, Through, Dedup;
    MergingStart(Lex(Through(view, vc), f), items, bounds);
    caches := InitCaches(view, items, bounds[..|bounds| - 1], bounds[1..]);
    CachedLessModels(view, vc, f, items, bounds[..|bounds| - 1], bounds[1..], caches);
    len := StartHeap(Lex(Through(view, vc), f), CachedLess(vc, f, items, bounds[..|bounds| - 1], caches), heap, bounds[..|bounds| - 1], bounds[1..], items);
    EmittedNothing(Through(view, vc), unique);
  }

  method DirectStep<A(!new), V(!new)>(view: A -> V, vc: (V, V) -> int, f: (A, A) -> int, unique: bool, items: seq<A>, pos: seq<nat>, ends: seq<nat>,
                                      caches: seq<Fields.Option<V>>, heap: array<nat>, len: nat, ghost done: seq<A>, out: seq<A>, last: Fields.Option<V>)
    returns (pos': seq<nat>, caches': seq<Fields.Option<V>>, len': nat, ghost done': seq<A>, out': seq<A>, last': Fields.Option<V>)
    requires TotalPreorder(Lex(Through(view, vc), f)) && 0 < len <= heap.Length
    requires Direct(view, vc, f, unique, items, pos, ends, caches, heap[..len], done, out, last)
    modifies heap
    ensures len' <= heap.Length && |done'| == |done| + 1
    ensures Direct(view, vc, f, unique, items, pos', ends, caches', heap[..len'], done', out', last')
  {
    var choice := heap[0];
    MergingPlaced(Lex(Through(view, vc), f), items, done, pos, ends);
    hide TotalPreorder, Placed, Cached, Merging, Ready, Lex, Through, Dedup, CachedLess;
    RootIsNext(Lex(Through(view, vc), f), Rest(items, pos, ends), CachedLess(vc, f, items, pos, caches), heap[..len]);
    MergingStep(Lex(Through(view, vc), f), items, done, pos, ends, choice);
    HeadCached(view, items, pos, ends, caches, choice);
    out', last' := EmitHead(view, vc, unique, items[pos[choice]], caches[choice].value, out, last, done);
    done' := done + [items[pos[choice]]];
    MergingPlaced(Lex(Through(view, vc), f), items, done', pos[choice := pos[choice] + 1], ends);
    pos', caches', len' := AdvanceRun(view, vc, f, items, pos, ends, caches, heap, len, done');
  }

  /** The heap loop over cached heads: the stable sort of everything, and under
      `-u` the first of every class. */
  method MergeDirect<A(!new), V(!new)>(view: A -> V, vc: (V, V) -> int, f: (A, A) -> int, unique: bool, items: seq<A>, bounds: seq<nat>)
    returns (out: seq<A>)
    requires TotalPreorder(Lex(Through(view, vc), f))
    requires Partition(bounds, |items|) && Placed(|items|, bounds[..|bounds| - 1], bounds[1..])
    requires AllSorted(Lex(Through(view, vc), f), Rest(items, bounds[..|bounds| - 1], bounds[1..]))
    ensures out == Emitted(Through(view, vc), unique, StableSort(Lex(Through(view, vc), f), items))
  {
    assert |bounds| >= 1;
    hide *;
    var pos: seq<nat>, ends: seq<nat> := bounds[..|bounds| - 1], bounds[1..];
    var heap := new nat[|pos|];
    var caches, len: nat := StartDirect(view, vc, f, unique, items, bounds, heap);
    var last: Fields.Option<V> := Fields.None;
    ghost var done: seq<A> := [];
    out := [];
    while len > 0
      invariant len <= heap.Length
      invariant Direct(view, vc, f, unique, items, pos, ends, caches, heap[..len], done, out, last)
      decreases |items| - |done|
    {
      pos, caches, len, done, out, last := DirectStep(view, vc, f, unique, items, pos, ends, caches, heap, len, done, out, last);
      DirectBound(view, vc, f, unique, items, pos, ends, caches, heap[..len], done, out, last);
    }
    assert heap[..len] == [];
    DirectDone(view, vc, f, unique, items, pos, ends, caches, done, out, last);
  }

  lemma EmittedNothing<A>(u: (A, A) -> int, unique: bool)
    ensures Emitted(u, unique, []) == []
  {
  }

  lemma HeadCached<A, V>(view: A -> V, items: seq<A>, pos: seq<nat>, ends: seq<nat>, caches: seq<Fields.Option<V>>, k: nat)
    requires Cached(view, items, pos, ends, caches) && k < |pos| && pos[k] < ends[k] <= |items|
    ensures |caches| == |pos| && caches[k] == Fields.Some(view(items[pos[k]]))
  {
  }

  method AdvanceRun<A(!new), V(!new)>(view: A -> V, vc: (V, V) -> int, f: (A, A) -> int, items: seq<A>, pos: seq<nat>, ends: seq<nat>,
                                      caches: seq<Fields.Option<V>>, heap: array<nat>, len: nat, ghost done: seq<A>)
    returns (pos': seq<nat>, caches': seq<Fields.Option<V>>, len': nat)
    requires TotalPreorder(Lex(Through(view, vc), f))
    requires 0 < len <= heap.Length && heap[0] < |pos| == |ends| && pos[heap[0]] < ends[heap[0]] <= |items|
    requires Cached(view, items, pos, ends, caches) && Placed(|items|, pos, ends)
    requires Ready(Lex(Through(view, vc), f), Rest(items, pos, ends), CachedLess(vc, f, items, pos, caches), heap[..len])
    requires var pos1 := pos[heap[0] := pos[heap[0]] + 1];
      Merging(Lex(Through(view, vc), f), items, done, pos1, ends) && Placed(|items|, pos1, ends) &&
      Rest(items, pos1, ends) == Rest(items, pos, ends)[heap[0] := Rest(items, pos, ends)[heap[0]][1..]]
    modifies heap
    ensures pos' == pos[old(heap[0]) := pos[old(heap[0])] + 1]
    ensures Placed(|items|, pos', ends) && Cached(view, items, pos', ends, caches') && len' <= heap.Length
    ensures Ready(Lex(Through(view, vc), f), Rest(items, pos', ends), CachedLess(vc, f, items, pos', caches'), heap[..len'])
  {
    var choice := heap[0];
    assert |caches| == |pos|;
    hide *;
    pos' := pos[choice := pos[choice] + 1];
    caches' := caches;
    if pos'[choice] != ends[choice] {
      caches' := caches[choice := Fields.Some(view(items[pos'[choice]]))];
    }
    CacheStep(view, items, pos, ends, caches, choice, caches');
    CachedLessModels(view, vc, f, items, pos', ends, caches');
    len' := Replace(heap, len, CachedLess(vc, f, items, pos', caches'), pos'[choice] == ends[choice],
                    Lex(Through(view, vc), f), Rest(items, pos, ends), CachedLess(vc, f, items, pos, caches));
  }

  // ---------- The modes that take the direct merge ----------

  /** One cached key: its parsed value in the modes that have one, else its bytes. */
  datatype Head = NumberHead(number: Numeric.Value) | GeneralHead(general: General) | HumanHead(human: real)
                | MonthHead(month: int) | TextHead(text: Text)

  datatype FastMode = NoFast | Fast(keyed: bool, mode: Mode)

  predicate CachesValue(mode: Mode) {
    mode == ByNumber || mode == ByGeneral || mode == ByHuman || mode == ByMonth
  }

  /** When the direct merge may run: whole lines by value or version, or one plain
      key, with byte keys only if no modifier touches them. */
  function FastModeOf(o: Options): FastMode {
    if |o.keys| == 0 then
      if CachesValue(o.mode) || (o.mode == ByVersion && !o.ignoreBlanks) then Fast(false, o.mode) else NoFast
    else if |o.keys| != 1 then NoFast
    else
      var k := o.keys[0];
      var p := k.place;
      if !(p.startField > 0 && p.startChar.None? && p.end.Some? && p.end.value == p.startField && p.endChar.None?) then NoFast
      else if o.separator.Some? && (p.startBlanks || p.endBlanks) then NoFast
      else if CachesValue(k.mode) || k.mode == ByVersion || (k.mode == ByBytes && k.modifiers.None()) then Fast(true, k.mode)
      else NoFast
  }

  /** What is cached for the text of a key or a line. */
  function HeadOf(x: Outside, mode: Mode, t: Text): Head {
    match mode
    case ByNumber => NumberHead(Numeric.Parsed(t))
    case ByGeneral => GeneralHead(x.general(t))
    case ByHuman => HumanHead(x.human(t))
    case ByMonth => MonthHead(x.month(t))
    case _ => TextHead(t)
  }

  function CompareHeads(mode: Mode, a: Head, b: Head): int {
    match (mode, a, b)
    case (ByNumber, NumberHead(m), NumberHead(n)) => Numeric.CompareValues(m, n)
    case (ByGeneral, GeneralHead(m), GeneralHead(n)) => CompareGeneral(m, n)
    case (ByHuman, HumanHead(m), HumanHead(n)) => Numeric.Sign(m - n)
    case (ByMonth, MonthHead(m), MonthHead(n)) => Numeric.SignOf(m - n)
    case (ByBytes, TextHead(m), TextHead(n)) => Compare(m, n)
    case (_, TextHead(m), TextHead(n)) => Version.VersionOrder()(m, n)
    case _ => 0
  }

  /** Cached heads compare as the texts do. */
  lemma HeadsExact(x: Outside, mode: Mode, m: Modifiers, a: Text, b: Text)
    requires CachesValue(mode) || mode == ByVersion || (mode == ByBytes && m.None())
    ensures CompareHeads(mode, HeadOf(x, mode, a), HeadOf(x, mode, b)) == ModeOrder(x, mode, m)(a, b)
  {
    hide Numeric.Parsed, Numeric.CompareValues, Version.VersionOrder, FilteredFrom, Compare;
    if mode == ByBytes {
      FilteredNone(a, m);
      FilteredNone(b, m);
    }
  }

  /** The key of a head, by the shortcut, or the whole line. */
  function HeadText(o: Options, keyed: bool, t: Text): Text
    requires keyed ==> |o.keys| == 1 && o.keys[0].place.startField >= 1
  {
    if keyed then
      var s := Fields.SimpleSpan(t, o.separator, o.keys[0].place);
      if s.start <= s.end <= |t| then t[s.start..s.end] else []
    else t
  }

  function HeadView(x: Outside, o: Options): Text -> Head
    requires FastModeOf(o).Fast?
  {
    (t: Text) => HeadOf(x, FastModeOf(o).mode, HeadText(o, FastModeOf(o).keyed, t))
  }

  /** The key's direction, or the global one for whole lines. */
  function HeadReverse(o: Options): bool
    requires FastModeOf(o).Fast?
  {
    if FastModeOf(o).keyed then o.keys[0].reverse else o.reverse
  }

  function HeadOrder(o: Options): (Head, Head) -> int
    requires FastModeOf(o).Fast?
  {
    var c := (a: Head, b: Head) => CompareHeads(FastModeOf(o).mode, a, b);
    Directed(HeadReverse(o), c)
  }

  function TieOrder(o: Options): (Text, Text) -> int {
    if LastResort(o) then Directed(o.reverse, ByteOrder()) else Indifferent()
  }

  lemma ViewText(o: Options, t: Text)
    requires ValidOptions(o) && FastModeOf(o).Fast?
    ensures HeadText(o, FastModeOf(o).keyed, t) ==
            if FastModeOf(o).keyed then Fields.KeyText(t, o.separator, o.keys[0].place) else t
  {
    if FastModeOf(o).keyed {
      Fields.SimpleSpanExact(t, o.separator, o.keys[0].place);
    }
  }

  /** The heads as they are compared. */
  lemma HeadsCompared(x: Outside, o: Options, a: Text, b: Text)
    requires ValidOptions(o) && FastModeOf(o).Fast?
    ensures var mode, keyed := FastModeOf(o).mode, FastModeOf(o).keyed;
      var r := CompareHeads(mode, HeadOf(x, mode, HeadText(o, keyed, a)), HeadOf(x, mode, HeadText(o, keyed, b)));
      Through(HeadView(x, o), HeadOrder(o))(a, b) == if HeadReverse(o) then -r else r
  {
    hide CompareHeads, HeadOf, HeadText, FastModeOf, HeadReverse;
  }

  lemma FastModeMeans(o: Options)
    requires FastModeOf(o).Fast?
    ensures var mode, keyed := FastModeOf(o).mode, FastModeOf(o).keyed;
      var m := if keyed && o.keys != [] then o.keys[0].modifiers else o.modifiers;
      && (CachesValue(mode) || mode == ByVersion || (mode == ByBytes && m.None()))
      && (if keyed then |o.keys| == 1 && o.keys[0].mode == mode
          else o.keys == [] && o.mode == mode && LineStartsPlain(o))
  {
  }

  /** No leading blanks are dropped. */
  predicate LineStartsPlain(o: Options) {
    !(o.ignoreBlanks && (o.mode == ByBytes || o.mode == ByVersion || o.mode == ByRandom))
  }

  lemma PlainStart(x: Outside, o: Options, a: Text, b: Text)
    requires LineStartsPlain(o)
    ensures LineOrder(x, o)(a, b) == ModeOrder(x, o.mode, o.modifiers)(a, b)
  {
    hide ModeOrder;
  }

  lemma FastKeyOrder(x: Outside, o: Options, a: Text, b: Text)
    requires ValidOptions(o) && FastModeOf(o).Fast?
    ensures Through(HeadView(x, o), HeadOrder(o))(a, b) ==
            (if FastModeOf(o).keyed then KeysOrder(x, o, 0)(a, b) else Directed(o.reverse, LineOrder(x, o))(a, b))
  {
    var mode, keyed := FastModeOf(o).mode, FastModeOf(o).keyed;
    HeadsCompared(x, o, a, b);
    FastModeMeans(o);
    ViewText(o, a);
    ViewText(o, b);
    hide CompareHeads, HeadOf, ModeOrder, HeadText, KeysOrder, KeyOrder, FastModeOf, HeadOrder, HeadView, LineOrder, CachesValue, LineStartsPlain;
    HeadsExact(x, mode, if keyed then o.keys[0].modifiers else o.modifiers, HeadText(o, keyed, a), HeadText(o, keyed, b));
    if keyed {
      KeyOrderAt(x, o.separator, o.keys[0], a, b);
      SingleKey(x, o, a, b);
    } else {
      PlainStart(x, o, a, b);
    }
  }

  /** The direct merge orders heads by the comparator, and drops what `-u` drops. */
  lemma FastModeExact(x: Outside, o: Options)
    requires ValidOptions(o) && FastModeOf(o).Fast?
    ensures Agree(Lex(Through(HeadView(x, o), HeadOrder(o)), TieOrder(o)), CompareOrder(x, o))
    ensures SameZeros(Through(HeadView(x, o), HeadOrder(o)), UniqueOrder(x, o))
  {
    hide HeadView, HeadOrder, KeysOrder, LineOrder;
    forall a: Text, b: Text
      ensures Lex(Through(HeadView(x, o), HeadOrder(o)), TieOrder(o))(a, b) == CompareOrder(x, o)(a, b)
      ensures Through(HeadView(x, o), HeadOrder(o))(a, b) == 0 <==> UniqueOrder(x, o)(a, b) == 0
    {
      FastKeyOrder(x, o, a, b);
    }
  }

  lemma AgreePreorder<A(!new)>(c: (A, A) -> int, d: (A, A) -> int)
    requires Agree(c, d) && TotalPreorder(d)
    ensures TotalPreorder(c)
  {
  }

  lemma AgreeSorted<A(!new)>(c: (A, A) -> int, d: (A, A) -> int, ss: seq<seq<A>>)
    requires Agree(c, d) && AllSorted(d, ss)
    ensures AllSorted(c, ss)
  {
    forall k | 0 <= k < |ss| ensures Sorted(c, ss[k]) {
      assert Sorted(d, ss[k]);
    }
  }

  /** `sort -m` in a fast mode writes the stable sort of all records under the
      comparator, or the first of every class of it. */
  method MergeRecords(x: Outside, o: Options, records: seq<Text>, bounds: seq<nat>) returns (out: seq<Text>)
    requires ValidOptions(o) && FastModeOf(o).Fast?
    requires Partition(bounds, |records|) && Placed(|records|, bounds[..|bounds| - 1], bounds[1..])
    requires AllSorted(CompareOrder(x, o), Rest(records, bounds[..|bounds| - 1], bounds[1..]))
    ensures out == Emitted(UniqueOrder(x, o), o.unique, StableSort(CompareOrder(x, o), records))
  {
    assert |bounds| >= 1;
    hide *;
    ghost var c := Lex(Through(HeadView(x, o), HeadOrder(o)), TieOrder(o));
    FastModeExact(x, o);
    ComparePreorder(x, o);
    AgreePreorder(c, CompareOrder(x, o));
    AgreeSorted(c, CompareOrder(x, o), Rest(records, bounds[..|bounds| - 1], bounds[1..]));
    out := MergeDirect(HeadView(x, o), HeadOrder(o), TieOrder(o), o.unique, records, bounds);
    StableSortAgrees(c, CompareOrder(x, o), records);
    EmittedAgrees(Through(HeadView(x, o), HeadOrder(o)), UniqueOrder(x, o), o.unique, StableSort(c, records));
  }

  lemma EmittedAgrees<A(!new)>(c: (A, A) -> int, d: (A, A) -> int, unique: bool, s: seq<A>)
    requires SameZeros(c, d)
    ensures Emitted(c, unique, s) == Emitted(d, unique, s)
  {
    DedupAgrees(c, d, s);
  }
}
