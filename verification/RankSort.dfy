/** The planner and the dispatcher (src/plan.c, src/sort.c), and what the writer
    makes of their result (src/output.c): every engine the planner picks writes
    what the scalar engine writes. */
module RankSort {
  import opened Bytes
  import opened Comparator
  import Fields
  import opened Groups
  import opened Insertion
  import K = KeyEngine
  import X = KeyExact
  import opened LineSort
  import MergeSort
  import Numeric
  import opened Orders
  import R = StableRadix
  import opened Records
  import T = TransformedEngine
  import Threads
  import opened Unique

  // ---------- The plan ----------

  datatype PlanKind = Scalar | RadixBytes | RadixKeys | RadixTransformed

  ghost predicate AnyModifiers(o: Options) {
    !o.modifiers.None() || exists k :: 0 <= k < |o.keys| && !o.keys[k].modifiers.None()
  }

  ghost predicate AnySpecial(o: Options) {
    o.mode != ByBytes || exists k :: 0 <= k < |o.keys| && o.keys[k].mode != ByBytes
  }

  ghost predicate FilteredLinesPlan(o: Options) {
    |o.keys| == 0 && !(o.reverse && o.stable)
  }

  ghost predicate FilteredKeyPlan(o: Options) {
    |o.keys| == 1 && !o.reverse && !o.unique && !o.keys[0].reverse && o.keys[0].mode == ByBytes
  }

  ghost function PlanOf(o: Options): PlanKind {
    if AnyModifiers(o) || (|o.keys| == 0 && o.ignoreBlanks) then
      if o.mode == ByBytes && (FilteredLinesPlan(o) || FilteredKeyPlan(o)) then RadixTransformed else Scalar
    else if AnySpecial(o) then Scalar
    else if |o.keys| > 0 then RadixKeys
    else RadixBytes
  }

  method HasTextModifiers(o: Options) returns (r: bool)
    ensures r <==> AnyModifiers(o)
  {
    if !o.modifiers.None() {
      return true;
    }
    for i := 0 to |o.keys|
      invariant forall k :: 0 <= k < i ==> o.keys[k].modifiers.None()
    {
      if !o.keys[i].modifiers.None() {
        return true;
      }
    }
    r := false;
  }

  method HasSpecialSort(o: Options) returns (r: bool)
    ensures r <==> AnySpecial(o)
  {
    if o.mode != ByBytes {
      return true;
    }
    for i := 0 to |o.keys|
      invariant forall k :: 0 <= k < i ==> o.keys[k].mode == ByBytes
    {
      if o.keys[i].mode != ByBytes {
        return true;
      }
    }
    r := false;
  }

  method PlanFromOptions(o: Options) returns (plan: PlanKind)
    ensures plan == PlanOf(o)
  {
    var modifiers := HasTextModifiers(o);
    if modifiers || (|o.keys| == 0 && o.ignoreBlanks) {
      if o.mode == ByBytes {
        if |o.keys| == 0 && !(o.reverse && o.stable) {
          return RadixTransformed;
        }
        if |o.keys| == 1 && !o.reverse && !o.unique && !o.keys[0].reverse && o.keys[0].mode == ByBytes {
          return RadixTransformed;
        }
      }
      return Scalar;
    }
    var special := HasSpecialSort(o);
    if special {
      return Scalar;
    }
    plan := if |o.keys| > 0 then RadixKeys else RadixBytes;
  }

  // ---------- Lines and orders ----------

  /** The comparator on lines of a buffer: the oracle's order. */
  function LineCompare(x: Outside, o: Options, data: Text): (Line, Line) -> int
    requires ValidOptions(o)
  {
    Through(LineText(data), CompareOrder(x, o))
  }

  function FilteredLine(o: Options, data: Text): Line -> Text {
    (l: Line) => Filtered(LineStart(o)(LineText(data)(l)), o.modifiers)
  }

  function FilteredKey(o: Options, data: Text): Line -> Text
    requires ValidOptions(o) && |o.keys| == 1
  {
    (l: Line) => Filtered(Fields.KeyText(LineText(data)(l), o.separator, o.keys[0].place), o.keys[0].modifiers)
  }

  function KeyOf(o: Options, data: Text, i: nat): Line -> Text
    requires ValidOptions(o) && i < |o.keys|
  {
    (l: Line) => Fields.KeyText(LineText(data)(l), o.separator, o.keys[i].place)
  }

  function KeyPlan(o: Options, data: Text): (p: K.Plan<Line>)
    requires ValidOptions(o)
    ensures |p.keys| == |o.keys|
  {
    K.Plan(seq(|o.keys|, i requires 0 <= i < |o.keys| => K.Key(KeyOf(o, data, i), o.keys[i].reverse)),
           LineText(data), o.reverse, o.stable, o.unique)
  }

  /** The same plan, for texts on their own. */
  function TextPlan(o: Options): (p: K.Plan<Text>)
    requires ValidOptions(o)
    ensures |p.keys| == |o.keys|
  {
    K.Plan(seq(|o.keys|, i requires 0 <= i < |o.keys| => K.Key(KeyTextOf(o.separator, o.keys[i].place), o.keys[i].reverse)),
           (t: Text) => t, o.reverse, o.stable, o.unique)
  }

  lemma PlanOfTexts(o: Options, data: Text)
    requires ValidOptions(o)
    ensures X.Views(LineText(data), KeyPlan(o, data), TextPlan(o))
  {
    var p, q := KeyPlan(o, data), TextPlan(o);
    forall i: int, l: Line | 0 <= i < |p.keys| ensures p.keys[i].span(l) == q.keys[i].span(LineText(data)(l)) {
      assert p.keys[i].span == KeyOf(o, data, i);
    }
    hide LineText;
    forall l: Line ensures p.text(l) == q.text(LineText(data)(l)) {
    }
  }

  lemma LineComparePreorder(x: Outside, o: Options, data: Text)
    requires ValidOptions(o)
    ensures TotalPreorder(LineCompare(x, o, data))
  {
    ComparePreorder(x, o);
    ThroughPreorder(LineText(data), CompareOrder(x, o));
  }

  // ---------- What is written ----------

  /** The writer drops lines equal to the last one written, under `-u`. */
  ghost function Written(x: Outside, o: Options, texts: seq<Text>): seq<Text>
    requires ValidOptions(o)
  {
    if o.unique then Dedup(UniqueOrder(x, o), texts) else texts
  }

  /** The texts in the oracle's order: one stable sort by the comparator. */
  ghost function OracleTexts(x: Outside, o: Options, data: Text, s: seq<Line>): seq<Text>
    requires ValidOptions(o)
  {
    Map(LineText(data), StableSort(LineCompare(x, o, data), s))
  }

  /** An engine's array and flag write what the oracle writes, and all of it is in
      order even before the writer drops anything. */
  ghost predicate Agrees(x: Outside, o: Options, data: Text, s: seq<Line>, items: seq<Line>, reversed: bool)
    requires ValidOptions(o)
  {
    && Written(x, o, Map(LineText(data), K.Output(items, reversed))) == Written(x, o, OracleTexts(x, o, data, s))
    && Sorted(CompareOrder(x, o), Map(LineText(data), K.Output(items, reversed)))
  }

  lemma SortedMap<A(!new), B>(f: A -> B, c: (B, B) -> int, s: seq<A>)
    ensures Sorted(c, Map(f, s)) <==> Sorted(Through(f, c), s)
  {
  }

  lemma OracleSorted(x: Outside, o: Options, data: Text, s: seq<Line>)
    requires ValidOptions(o)
    ensures Sorted(CompareOrder(x, o), OracleTexts(x, o, data, s))
  {
    var c := LineCompare(x, o, data);
    LineComparePreorder(x, o, data);
    hide TotalPreorder, CompareOrder, StableSort, Map, LineText, Sorted, Project;
    StableSortStable(c, s);
    StableIsSorted(c, s, StableSort(c, s));
    SortedMap(LineText(data), CompareOrder(x, o), StableSort(c, s));
  }

  lemma StableIsSorted<A(!new)>(c: (A, A) -> int, s: seq<A>, t: seq<A>)
    requires IsStableSort(c, s, t)
    ensures Sorted(c, t)
  {
  }

  lemma AgreesIfTexts(x: Outside, o: Options, data: Text, s: seq<Line>, items: seq<Line>, reversed: bool)
    requires ValidOptions(o)
    requires Map(LineText(data), K.Output(items, reversed)) == OracleTexts(x, o, data, s)
    ensures Agrees(x, o, data, s, items, reversed)
  {
    hide Sorted, Map, CompareOrder;
    OracleSorted(x, o, data, s);
  }

  lemma WrittenStart(x: Outside, o: Options, texts: seq<Text>)
    requires ValidOptions(o)
    ensures Written(x, o, texts[..0]) == []
  {
  }

  lemma WrittenStep(x: Outside, o: Options, texts: seq<Text>, i: nat)
    requires ValidOptions(o) && i < |texts|
    ensures var d := Written(x, o, texts[..i]);
            Written(x, o, texts[..i + 1]) ==
            if o.unique && d != [] && UniqueOrder(x, o)(d[|d| - 1], texts[i]) == 0 then d else d + [texts[i]]
  {
    hide UniqueOrder, Dedup;
    DedupIs(UniqueOrder(x, o), texts[..i], texts[i]);
    assert texts[..i + 1] == texts[..i] + [texts[i]];
  }

  /** Writes a line unless `-u` finds it equal to the last one written. */
  method EmitLine(x: Outside, o: Options, out: seq<Text>, text: Text) returns (next: seq<Text>)
    requires ValidOptions(o)
    ensures next == (if o.unique && out != [] && UniqueOrder(x, o)(out[|out| - 1], text) == 0 then out else out + [text])
  {
    hide UniqueOrder;
    if o.unique && out != [] {
      var same := CompareUnique(x, o, out[|out| - 1], text);
      if same == 0 {
        return out;
      }
    }
    next := out + [text];
  }

  /** One turn of the writer's loop. */
  method WriteNext(x: Outside, o: Options, data: Text, line: Line, out: seq<Text>, ghost texts: seq<Text>, ghost i: nat) returns (next: seq<Text>)
    requires ValidOptions(o) && i < |texts| && texts[i] == LineText(data)(line)
    requires out == Written(x, o, texts[..i])
    ensures next == Written(x, o, texts[..i + 1])
  {
    hide *;
    WrittenStep(x, o, texts, i);
    next := EmitLine(x, o, out, LineText(data)(line));
  }

  /** The texts that an array and its flag stand for. */
  ghost function OutputTexts(data: Text, items: seq<Line>, reversed: bool): (r: seq<Text>)
    ensures |r| == |items|
    ensures forall i :: 0 <= i < |items| ==> r[i] == LineText(data)(items[if reversed then |items| - 1 - i else i])
  {
    Map(LineText(data), K.Output(items, reversed))
  }

  lemma OutputTextsAre(data: Text, items: seq<Line>, reversed: bool)
    ensures OutputTexts(data, items, reversed) == Map(LineText(data), K.Output(items, reversed))
  {
  }

  /** The writer's loop over the array, forwards or backwards. */
  method WriteLines(x: Outside, o: Options, data: Text, lines: array<Line>, len: nat, reversed: bool) returns (out: seq<Text>)
    requires ValidOptions(o) && len <= lines.Length
    ensures out == Written(x, o, Map(LineText(data), K.Output(lines[..len], reversed)))
  {
    hide *;
    ghost var texts := OutputTexts(data, lines[..len], reversed);
    OutputTextsAre(data, lines[..len], reversed);
    out := [];
    WrittenStart(x, o, texts);
    for i := 0 to len
      invariant out == Written(x, o, texts[..i])
    {
      var index := if reversed then len - 1 - i else i;
      out := WriteNext(x, o, data, lines[index], out, texts, i);
    }
    WholeOf(texts);
  }

  lemma WholeOf(texts: seq<Text>)
    ensures texts[..|texts|] == texts
  {
  }

  // ---------- Whole lines, plain bytes ----------

  /** Texts in byte order are determined by which they are. */
  lemma SortedTextsUnique(reverse: bool, a: seq<Text>, b: seq<Text>)
    requires Sorted(Directed(reverse, ByteOrder()), a) && Sorted(Directed(reverse, ByteOrder()), b)
    requires multiset(a) == multiset(b)
    ensures a == b
  {
    var c := Directed(reverse, ByteOrder());
    BytePreorder();
    DirectedPreorder(reverse, ByteOrder());
    PermutationClassSizes(c, a, b);
    hide TotalPreorder, Sorted;
    SortedAlike(c, a, b);
    forall i | 0 <= i < |a| ensures a[i] == b[i] {
      CompareTotal(a[i], b[i]);
      assert c(a[i], b[i]) == 0;
    }
  }

  lemma PlainOrder(x: Outside, o: Options, data: Text)
    requires ValidOptions(o) && o.keys == [] && Plain(o)
    ensures Agree(LineCompare(x, o, data), Through(LineText(data), Directed(o.reverse, ByteOrder())))
  {
    forall a: Line, b: Line
      ensures LineCompare(x, o, data)(a, b) == Through(LineText(data), Directed(o.reverse, ByteOrder()))(a, b)
    {
      FilteredNone(LineText(data)(a), o.modifiers);
      FilteredNone(LineText(data)(b), o.modifiers);
    }
  }

  lemma PlainOracle(x: Outside, o: Options, data: Text, s: seq<Line>)
    requires ValidOptions(o) && o.keys == [] && Plain(o)
    ensures Sorted(Directed(o.reverse, ByteOrder()), OracleTexts(x, o, data, s))
    ensures multiset(OracleTexts(x, o, data, s)) == multiset(Map(LineText(data), s))
  {
    var c, d := LineCompare(x, o, data), Through(LineText(data), Directed(o.reverse, ByteOrder()));
    PlainOrder(x, o, data);
    LineComparePreorder(x, o, data);
    StableSortStable(c, s);
    SameClassesPermutes(c, s, StableSort(c, s));
    MapPermutes(LineText(data), s, StableSort(c, s));
    SortedMap(LineText(data), Directed(o.reverse, ByteOrder()), StableSort(c, s));
    hide LineCompare, Through, ByteOrder;
    assert Sorted(d, StableSort(c, s));
  }

  /** Whatever shows the same texts in byte order agrees with the oracle. */
  lemma PlainAgrees(x: Outside, o: Options, data: Text, s: seq<Line>, items: seq<Line>, reversed: bool)
    requires ValidOptions(o) && o.keys == [] && Plain(o)
    requires Sorted(Directed(o.reverse, ByteOrder()), Map(LineText(data), K.Output(items, reversed)))
    requires multiset(Map(LineText(data), K.Output(items, reversed))) == multiset(Map(LineText(data), s))
    ensures Agrees(x, o, data, s, items, reversed)
  {
    hide *;
    PlainOracle(x, o, data, s);
    SortedTextsUnique(o.reverse, Map(LineText(data), K.Output(items, reversed)), OracleTexts(x, o, data, s));
    AgreesIfTexts(x, o, data, s, items, reversed);
  }

  lemma OutputFacts(data: Text, items: seq<Line>, reversed: bool)
    ensures multiset(Map(LineText(data), K.Output(items, reversed))) == multiset(Map(LineText(data), items))
    ensures Map(LineText(data), K.Output(items, reversed)) ==
            if reversed then Reverse(Map(LineText(data), items)) else Map(LineText(data), items)
  {
    K.ReversePermutes(items);
    MapPermutes(LineText(data), items, K.Output(items, reversed));
    MapReverse(LineText(data), items);
  }

  lemma ByteReverse(reverse: bool, t: seq<Text>)
    requires Sorted(Directed(reverse, ByteOrder()), t)
    ensures Sorted(Directed(!reverse, ByteOrder()), Reverse(t))
  {
    BytePreorder();
    var r := Reverse(t);
    forall i, j | 0 <= i < j < |r| ensures Directed(!reverse, ByteOrder())(r[i], r[j]) <= 0 {
      assert Directed(reverse, ByteOrder())(t[|t| - 1 - j], t[|t| - 1 - i]) <= 0;
      CompareTotal(r[i], r[j]);
    }
  }

  /** The shortcut for inputs in order, or in reverse order: nothing is sorted. */
  lemma MonotonicAgrees(x: Outside, o: Options, data: Text, s: seq<Line>, m: Monotonic)
    requires ValidOptions(o) && o.keys == [] && Plain(o)
    requires m.valid && Describes(m, ItemTexts(data, s))
    ensures Agrees(x, o, data, s, s, (m.direction < 0 && o.reverse) || (m.direction > 0 && !o.reverse))
  {
    var reversed := (m.direction < 0 && o.reverse) || (m.direction > 0 && !o.reverse);
    var t := Map(LineText(data), s);
    OutputFacts(data, s, reversed);
    assert Sorted(Directed(if reversed then !o.reverse else o.reverse, ByteOrder()), t);
    hide Sorted, Describes, Agrees;
    if reversed {
      ByteReverse(!o.reverse, t);
    }
    PlainAgrees(x, o, data, s, s, reversed);
  }

  lemma SpansMap(data: Text, s: seq<Line>)
    ensures Map(LineText(data), s) == Texts(data, s)
  {
  }

  lemma SortedTextsFacts(data: Text, s: seq<Line>)
    ensures Sorted(Directed(false, ByteOrder()), SortedTexts(data, s))
    ensures multiset(SortedTexts(data, s)) == multiset(Texts(data, s))
  {
    var c := R.KeyOrder(SpanText(data), false);
    var u := StableSort(c, Spans(s));
    R.KeyOrderPreorder(SpanText(data), false);
    StableSortStable(c, Spans(s));
    SameClassesPermutes(c, Spans(s), u);
    MapPermutes(SpanText(data), Spans(s), u);
    SortedMap(SpanText(data), ByteOrder(), u);
    forall i, j | 0 <= i < j < |u| ensures Through(SpanText(data), ByteOrder())(u[i], u[j]) <= 0 {
      assert c(u[i], u[j]) <= 0;
    }
  }

  lemma RadixAgrees(x: Outside, o: Options, data: Text, s: seq<Line>, items: seq<Line>)
    requires ValidOptions(o) && o.keys == [] && Plain(o)
    requires Texts(data, items) == SortedTexts(data, s)
    ensures Agrees(x, o, data, s, items, o.reverse)
  {
    hide *;
    SpansMap(data, s);
    SpansMap(data, items);
    SortedTextsFacts(data, s);
    OutputFacts(data, items, o.reverse);
    if o.reverse {
      ByteReverse(false, SortedTexts(data, s));
    }
    PlainAgrees(x, o, data, s, items, o.reverse);
  }

  // ---------- Keys ----------

  ghost predicate BytesOnly(o: Options) {
    forall k :: 0 <= k < |o.keys| ==> o.keys[k].mode == ByBytes && o.keys[k].modifiers.None()
  }

  lemma OneKey(x: Outside, o: Options, data: Text, i: nat, a: Line, b: Line)
    requires ValidOptions(o) && BytesOnly(o) && i < |o.keys|
    ensures KeyOrder(x, o.separator, o.keys[i])(LineText(data)(a), LineText(data)(b)) ==
            K.KeyOrderAt(KeyPlan(o, data).keys[i])(a, b)
  {
    var k := o.keys[i];
    KeyOrderAt(x, o.separator, k, LineText(data)(a), LineText(data)(b));
    FilteredNone(KeyOf(o, data, i)(a), k.modifiers);
    FilteredNone(KeyOf(o, data, i)(b), k.modifiers);
  }

  /** The engine's order of keys and last resort is the comparator's. */
  lemma {:induction false} KeysAgree(x: Outside, o: Options, data: Text, i: nat, a: Line, b: Line)
    requires ValidOptions(o) && BytesOnly(o) && i <= |o.keys|
    ensures K.OrderFrom(KeyPlan(o, data), i)(a, b) ==
            (if KeysOrder(x, o, i)(LineText(data)(a), LineText(data)(b)) != 0
             then KeysOrder(x, o, i)(LineText(data)(a), LineText(data)(b))
             else K.LastOrder(KeyPlan(o, data))(a, b))
    decreases |o.keys| - i
  {
    hide KeyOrder, K.KeyOrderAt, K.LastOrder, KeyPlan, LineText, ValidOptions, BytesOnly;
    if i < |o.keys| {
      OneKey(x, o, data, i, a, b);
      KeysAgree(x, o, data, i + 1, a, b);
    }
  }

  lemma LastAgrees(o: Options, data: Text, a: Line, b: Line)
    requires ValidOptions(o)
    ensures K.LastOrder(KeyPlan(o, data))(a, b) ==
            (if LastResort(o) then Directed(o.reverse, ByteOrder())(LineText(data)(a), LineText(data)(b)) else 0)
  {
  }

  lemma KeyPlanAgrees(x: Outside, o: Options, data: Text)
    requires ValidOptions(o) && BytesOnly(o) && o.keys != []
    ensures Agree(K.OrderFrom(KeyPlan(o, data), 0), LineCompare(x, o, data))
  {
    hide K.OrderFrom, KeyPlan, LineText, KeysOrder, K.LastOrder;
    forall a: Line, b: Line ensures K.OrderFrom(KeyPlan(o, data), 0)(a, b) == LineCompare(x, o, data)(a, b) {
      KeysAgree(x, o, data, 0, a, b);
      LastAgrees(o, data, a, b);
    }
  }

  /** On texts alone, too. */
  lemma TextPlanAgrees(x: Outside, o: Options)
    requires ValidOptions(o) && BytesOnly(o) && o.keys != []
    ensures Agree(K.OrderFrom(TextPlan(o), 0), CompareOrder(x, o))
  {
    hide K.OrderFrom, KeyPlan, TextPlan, CompareOrder, BytesOnly, LineText;
    forall a: Text, b: Text ensures K.OrderFrom(TextPlan(o), 0)(a, b) == CompareOrder(x, o)(a, b) {
      var data, k, l := a + b, Line(Span(0, |a|), 0, 0), Line(Span(|a|, |b|), 1, 0);
      PlanOfTexts(o, data);
      KeyPlanAgrees(x, o, data);
      X.OrderMap(LineText(data), KeyPlan(o, data), TextPlan(o), 0, k, l);
      TextsSideBySide(a, b);
      LineCompareIs(x, o, data);
    }
  }

  lemma TextsSideBySide(a: Text, b: Text)
    ensures LineText(a + b)(Line(Span(0, |a|), 0, 0)) == a && LineText(a + b)(Line(Span(|a|, |b|), 1, 0)) == b
  {
    assert SpanText(a + b)(Span(0, |a|)) == (a + b)[0..|a|] == a;
    assert SpanText(a + b)(Span(|a|, |b|)) == (a + b)[|a|..|a| + |b|] == b;
  }

  /** The planned engine writes what the oracle writes: always, unless it is the
      keyed one and some group of tied lines comes out visibly reversed. */
  ghost predicate Faithful(o: Options, texts: seq<Text>)
    requires ValidOptions(o)
  {
    PlanOf(o) == RadixKeys ==> X.Harmless(TextPlan(o), texts)
  }

  lemma UniqueIsCompare(x: Outside, o: Options, data: Text)
    requires ValidOptions(o) && o.keys != [] && o.unique
    ensures Agree(Through(LineText(data), UniqueOrder(x, o)), LineCompare(x, o, data))
  {
    hide KeysOrder, LineText;
  }

  /** What the writer makes of lines in the engine's order. */
  lemma ShownIsWritten(x: Outside, o: Options, data: Text, a: seq<Line>)
    requires ValidOptions(o) && BytesOnly(o) && o.keys != []
    ensures Written(x, o, Map(LineText(data), a)) == X.Shown(KeyPlan(o, data), a)
  {
    var p, c := KeyPlan(o, data), Through(LineText(data), UniqueOrder(x, o));
    assert p.unique == o.unique && p.text == LineText(data);
    hide LineText, KeyPlan, UniqueOrder, K.OrderFrom, Dedup, Map;
    if o.unique {
      UniqueIsCompare(x, o, data);
      KeyPlanAgrees(x, o, data);
      hide LineCompare, Through;
      assert SameZeros(c, K.OrderFrom(p, 0));
      DedupAgrees(c, K.OrderFrom(p, 0), a);
      DedupMap(LineText(data), UniqueOrder(x, o), a);
    }
  }

  /** The keyed engine's result is in the comparator's order in any case; it is
      written as the oracle's exactly when no group is visibly reversed. */
  lemma KeyEngineAgrees(x: Outside, o: Options, data: Text, s: seq<Line>, items: seq<Line>, reversed: bool)
    requires ValidOptions(o) && BytesOnly(o) && o.keys != []
    requires var p := KeyPlan(o, data); Refined(K.OrderFrom(p, 0), K.Finals(p, 0), s, K.Output(items, reversed))
    ensures KeySorted(o, data, s, K.Output(items, reversed))
    ensures Sorted(CompareOrder(x, o), Map(LineText(data), K.Output(items, reversed)))
    ensures Agrees(x, o, data, s, items, reversed) <==> X.Harmless(TextPlan(o), ItemTexts(data, s))
  {
    hide *;
    var p, out := KeyPlan(o, data), K.Output(items, reversed);
    KeyPlanAgrees(x, o, data);
    StableSortAgrees(K.OrderFrom(p, 0), LineCompare(x, o, data), s);
    X.KeysExact(p, s, out);
    ShownIsWritten(x, o, data, out);
    ShownIsWritten(x, o, data, StableSort(LineCompare(x, o, data), s));
    PlanOfTexts(o, data);
    X.HarmlessMap(LineText(data), p, TextPlan(o), s);
    ItemTextsAre(data, s);
    OracleTextsAre(x, o, data, s);
    RefinedSorted(K.OrderFrom(p, 0), K.Finals(p, 0), s, out);
    AgreeingSorted(K.OrderFrom(p, 0), LineCompare(x, o, data), out);
    LineCompareIs(x, o, data);
    SortedMap(LineText(data), CompareOrder(x, o), out);
    AgreesMeans(x, o, data, s, items, reversed);
    KeySortedIs(o, data, s, out);
  }

  lemma KeySortedIs(o: Options, data: Text, s: seq<Line>, out: seq<Line>)
    requires ValidOptions(o)
    ensures KeySorted(o, data, s, out) <==> Refined(K.OrderFrom(KeyPlan(o, data), 0), K.Finals(KeyPlan(o, data), 0), s, out)
  {
  }

  lemma AgreeingSorted<A(!new)>(c: (A, A) -> int, d: (A, A) -> int, s: seq<A>)
    requires Agree(c, d) && Sorted(c, s)
    ensures Sorted(d, s)
  {
  }

  lemma LineCompareIs(x: Outside, o: Options, data: Text)
    requires ValidOptions(o)
    ensures LineCompare(x, o, data) == Through(LineText(data), CompareOrder(x, o))
  {
  }

  lemma ItemTextsAre(data: Text, s: seq<Line>)
    ensures ItemTexts(data, s) == Map(LineText(data), s)
  {
  }

  lemma OracleTextsAre(x: Outside, o: Options, data: Text, s: seq<Line>)
    requires ValidOptions(o)
    ensures OracleTexts(x, o, data, s) == Map(LineText(data), StableSort(LineCompare(x, o, data), s))
  {
  }

  // ---------- Filtered lines ----------

  lemma FilteredOrderAgrees(x: Outside, o: Options, data: Text)
    requires ValidOptions(o) && o.keys == [] && o.mode == ByBytes && !Plain(o)
    ensures Agree(LineCompare(x, o, data), Directed(o.reverse, T.TiedOrder(FilteredLine(o, data), LineText(data), LastResort(o))))
    ensures SameZeros(Through(LineText(data), UniqueOrder(x, o)), R.KeyOrder(FilteredLine(o, data), false))
  {
  }

  lemma TiesAreEqual(o: Options, data: Text, a: Line, b: Line)
    ensures T.TiedOrder(FilteredLine(o, data), LineText(data), true)(a, b) == 0 ==> LineText(data)(a) == LineText(data)(b)
  {
    CompareTotal(LineText(data)(a), LineText(data)(b));
  }

  /** With the last resort: ties are equal lines, so reversing the output is
      sorting by the reversed order. */
  lemma FilteredTiesAgree(x: Outside, o: Options, data: Text, s: seq<Line>, items: seq<Line>)
    requires ValidOptions(o) && o.keys == [] && o.mode == ByBytes && !Plain(o) && LastResort(o)
    requires items == StableSort(T.TiedOrder(FilteredLine(o, data), LineText(data), true), s)
    ensures Agrees(x, o, data, s, items, o.reverse)
  {
    var c := T.TiedOrder(FilteredLine(o, data), LineText(data), true);
    FilteredOrderAgrees(x, o, data);
    T.TiedPreorder(FilteredLine(o, data), LineText(data), true);
    forall a, b | c(a, b) == 0 ensures LineText(data)(a) == LineText(data)(b) { TiesAreEqual(o, data, a, b); }
    StableSortAgrees(LineCompare(x, o, data), Directed(o.reverse, c), s);
    hide LineCompare, T.TiedOrder, TotalPreorder, LineText, StableSort, Written;
    StableSortStable(c, s);
    SameClassesPermutes(c, s, items);
    if o.reverse {
      T.ReversedTexts(c, LineText(data), s, items);
    }
    AgreesIfTexts(x, o, data, s, items, o.reverse);
  }

  /** Without reversal the two sorts are one and the same. */
  lemma FilteredForwardAgree(x: Outside, o: Options, data: Text, s: seq<Line>, items: seq<Line>)
    requires ValidOptions(o) && o.keys == [] && o.mode == ByBytes && !Plain(o) && !o.reverse
    requires items == StableSort(T.TiedOrder(FilteredLine(o, data), LineText(data), LastResort(o)), s)
    ensures Agrees(x, o, data, s, items, false)
  {
    var c := T.TiedOrder(FilteredLine(o, data), LineText(data), LastResort(o));
    FilteredOrderAgrees(x, o, data);
    StableSortAgrees(LineCompare(x, o, data), c, s);
    AgreesIfTexts(x, o, data, s, items, false);
  }

  lemma {:induction false} DedupTwice<E>(c: (E, E) -> int, s: seq<E>)
    ensures Dedup(c, Dedup(c, s)) == Dedup(c, s)
  {
    if s != [] {
      var d, e := s[..|s| - 1], s[|s| - 1];
      DedupTwice(c, d);
      assert s == d + [e];
      DedupIs(c, d, e);
      DedupIs(c, Dedup(c, d), e);
    }
  }

  /** `-u -r`: compaction keeps the first of each class, and the writer then finds
      nothing more to drop. */
  lemma CompactedAgree(x: Outside, o: Options, data: Text, s: seq<Line>, items: seq<Line>)
    requires ValidOptions(o) && o.keys == [] && o.mode == ByBytes && !Plain(o) && o.unique && o.reverse
    requires var c := R.KeyOrder(FilteredLine(o, data), false); items == Dedup(c, StableSort(c, s))
    ensures Agrees(x, o, data, s, items, true)
  {
    var c := R.KeyOrder(FilteredLine(o, data), false);
    var u := UniqueOrder(x, o);
    FilteredOrderAgrees(x, o, data);
    assert Directed(o.reverse, T.TiedOrder(FilteredLine(o, data), LineText(data), LastResort(o))) == Reversed(c);
    WrittenUnique(x, o, Map(LineText(data), K.Output(items, true)));
    WrittenUnique(x, o, OracleTexts(x, o, data, s));
    assert K.Output(items, true) == Reverse(items);
    hide LineCompare, LineText, StableSort, UniqueOrder, Dedup, Reverse, R.KeyOrder, FilteredLine, Reversed, Written;
    StableSortAgrees(LineCompare(x, o, data), Reversed(c), s);
    T.CompactionBeforeReversal(FilteredLine(o, data), s);
    var t := StableSort(Reversed(c), s);
    assert Reverse(items) == Dedup(c, t);
    DedupTwice(c, t);
    DedupAgrees(Through(LineText(data), u), c, Reverse(items));
    DedupAgrees(Through(LineText(data), u), c, t);
    DedupMap(LineText(data), u, Reverse(items));
    DedupMap(LineText(data), u, t);
    CompactedSorted(x, o, data, s, Reverse(items));
  }

  lemma CompactedSorted(x: Outside, o: Options, data: Text, s: seq<Line>, out: seq<Line>)
    requires ValidOptions(o)
    requires var c := R.KeyOrder(FilteredLine(o, data), false);
      Agree(LineCompare(x, o, data), Reversed(c)) && out == Dedup(c, StableSort(Reversed(c), s))
    ensures Sorted(CompareOrder(x, o), Map(LineText(data), out))
  {
    var c := R.KeyOrder(FilteredLine(o, data), false);
    var t := StableSort(Reversed(c), s);
    R.KeyOrderPreorder(FilteredLine(o, data), false);
    ReversedPreorder(c);
    assert SameZeros(Reversed(c), c);
    SortedMap(LineText(data), CompareOrder(x, o), out);
    hide CompareOrder, LineText, TotalPreorder, StableSort, R.KeyOrder, Dedup, FilteredLine, Map;
    StableSortStable(Reversed(c), s);
    DedupSorted(Reversed(c), t);
    DedupAgrees(Reversed(c), c, t);
    assert forall i, j :: 0 <= i < j < |out| ==> LineCompare(x, o, data)(out[i], out[j]) == Reversed(c)(out[i], out[j]);
  }

  lemma WrittenUnique(x: Outside, o: Options, texts: seq<Text>)
    requires ValidOptions(o) && o.unique
    ensures Written(x, o, texts) == Dedup(UniqueOrder(x, o), texts)
  {
  }

  // ---------- One filtered key ----------

  lemma OneFilteredKey(x: Outside, o: Options, data: Text, a: Line, b: Line)
    requires ValidOptions(o) && |o.keys| == 1 && FilteredKeyPlan(o)
    ensures KeysOrder(x, o, 0)(LineText(data)(a), LineText(data)(b)) == R.KeyOrder(FilteredKey(o, data), false)(a, b)
  {
    KeyOrderAt(x, o.separator, o.keys[0], LineText(data)(a), LineText(data)(b));
    SingleKey(x, o, LineText(data)(a), LineText(data)(b));
    hide KeysOrder, KeyOrder;
  }

  lemma FilteredKeyOrder(x: Outside, o: Options, data: Text)
    requires ValidOptions(o) && |o.keys| == 1 && FilteredKeyPlan(o)
    ensures Agree(LineCompare(x, o, data), T.TiedOrder(FilteredKey(o, data), LineText(data), !o.stable))
  {
    var c := T.TiedOrder(FilteredKey(o, data), LineText(data), !o.stable);
    hide KeysOrder, FilteredKey, StableSort;
    forall a: Line, b: Line ensures LineCompare(x, o, data)(a, b) == c(a, b) {
      OneFilteredKey(x, o, data, a, b);
    }
  }

  lemma FilteredKeyAgrees(x: Outside, o: Options, data: Text, s: seq<Line>, items: seq<Line>)
    requires ValidOptions(o) && |o.keys| == 1 && FilteredKeyPlan(o)
    requires items == StableSort(T.TiedOrder(FilteredKey(o, data), LineText(data), !o.stable), s)
    ensures Agrees(x, o, data, s, items, false)
  {
    var c := T.TiedOrder(FilteredKey(o, data), LineText(data), !o.stable);
    hide KeysOrder, FilteredKey, StableSort;
    FilteredKeyOrder(x, o, data);
    StableSortAgrees(LineCompare(x, o, data), c, s);
    AgreesIfTexts(x, o, data, s, items, false);
  }

  // ---------- Rows and their tables ----------

  /** Every line left is one of the lines given, index and all: what was prepared
      for it under its ordinal or key index still belongs to it. */
  ghost predicate RowsKept(s: seq<Line>, items: seq<Line>) {
    forall l :: l in items ==> l in s
  }

  /** Row `at(l)` of the table holds what the line `l` is compared by. */
  ghost predicate Fits<V>(table: seq<V>, at: Line -> nat, view: Line -> V, items: seq<Line>) {
    forall l :: l in items ==> at(l) < |table| && table[at(l)] == view(l)
  }

  /** A table of prepared keys or filtered spans, addressed by ordinal or by key
      index, does not go stale when whole lines are moved or dropped. */
  lemma TableStillFits<V>(table: seq<V>, at: Line -> nat, view: Line -> V, s: seq<Line>, items: seq<Line>)
    requires Fits(table, at, view, s) && RowsKept(s, items)
    ensures Fits(table, at, view, items)
  {
  }

  /** Every text shown is one of those given. */
  ghost predicate TextsKept(data: Text, s: seq<Line>, items: seq<Line>, reversed: bool) {
    forall t :: t in Map(LineText(data), K.Output(items, reversed)) ==> t in ItemTexts(data, s)
  }

  lemma RowsKeepTexts(data: Text, s: seq<Line>, items: seq<Line>, reversed: bool)
    requires RowsKept(s, items)
    ensures TextsKept(data, s, items, reversed)
  {
    hide LineText;
    var out := K.Output(items, reversed);
    forall t | t in Map(LineText(data), out) ensures t in ItemTexts(data, s) {
      var i :| 0 <= i < |out| && LineText(data)(out[i]) == t;
      R.ReverseMembers(items, out[i]);
      var j :| 0 <= j < |s| && s[j] == out[i];
      assert ItemTexts(data, s)[j] == t;
    }
  }

  lemma SpansKeepTexts(data: Text, s: seq<Line>, items: seq<Line>, reversed: bool)
    requires multiset(Spans(items)) == multiset(Spans(s))
    ensures TextsKept(data, s, items, reversed)
  {
    var out := K.Output(items, reversed);
    forall t | t in Map(LineText(data), out) ensures t in ItemTexts(data, s) {
      var i :| 0 <= i < |out| && LineText(data)(out[i]) == t;
      R.ReverseMembers(items, out[i]);
      var k :| 0 <= k < |items| && items[k] == out[i];
      assert Spans(items)[k] in multiset(Spans(items));
      var j :| 0 <= j < |s| && Spans(s)[j] == Spans(items)[k];
      assert ItemTexts(data, s)[j] == t;
    }
  }

  lemma PermutedRows(s: seq<Line>, items: seq<Line>)
    requires multiset(items) == multiset(s)
    ensures RowsKept(s, items)
  {
    forall l | l in items ensures l in s { assert l in multiset(items); }
  }

  lemma SortedRows(c: (Line, Line) -> int, s: seq<Line>, items: seq<Line>)
    requires TotalPreorder(c) && items == StableSort(c, s)
    ensures RowsKept(s, items)
  {
    hide TotalPreorder, StableSort, Project, Sorted;
    StableSortStable(c, s);
    SameClassesPermutes(c, s, items);
  }

  lemma FilteredRows(o: Options, data: Text, s: seq<Line>, items: seq<Line>)
    requires items == T.FilteredLines(FilteredLine(o, data), LineText(data), o.reverse, o.stable, o.unique, s)
    ensures RowsKept(s, items)
  {
    var c := T.TiedOrder(FilteredLine(o, data), LineText(data), !o.stable && !o.unique);
    T.TiedPreorder(FilteredLine(o, data), LineText(data), !o.stable && !o.unique);
    hide T.TiedOrder, StableSort, FilteredLine, LineText, TotalPreorder, R.KeyOrder;
    SortedRows(c, s, StableSort(c, s));
    forall l | l in items ensures l in s {
      DedupMembers(R.KeyOrder(FilteredLine(o, data), false), StableSort(c, s), l);
    }
  }

  /** Spans that lay in the buffer still do. */
  lemma RowsInBuffer(data: Text, s: seq<Line>, items: seq<Line>)
    requires InBuffer(data, s) && RowsKept(s, items)
    ensures InBuffer(data, items)
  {
    forall i | 0 <= i < |items| ensures items[i].span.off + items[i].span.len <= |data| {
      assert items[i] in s;
    }
  }

  lemma SpansInBuffer(data: Text, s: seq<Line>, items: seq<Line>)
    requires InBuffer(data, s) && multiset(Spans(items)) == multiset(Spans(s))
    ensures InBuffer(data, items)
  {
    forall i | 0 <= i < |items| ensures items[i].span.off + items[i].span.len <= |data| {
      var p := Spans(items)[i];
      assert p in multiset(Spans(items));
      assert p in Spans(s);
    }
  }

  // ---------- The dispatcher ----------

  lemma ScalarAgrees(x: Outside, o: Options, data: Text, s: seq<Line>, items: seq<Line>)
    requires ValidOptions(o) && items == StableSort(LineCompare(x, o, data), s)
    ensures Agrees(x, o, data, s, items, false)
  {
    AgreesIfTexts(x, o, data, s, items, false);
  }

  method ScalarSort(x: Outside, o: Options, data: Text, lines: array<Line>)
    requires ValidOptions(o)
    modifies lines
    ensures Agrees(x, o, data, old(lines[..]), lines[..], false) && RowsKept(old(lines[..]), lines[..])
  {
    hide *;
    ghost var s := lines[..];
    var c := LineCompare(x, o, data);
    LineComparePreorder(x, o, data);
    if lines.Length < 2 {
      T.ShortSort(c, s);
    } else {
      var aux := new Line[lines.Length](_ requires lines.Length > 0 reads lines => lines[0]);
      assert lines[0..lines.Length] == s;
      MergeSort.MergeSortRange(lines, aux, 0, lines.Length, c);
      assert lines[0..lines.Length] == lines[..];
    }
    ScalarAgrees(x, o, data, s, lines[..]);
    SortedRows(c, s, lines[..]);
  }

  method SortPlainLines(x: Outside, o: Options, data: Text, lines: array<Line>, m: Monotonic, par: Threads.Parallelism) returns (reversed: bool)
    requires ValidOptions(o) && o.keys == [] && Plain(o)
    requires InBuffer(data, lines[..]) && Describes(m, ItemTexts(data, lines[..]))
    modifies lines
    ensures Agrees(x, o, data, old(lines[..]), lines[..], reversed) && InBuffer(data, lines[..])
    ensures TextsKept(data, old(lines[..]), lines[..], reversed)
  {
    hide *;
    ghost var s := lines[..];
    if m.valid {
      MonotonicAgrees(x, o, data, s, m);
      reversed := (m.direction < 0 && o.reverse) || (m.direction > 0 && !o.reverse);
      SpansKeepTexts(data, s, s, reversed);
      return;
    }
    var ok := RadixSortLines(lines, data, par);
    if ok {
      RadixAgrees(x, o, data, s, lines[..]);
      SpansInBuffer(data, s, lines[..]);
      SpansKeepTexts(data, s, lines[..], o.reverse);
      return o.reverse;
    }
    ScalarSort(x, o, data, lines);
    RowsInBuffer(data, s, lines[..]);
    RowsKeepTexts(data, s, lines[..], false);
    reversed := false;
  }

  method SortFiltered(x: Outside, o: Options, data: Text, lines: array<Line>) returns (len: nat, reversed: bool)
    requires ValidOptions(o) && o.mode == ByBytes && (FilteredLinesPlan(o) || FilteredKeyPlan(o))
    requires o.keys == [] ==> !Plain(o)
    modifies lines
    ensures len <= lines.Length && Agrees(x, o, data, old(lines[..]), lines[..len], reversed)
    ensures RowsKept(old(lines[..]), lines[..len])
  {
    if o.keys == [] {
      len := SortFilteredLines(x, o, data, lines);
      return len, o.reverse;
    }
    SortOneFilteredKey(x, o, data, lines);
    len, reversed := lines.Length, false;
    assert lines[..len] == lines[..];
  }

  method SortOneFilteredKey(x: Outside, o: Options, data: Text, lines: array<Line>)
    requires ValidOptions(o) && |o.keys| == 1 && FilteredKeyPlan(o)
    modifies lines
    ensures Agrees(x, o, data, old(lines[..]), lines[..], false) && RowsKept(old(lines[..]), lines[..])
  {
    hide *;
    ghost var s := lines[..];
    var ok := T.SortFilteredKey(!o.keys[0].modifiers.None(), FilteredKey(o, data), LineText(data), o.stable, lines);
    if ok {
      FilteredKeyAgrees(x, o, data, s, lines[..]);
      T.TiedPreorder(FilteredKey(o, data), LineText(data), !o.stable);
      SortedRows(T.TiedOrder(FilteredKey(o, data), LineText(data), !o.stable), s, lines[..]);
    } else {
      ScalarSort(x, o, data, lines);
    }
  }

  method SortFilteredLines(x: Outside, o: Options, data: Text, lines: array<Line>) returns (len: nat)
    requires ValidOptions(o) && o.mode == ByBytes && FilteredLinesPlan(o) && !Plain(o)
    modifies lines
    ensures len <= lines.Length && Agrees(x, o, data, old(lines[..]), lines[..len], o.reverse)
    ensures RowsKept(old(lines[..]), lines[..len])
  {
    ghost var s := lines[..];
    hide RowsKept, T.TiedOrder, StableSort, Agrees, FilteredLine, LineText, ValidOptions, Plain, T.FilteredLines, R.KeyOrder;
    len := T.SortFilteredLines(FilteredLine(o, data), LineText(data), o.reverse, o.stable, o.unique, lines);
    FilteredLinesAgree(x, o, data, s, lines[..len]);
    FilteredRows(o, data, s, lines[..len]);
  }

  lemma FilteredLinesAgree(x: Outside, o: Options, data: Text, s: seq<Line>, items: seq<Line>)
    requires ValidOptions(o) && o.mode == ByBytes && FilteredLinesPlan(o) && !Plain(o)
    requires items == T.FilteredLines(FilteredLine(o, data), LineText(data), o.reverse, o.stable, o.unique, s)
    ensures Agrees(x, o, data, s, items, o.reverse)
  {
    hide StableSort, Agrees, FilteredLine, LineText, ValidOptions, Plain, R.KeyOrder, T.FilteredLines;
    T.FilteredLinesAre(FilteredLine(o, data), LineText(data), o.reverse, o.stable, o.unique, s);
    if LastResort(o) {
      hide T.TiedOrder;
      FilteredTiesAgree(x, o, data, s, items);
    } else if !o.reverse {
      hide T.TiedOrder;
      FilteredForwardAgree(x, o, data, s, items);
    } else if |s| >= 2 {
      CompactedAgree(x, o, data, s, items);
    } else {
      FewAgree(x, o, data, s, items);
    }
  }

  lemma FewAgree(x: Outside, o: Options, data: Text, s: seq<Line>, items: seq<Line>)
    requires ValidOptions(o) && |s| < 2
    requires items == StableSort(T.TiedOrder(FilteredLine(o, data), LineText(data), LastResort(o)), s)
    ensures Agrees(x, o, data, s, items, true)
  {
    T.ShortSort(T.TiedOrder(FilteredLine(o, data), LineText(data), LastResort(o)), s);
    T.ShortSort(LineCompare(x, o, data), s);
    ShortReverse(s);
    AgreesIfTexts(x, o, data, s, items, true);
  }

  /** The keyed engine on lines: every group of tied lines as `Finals` says. */
  method SortByKeys(x: Outside, o: Options, data: Text, lines: array<Line>, par: Threads.Parallelism) returns (reversed: bool)
    requires ValidOptions(o) && BytesOnly(o) && o.keys != []
    modifies lines
    ensures KeySorted(o, data, old(lines[..]), K.Output(lines[..], reversed)) && RowsKept(old(lines[..]), lines[..])
    ensures Sorted(CompareOrder(x, o), Map(LineText(data), K.Output(lines[..], reversed)))
    ensures Agrees(x, o, data, old(lines[..]), lines[..], reversed) <==> X.Harmless(TextPlan(o), ItemTexts(data, old(lines[..])))
  {
    ghost var s := lines[..];
    assert |o.keys| >= 1;
    hide *;
    reversed := K.RadixSortKey(KeyPlan(o, data), lines, par);
    KeyEngineAgrees(x, o, data, s, lines[..], reversed);
    OutputPermutes(K.OrderFrom(KeyPlan(o, data), 0), K.Finals(KeyPlan(o, data), 0), s, lines[..], reversed);
    PermutedRows(s, lines[..]);
  }

  lemma OutputPermutes(c: (Line, Line) -> int, out: Arranger<Line>, s: seq<Line>, items: seq<Line>, reversed: bool)
    requires Refined(c, out, s, K.Output(items, reversed))
    ensures multiset(items) == multiset(s)
  {
    K.ReversePermutes(items);
  }

  lemma PlanMeans(o: Options)
    requires ValidOptions(o)
    ensures PlanOf(o) == RadixBytes <==> o.keys == [] && Plain(o)
    ensures PlanOf(o) == RadixKeys <==> o.keys != [] && BytesOnly(o) && o.mode == ByBytes && o.modifiers.None()
    ensures PlanOf(o) == RadixTransformed ==> o.mode == ByBytes && (FilteredLinesPlan(o) || FilteredKeyPlan(o))
    ensures PlanOf(o) == RadixTransformed && o.keys == [] ==> !Plain(o)
  {
  }

  /** The planner's answer, option by option. */
  lemma PlanExactly(o: Options)
    ensures var filtered := !o.modifiers.None() || (exists k :: 0 <= k < |o.keys| && !o.keys[k].modifiers.None()) || (|o.keys| == 0 && o.ignoreBlanks);
      var special := o.mode != ByBytes || exists k :: 0 <= k < |o.keys| && o.keys[k].mode != ByBytes;
      var one := |o.keys| == 1 && !o.reverse && !o.unique && !o.keys[0].reverse && o.keys[0].mode == ByBytes;
      && (PlanOf(o) == RadixTransformed <==> filtered && o.mode == ByBytes && (one || (|o.keys| == 0 && !(o.reverse && o.stable))))
      && (PlanOf(o) == RadixKeys <==> !filtered && !special && |o.keys| > 0)
      && (PlanOf(o) == RadixBytes <==> !filtered && !special && |o.keys| == 0)
  {
  }

  /** What a plan guarantees: the order that the chosen engine sorts by is the
      comparator, up to the reversal that the output is given afterwards. */
  lemma PlanSound(x: Outside, o: Options, data: Text)
    requires ValidOptions(o)
    ensures PlanOf(o) == RadixBytes ==>
      o.keys == [] && Agree(LineCompare(x, o, data), Through(LineText(data), Directed(o.reverse, ByteOrder())))
    ensures PlanOf(o) == RadixKeys ==>
      o.keys != [] && Agree(K.OrderFrom(KeyPlan(o, data), 0), LineCompare(x, o, data))
    ensures PlanOf(o) == RadixTransformed && o.keys == [] ==>
      !(o.reverse && o.stable) && Agree(LineCompare(x, o, data), Directed(o.reverse, T.TiedOrder(FilteredLine(o, data), LineText(data), LastResort(o))))
    ensures PlanOf(o) == RadixTransformed && o.keys != [] ==>
      |o.keys| == 1 && !o.reverse && Agree(LineCompare(x, o, data), T.TiedOrder(FilteredKey(o, data), LineText(data), !o.stable))
  {
    PlanMeans(o);
    match PlanOf(o) {
      case RadixBytes =>
        PlainOrder(x, o, data);
      case RadixKeys =>
        KeyPlanAgrees(x, o, data);
      case RadixTransformed =>
        if o.keys == [] {
          FilteredOrderAgrees(x, o, data);
        } else {
          FilteredKeyOrder(x, o, data);
        }
      case Scalar =>
    }
  }

  /** Whatever the plan, an array and its flag are in the comparator's order, and are
      written as the scalar engine's result if and only if the plan is faithful. */
  ghost predicate Sorts(x: Outside, o: Options, data: Text, s: seq<Line>, items: seq<Line>, reversed: bool)
    requires ValidOptions(o)
  {
    && Sorted(CompareOrder(x, o), Map(LineText(data), K.Output(items, reversed)))
    && (Agrees(x, o, data, s, items, reversed) <==> Faithful(o, ItemTexts(data, s)))
    && (PlanOf(o) == RadixKeys ==> KeySorted(o, data, s, K.Output(items, reversed)))
    && (!o.unique ==> multiset(Map(LineText(data), K.Output(items, reversed))) == multiset(ItemTexts(data, s)))
  }

  /** The result of the keyed engine, with every group of ties as it comes out. */
  ghost predicate KeySorted(o: Options, data: Text, s: seq<Line>, out: seq<Line>)
    requires ValidOptions(o)
  {
    Refined(K.OrderFrom(KeyPlan(o, data), 0), K.Finals(KeyPlan(o, data), 0), s, out)
  }

  /** Sorting as planned; `Faithful` depends on the texts only in the keyed plan. */
  method SortLines(x: Outside, o: Options, data: Text, lines: array<Line>, m: Monotonic, plan: PlanKind, par: Threads.Parallelism)
    returns (len: nat, reversed: bool)
    requires ValidOptions(o) && plan == PlanOf(o)
    requires InBuffer(data, lines[..]) && Describes(m, ItemTexts(data, lines[..]))
    modifies lines
    ensures len <= lines.Length && InBuffer(data, lines[..len])
    ensures plan != RadixBytes ==> RowsKept(old(lines[..]), lines[..len])
    ensures TextsKept(data, old(lines[..]), lines[..len], reversed)
    ensures Sorts(x, o, data, old(lines[..]), lines[..len], reversed)
  {
    ghost var s := lines[..];
    PlanMeans(o);
    hide *;
    len := lines.Length;
    match plan {
      case RadixBytes =>
        reversed := SortPlainLines(x, o, data, lines, m, par);
        AllOf(lines);
        SortsWhen(x, o, data, s, lines[..len], reversed);
      case RadixKeys =>
        reversed := SortByKeys(x, o, data, lines, par);
        AllOf(lines);
        RowsInBuffer(data, s, lines[..len]);
        RowsKeepTexts(data, s, lines[..len], reversed);
        SortsWhen(x, o, data, s, lines[..len], reversed);
      case RadixTransformed =>
        len, reversed := SortFiltered(x, o, data, lines);
        RowsInBuffer(data, s, lines[..len]);
        RowsKeepTexts(data, s, lines[..len], reversed);
        SortsWhen(x, o, data, s, lines[..len], reversed);
      case Scalar =>
        ScalarSort(x, o, data, lines);
        reversed := false;
        AllOf(lines);
        RowsInBuffer(data, s, lines[..len]);
        RowsKeepTexts(data, s, lines[..len], reversed);
        SortsWhen(x, o, data, s, lines[..len], reversed);
    }
  }

  lemma AllOf(lines: array<Line>)
    ensures lines[..lines.Length] == lines[..]
  {
  }

  /** Unless `-u` drops lines, every line is there as often as it was. */
  lemma TextsPermuted(x: Outside, o: Options, data: Text, s: seq<Line>, items: seq<Line>, reversed: bool)
    requires ValidOptions(o) && !o.unique
    requires Agrees(x, o, data, s, items, reversed) || KeySorted(o, data, s, K.Output(items, reversed))
    ensures multiset(Map(LineText(data), K.Output(items, reversed))) == multiset(ItemTexts(data, s))
  {
    hide Map, Sorted, LineText, K.OrderFrom, KeyPlan, K.Finals, LineCompare, StableSort, Project, K.Output;
    if KeySorted(o, data, s, K.Output(items, reversed)) {
      MapPermutes(LineText(data), K.Output(items, reversed), s);
    } else {
      var c := LineCompare(x, o, data);
      LineComparePreorder(x, o, data);
      StableSortStable(c, s);
      SameClassesPermutes(c, s, StableSort(c, s));
      MapPermutes(LineText(data), StableSort(c, s), s);
    }
  }

  lemma SortsWhen(x: Outside, o: Options, data: Text, s: seq<Line>, items: seq<Line>, reversed: bool)
    requires ValidOptions(o)
    requires PlanOf(o) != RadixKeys ==> Agrees(x, o, data, s, items, reversed)
    requires PlanOf(o) == RadixKeys ==> Sorted(CompareOrder(x, o), Map(LineText(data), K.Output(items, reversed)))
    requires PlanOf(o) == RadixKeys ==> KeySorted(o, data, s, K.Output(items, reversed))
    requires PlanOf(o) == RadixKeys ==> (Agrees(x, o, data, s, items, reversed) <==> X.Harmless(TextPlan(o), ItemTexts(data, s)))
    ensures Sorts(x, o, data, s, items, reversed)
  {
    if !o.unique {
      TextsPermuted(x, o, data, s, items, reversed);
    }
    hide PlanOf, KeySorted, X.Harmless, ItemTexts, Sorted, Map, K.Output, Written, OracleTexts, CompareOrder, TextPlan;
  }

  /** No line is out of place with the last resort, without reversed keys, or in
      inputs of at most 48 lines. */
  lemma FaithfulWhen(o: Options, texts: seq<Text>)
    requires ValidOptions(o)
    requires LastResort(o) || (forall k :: 0 <= k < |o.keys| ==> !o.keys[k].reverse) || |texts| <= K.KEY_THRESHOLD
    ensures Faithful(o, texts)
  {
    var p := TextPlan(o);
    assert p.LastResort() <==> LastResort(o);
    hide X.Harmless;
    if LastResort(o) {
      X.LastResortHarmless(p, texts);
    } else if |texts| <= K.KEY_THRESHOLD {
      X.FewHarmless(p, texts);
    } else {
      X.ForwardHarmless(p, texts);
    }
  }

  /** Planning, sorting and writing, against one stable sort by the comparator. */
  method Run(x: Outside, o: Options, data: Text, lines: array<Line>, m: Monotonic, par: Threads.Parallelism) returns (out: seq<Text>)
    requires ValidOptions(o)
    requires InBuffer(data, lines[..]) && Describes(m, ItemTexts(data, lines[..]))
    modifies lines
    ensures out == Written(x, o, OracleTexts(x, o, data, old(lines[..]))) <==> Faithful(o, ItemTexts(data, old(lines[..])))
  {
    hide *;
    ghost var s := lines[..];
    var plan := PlanFromOptions(o);
    var len, reversed := SortLines(x, o, data, lines, m, plan, par);
    out := WriteLines(x, o, data, lines, len, reversed);
    SortsMeans(x, o, data, s, lines[..len], reversed);
  }

  lemma SortsMeans(x: Outside, o: Options, data: Text, s: seq<Line>, items: seq<Line>, reversed: bool)
    requires ValidOptions(o) && Sorts(x, o, data, s, items, reversed)
    ensures Sorted(CompareOrder(x, o), Map(LineText(data), K.Output(items, reversed)))
    ensures Written(x, o, Map(LineText(data), K.Output(items, reversed))) == Written(x, o, OracleTexts(x, o, data, s)) <==>
            Faithful(o, ItemTexts(data, s))
    ensures !o.unique ==> multiset(Map(LineText(data), K.Output(items, reversed))) == multiset(ItemTexts(data, s))
    ensures PlanOf(o) == RadixKeys ==> KeySorted(o, data, s, K.Output(items, reversed))
  {
    hide Sorted, Map, K.Output, Written, OracleTexts, CompareOrder, Faithful, KeySorted;
  }

  lemma AgreesMeans(x: Outside, o: Options, data: Text, s: seq<Line>, items: seq<Line>, reversed: bool)
    requires ValidOptions(o)
    ensures Agrees(x, o, data, s, items, reversed) <==>
      Written(x, o, Map(LineText(data), K.Output(items, reversed))) == Written(x, o, OracleTexts(x, o, data, s)) &&
      Sorted(CompareOrder(x, o), Map(LineText(data), K.Output(items, reversed)))
  {
  }
}
