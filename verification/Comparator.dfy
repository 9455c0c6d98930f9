/** The comparator (src/cmp.c): what every engine must agree with.  Texts are
    compared as in the C locale, byte by byte. */
module Comparator {
  import opened Bytes
  import opened Orders
  import Numeric
  import Version
  import Fields

  datatype Mode = ByBytes | ByNumber | ByGeneral | ByHuman | ByMonth | ByVersion | ByRandom

  datatype Modifiers = Modifiers(fold: bool, dictionary: bool, printable: bool) {
    predicate None() {
      !fold && !dictionary && !printable
    }
  }

  datatype Key = Key(place: Fields.Place, modifiers: Modifiers, reverse: bool, mode: Mode)

  datatype Options = Options(mode: Mode, modifiers: Modifiers, ignoreBlanks: bool, reverse: bool, stable: bool,
                             unique: bool, separator: Fields.Option<Byte>, keys: seq<Key>)

  predicate ValidOptions(o: Options) {
    forall k :: 0 <= k < |o.keys| ==> Fields.Parsed(o.keys[k].place)
  }

  /** A `-g` value: nothing to convert, not a number, or a number. */
  datatype General = Nothing | NotANumber | Number(value: real)

  /** What the C library and the hash make of a text. */
  datatype Outside = Outside(general: Text -> General, human: Text -> real, month: Text -> int, digest: Text -> Text)

  // ---------- Text modifiers ----------

  predicate Keep(b: Byte, m: Modifiers) {
    && (m.dictionary ==> b == 32 || b == 9 || 48 <= b <= 57 || 65 <= b <= 90 || 97 <= b <= 122)
    && (m.printable ==> 32 <= b <= 126)
  }

  function Fold(b: Byte, m: Modifiers): Byte {
    if m.fold && 97 <= b <= 122 then b - 32 else b
  }

  /** What the modifiers leave of `t` from position `i`. */
  function FilteredFrom(t: Text, i: nat, m: Modifiers): Text
    requires i <= |t|
    decreases |t| - i
  {
    if i == |t| then []
    else if Keep(t[i], m) then [Fold(t[i], m)] + FilteredFrom(t, i + 1, m)
    else FilteredFrom(t, i + 1, m)
  }

  function Filtered(t: Text, m: Modifiers): Text {
    FilteredFrom(t, 0, m)
  }

  lemma {:induction false} NoModifiers(t: Text, i: nat, m: Modifiers)
    requires i <= |t| && m.None()
    ensures FilteredFrom(t, i, m) == t[i..]
    decreases |t| - i
  {
    if i < |t| {
      NoModifiers(t, i + 1, m);
      assert t[i..] == [t[i]] + t[i + 1..];
    }
  }

  lemma FilteredNone(t: Text, m: Modifiers)
    requires m.None()
    ensures Filtered(t, m) == t
  {
    NoModifiers(t, 0, m);
    assert t[0..] == t;
  }

  /** Comparing behind an equal first byte. */
  lemma CompareHead(a: Text, b: Text)
    ensures a == [] && b == [] ==> Compare(a, b) == 0
    ensures a == [] && b != [] ==> Compare(a, b) == -1
    ensures a != [] && b == [] ==> Compare(a, b) == 1
    ensures a != [] && b != [] && a[0] < b[0] ==> Compare(a, b) == -1
    ensures a != [] && b != [] && a[0] > b[0] ==> Compare(a, b) == 1
    ensures a != [] && b != [] && a[0] == b[0] ==> Compare(a, b) == Compare(a[1..], b[1..])
  {
    if a != [] && b != [] && a[0] == b[0] {
      CompareTail(a, b, 0);
    }
  }

  lemma {:induction false} CompareTail(a: Text, b: Text, i: nat)
    requires a != [] && b != [] && i < |a| && i < |b|
    ensures CompareFrom(a, b, i + 1) == CompareFrom(a[1..], b[1..], i)
    decreases |a| - i
  {
    if i + 1 < |a| && i + 1 < |b| && a[i + 1] == b[i + 1] {
      CompareTail(a, b, i + 1);
    }
  }

  method SkipDropped(t: Text, i: nat, m: Modifiers) returns (j: nat)
    requires i <= |t|
    ensures i <= j <= |t| && (j < |t| ==> Keep(t[j], m))
    ensures FilteredFrom(t, j, m) == FilteredFrom(t, i, m)
  {
    j := i;
    while j < |t| && !Keep(t[j], m)
      invariant i <= j <= |t| && FilteredFrom(t, j, m) == FilteredFrom(t, i, m)
    {
      j := j + 1;
    }
  }

  lemma FilteredAt(t: Text, i: nat, m: Modifiers)
    requires i <= |t| && (i < |t| ==> Keep(t[i], m))
    ensures FilteredFrom(t, i, m) == [] <==> i == |t|
    ensures i < |t| ==> FilteredFrom(t, i, m)[0] == Fold(t[i], m)
    ensures i < |t| ==> FilteredFrom(t, i, m)[1..] == FilteredFrom(t, i + 1, m)
  {
  }

  /** The comparison with two cursors, which never builds the filtered texts,
      compares exactly those. */
  method CompareModified(a: Text, b: Text, m: Modifiers) returns (result: int)
    ensures result == Compare(Filtered(a, m), Filtered(b, m))
  {
    if m.None() {
      FilteredNone(a, m);
      FilteredNone(b, m);
      result := CompareFromDepth(a, b, 0);
      return;
    }
    hide FilteredFrom, Compare, Keep, Fold;
    var i, j := 0, 0;
    while true
      invariant 0 <= i <= |a| && 0 <= j <= |b|
      invariant Compare(Filtered(a, m), Filtered(b, m)) == Compare(FilteredFrom(a, i, m), FilteredFrom(b, j, m))
      decreases |a| - i
    {
      i := SkipDropped(a, i, m);
      j := SkipDropped(b, j, m);
      FilteredAt(a, i, m);
      FilteredAt(b, j, m);
      CompareHead(FilteredFrom(a, i, m), FilteredFrom(b, j, m));
      if i == |a| || j == |b| {
        break;
      }
      if Fold(a[i], m) < Fold(b[j], m) {
        return -1;
      }
      if Fold(a[i], m) > Fold(b[j], m) {
        return 1;
      }
      i, j := i + 1, j + 1;
    }
    if i == |a| && j == |b| {
      return 0;
    }
    result := if i == |a| then -1 else 1;
  }

  /** Building the filtered text, as the engines that sort by it do. */
  method AppendFiltered(t: Text, m: Modifiers) returns (f: Text)
    ensures f == Filtered(t, m)
  {
    f := [];
    var i := 0;
    while i < |t|
      invariant 0 <= i <= |t| && f + FilteredFrom(t, i, m) == Filtered(t, m)
    {
      if Keep(t[i], m) {
        assert f + FilteredFrom(t, i, m) == (f + [Fold(t[i], m)]) + FilteredFrom(t, i + 1, m);
        f := f + [Fold(t[i], m)];
      }
      i := i + 1;
    }
  }

  // ---------- The orders ----------

  function ByteOrder(): (Text, Text) -> int {
    (a: Text, b: Text) => Compare(a, b)
  }

  function NumberOrder(): (Text, Text) -> int {
    (a: Text, b: Text) => Numeric.CompareValues(Numeric.Parsed(a), Numeric.Parsed(b))
  }

  function GeneralClass(g: General): int {
    match g
    case Nothing => 0
    case NotANumber => 1
    case Number(_) => 2
  }

  function CompareGeneral(a: General, b: General): int {
    if GeneralClass(a) < GeneralClass(b) then -1
    else if GeneralClass(a) > GeneralClass(b) then 1
    else if a.Number? && b.Number? then Numeric.Sign(a.value - b.value)
    else 0
  }

  function GeneralOrder(): (General, General) -> int {
    (a: General, b: General) => CompareGeneral(a, b)
  }

  function RealOrder(): (real, real) -> int {
    (a: real, b: real) => Numeric.Sign(a - b)
  }

  function IntOrder(): (int, int) -> int {
    (a: int, b: int) => Numeric.SignOf(a - b)
  }

  function FilterWith(m: Modifiers): Text -> Text {
    (t: Text) => Filtered(t, m)
  }

  function DigestWith(x: Outside, m: Modifiers): Text -> Text {
    (t: Text) => x.digest(Filtered(t, m))
  }

  /** The order of one mode, on the text of a key or a line. */
  function ModeOrder(x: Outside, mode: Mode, m: Modifiers): (Text, Text) -> int {
    match mode
    case ByBytes => Through(FilterWith(m), ByteOrder())
    case ByNumber => NumberOrder()
    case ByGeneral => Through(x.general, GeneralOrder())
    case ByHuman => Through(x.human, RealOrder())
    case ByMonth => Through(x.month, IntOrder())
    case ByVersion => Version.VersionOrder()
    case ByRandom => Lex(Through(DigestWith(x, m), ByteOrder()), Through(FilterWith(m), ByteOrder()))
  }

  function KeyTextOf(separator: Fields.Option<Byte>, p: Fields.Place): Text -> Text
    requires Fields.Parsed(p)
  {
    (t: Text) => Fields.KeyText(t, separator, p)
  }

  function Directed<T>(reverse: bool, c: (T, T) -> int): (T, T) -> int {
    if reverse then Reversed(c) else c
  }

  function KeyOrder(x: Outside, separator: Fields.Option<Byte>, k: Key): (Text, Text) -> int
    requires Fields.Parsed(k.place)
  {
    Directed(k.reverse, Through(KeyTextOf(separator, k.place), ModeOrder(x, k.mode, k.modifiers)))
  }

  /** The keys from the `i`-th on, the earlier one deciding first. */
  function KeysOrder(x: Outside, o: Options, i: nat): (Text, Text) -> int
    requires ValidOptions(o) && i <= |o.keys|
    decreases |o.keys| - i
  {
    if i == |o.keys| then Indifferent()
    else Lex(KeyOrder(x, o.separator, o.keys[i]), KeysOrder(x, o, i + 1))
  }

  /** Leading blanks are dropped in the modes that look at the text as such. */
  function LineStart(o: Options): Text -> Text {
    (t: Text) =>
      if o.ignoreBlanks && (o.mode == ByBytes || o.mode == ByVersion || o.mode == ByRandom)
      then t[Fields.SkipBlanks(t, 0)..] else t
  }

  /** Whole lines, before the last resort and the global reversal. */
  function LineOrder(x: Outside, o: Options): (Text, Text) -> int {
    Through(LineStart(o), ModeOrder(x, o.mode, o.modifiers))
  }

  /** What `-u` takes as equal. */
  function UniqueOrder(x: Outside, o: Options): (Text, Text) -> int
    requires ValidOptions(o)
  {
    if o.keys == [] then LineOrder(x, o) else KeysOrder(x, o, 0)
  }

  predicate Plain(o: Options) {
    o.mode == ByBytes && o.modifiers.None() && !o.ignoreBlanks
  }

  predicate LastResort(o: Options) {
    !o.stable && !o.unique
  }

  /** The order of lines: with keys, global reversal only touches the last
      resort; without, it turns everything round. */
  function CompareOrder(x: Outside, o: Options): (Text, Text) -> int
    requires ValidOptions(o)
  {
    if o.keys == [] then
      Directed(o.reverse, if LastResort(o) && !Plain(o) then Lex(LineOrder(x, o), ByteOrder()) else LineOrder(x, o))
    else if LastResort(o) then Lex(KeysOrder(x, o, 0), Directed(o.reverse, ByteOrder()))
    else KeysOrder(x, o, 0)
  }

  // ---------- All of them are total preorders ----------

  lemma BytePreorder()
    ensures TotalPreorder(ByteOrder())
  {
    var c := ByteOrder();
    forall a, b ensures c(a, b) < 0 <==> c(b, a) > 0 {
      CompareTotal(a, b);
    }
    forall a, b, d | c(a, b) <= 0 && c(b, d) <= 0 ensures c(a, d) <= 0 {
      CompareFromTransitive(a, b, d, 0);
    }
  }

  lemma NumberPreorder()
    ensures TotalPreorder(NumberOrder())
  {
    hide Numeric.Denote, Numeric.Parsed, Numeric.CompareValues;
    var c := NumberOrder();
    forall a, b ensures c(a, b) == Numeric.Sign(Numeric.Denote(a) - Numeric.Denote(b)) {
      Numeric.ComparisonIsExact(a, b);
    }
  }

  lemma ModePreorder(x: Outside, mode: Mode, m: Modifiers)
    ensures TotalPreorder(ModeOrder(x, mode, m))
  {
    hide TotalPreorder, ByteOrder, NumberOrder, Version.VersionOrder;
    BytePreorder();
    match mode {
      case ByBytes => ThroughPreorder(FilterWith(m), ByteOrder());
      case ByNumber => NumberPreorder();
      case ByGeneral =>
        GeneralPreorder();
        ThroughPreorder(x.general, GeneralOrder());
      case ByHuman =>
        RealPreorder();
        ThroughPreorder(x.human, RealOrder());
      case ByMonth =>
        IntPreorder();
        ThroughPreorder(x.month, IntOrder());
      case ByVersion => Version.VersionPreorder();
      case ByRandom =>
        ThroughPreorder(DigestWith(x, m), ByteOrder());
        ThroughPreorder(FilterWith(m), ByteOrder());
        LexPreorder(Through(DigestWith(x, m), ByteOrder()), Through(FilterWith(m), ByteOrder()));
    }
  }

  lemma GeneralPreorder()
    ensures TotalPreorder(GeneralOrder())
  {
    var c := GeneralOrder();
    forall a, b ensures c(a, b) < 0 <==> c(b, a) > 0 {
      GeneralAt(a, b);
      GeneralAt(b, a);
    }
    forall a, b, d | c(a, b) <= 0 && c(b, d) <= 0 ensures c(a, d) <= 0 {
      GeneralAt(a, b);
      GeneralAt(b, d);
      GeneralAt(a, d);
    }
  }

  lemma GeneralAt(a: General, b: General)
    ensures GeneralOrder()(a, b) < 0 <==> GeneralClass(a) < GeneralClass(b) || (a.Number? && b.Number? && a.value < b.value)
    ensures GeneralOrder()(a, b) > 0 <==> GeneralClass(a) > GeneralClass(b) || (a.Number? && b.Number? && a.value > b.value)
  {
  }

  lemma RealPreorder()
    ensures TotalPreorder(RealOrder())
  {
    var c := RealOrder();
    forall a, b ensures c(a, b) < 0 <==> c(b, a) > 0 {
      RealAt(a, b);
      RealAt(b, a);
    }
    forall a, b, d | c(a, b) <= 0 && c(b, d) <= 0 ensures c(a, d) <= 0 {
      RealAt(a, b);
      RealAt(b, d);
      RealAt(a, d);
    }
  }

  lemma RealAt(a: real, b: real)
    ensures RealOrder()(a, b) < 0 <==> a < b
    ensures RealOrder()(a, b) > 0 <==> a > b
  {
    assert RealOrder()(a, b) == Numeric.Sign(a - b);
  }

  lemma IntPreorder()
    ensures TotalPreorder(IntOrder())
  {
    var c := IntOrder();
    forall a, b ensures (c(a, b) < 0 <==> a < b) && (c(a, b) > 0 <==> a > b) {
      assert c(a, b) == Numeric.SignOf(a - b);
    }
  }

  lemma DirectedPreorder<T(!new)>(reverse: bool, c: (T, T) -> int)
    requires TotalPreorder(c)
    ensures TotalPreorder(Directed(reverse, c))
  {
    ReversedPreorder(c);
  }

  lemma {:induction false} KeysPreorder(x: Outside, o: Options, i: nat)
    requires ValidOptions(o) && i <= |o.keys|
    ensures TotalPreorder(KeysOrder(x, o, i))
    decreases |o.keys| - i
  {
    hide TotalPreorder, ModeOrder;
    if i == |o.keys| {
      IndifferentPreorder<Text>();
    } else {
      var k := o.keys[i];
      var c := Through(KeyTextOf(o.separator, k.place), ModeOrder(x, k.mode, k.modifiers));
      ModePreorder(x, k.mode, k.modifiers);
      ThroughPreorder(KeyTextOf(o.separator, k.place), ModeOrder(x, k.mode, k.modifiers));
      DirectedPreorder(k.reverse, c);
      KeysPreorder(x, o, i + 1);
      LexPreorder(KeyOrder(x, o.separator, k), KeysOrder(x, o, i + 1));
    }
  }

  lemma LinePreorder(x: Outside, o: Options)
    ensures TotalPreorder(LineOrder(x, o))
  {
    ModePreorder(x, o.mode, o.modifiers);
    ThroughPreorder(LineStart(o), ModeOrder(x, o.mode, o.modifiers));
  }

  /** Whatever the options, comparing lines is reflexive, antisymmetric in sign,
      transitive and total. */
  lemma ComparePreorder(x: Outside, o: Options)
    requires ValidOptions(o)
    ensures TotalPreorder(CompareOrder(x, o)) && TotalPreorder(UniqueOrder(x, o))
  {
    hide TotalPreorder, LineOrder, KeysOrder, ByteOrder;
    BytePreorder();
    if o.keys == [] {
      LinePreorder(x, o);
      LexPreorder(LineOrder(x, o), ByteOrder());
      DirectedPreorder(o.reverse, LineOrder(x, o));
      DirectedPreorder(o.reverse, Lex(LineOrder(x, o), ByteOrder()));
    } else {
      KeysPreorder(x, o, 0);
      DirectedPreorder(o.reverse, ByteOrder());
      LexPreorder(KeysOrder(x, o, 0), Directed(o.reverse, ByteOrder()));
    }
  }

  /** Lines that the comparator calls equal under the last resort are the same
      bytes, so no engine can be told apart by how it orders them. */
  lemma LastResortSeparates(x: Outside, o: Options, a: Text, b: Text)
    requires ValidOptions(o) && LastResort(o) && CompareOrder(x, o)(a, b) == 0
    ensures a == b
  {
    CompareTotal(a, b);
    if o.keys == [] && Plain(o) {
      FilteredNone(a, o.modifiers);
      FilteredNone(b, o.modifiers);
    }
  }

  // ---------- The comparison itself ----------

  method CompareMode(x: Outside, mode: Mode, m: Modifiers, a: Text, b: Text) returns (result: int)
    ensures Numeric.SignOf(result) == Numeric.SignOf(ModeOrder(x, mode, m)(a, b))
  {
    hide Version.VersionOrder, Numeric.Parsed, Numeric.CompareValues, FilteredFrom, Compare;
    match mode {
      case ByBytes =>
        result := CompareModified(a, b, m);
      case ByNumber =>
        result := Numeric.CompareValues(Numeric.Parsed(a), Numeric.Parsed(b));
      case ByGeneral =>
        result := CompareGeneral(x.general(a), x.general(b));
      case ByHuman =>
        result := Numeric.Sign(x.human(a) - x.human(b));
      case ByMonth =>
        result := Numeric.SignOf(x.month(a) - x.month(b));
      case ByVersion =>
        result := Version.VersionCompare(a, b);
      case ByRandom =>
        result := CompareFromDepth(x.digest(Filtered(a, m)), x.digest(Filtered(b, m)), 0);
        CompareIs(x.digest(Filtered(a, m)), x.digest(Filtered(b, m)));
        if result == 0 {
          result := CompareModified(a, b, m);
        }
    }
  }

  lemma CompareIs(a: Text, b: Text)
    ensures Compare(a, b) == CompareFrom(a, b, 0)
  {
  }

  /** The loop over the keys: the first that tells the lines apart decides. */
  method CompareKeys(x: Outside, o: Options, a: Text, b: Text) returns (result: int)
    requires ValidOptions(o)
    ensures Numeric.SignOf(result) == Numeric.SignOf(KeysOrder(x, o, 0)(a, b))
  {
    hide ModeOrder;
    var i := 0;
    while i < |o.keys|
      invariant 0 <= i <= |o.keys|
      invariant KeysOrder(x, o, 0)(a, b) == KeysOrder(x, o, i)(a, b)
    {
      var k := o.keys[i];
      var p := Fields.ExtractKeySpan(a, o.separator, k.place);
      var q := Fields.ExtractKeySpan(b, o.separator, k.place);
      result := CompareMode(x, k.mode, k.modifiers, a[p.start..p.end], b[q.start..q.end]);
      if k.reverse {
        result := -result;
      }
      KeyOrderAt(x, o.separator, k, a, b);
      if result != 0 {
        return;
      }
      i := i + 1;
    }
    result := 0;
  }

  lemma KeyOrderAt(x: Outside, separator: Fields.Option<Byte>, k: Key, a: Text, b: Text)
    requires Fields.Parsed(k.place)
    ensures var c := ModeOrder(x, k.mode, k.modifiers)(Fields.KeyText(a, separator, k.place), Fields.KeyText(b, separator, k.place));
            KeyOrder(x, separator, k)(a, b) == if k.reverse then -c else c
  {
  }

  lemma SingleKey(x: Outside, o: Options, a: Text, b: Text)
    requires ValidOptions(o) && |o.keys| == 1
    ensures KeysOrder(x, o, 0)(a, b) == KeyOrder(x, o.separator, o.keys[0])(a, b)
  {
    assert KeysOrder(x, o, 1) == Indifferent();
    assert KeysOrder(x, o, 0) == Lex(KeyOrder(x, o.separator, o.keys[0]), KeysOrder(x, o, 1));
    hide KeyOrder, KeysOrder;
  }

  method CompareAscending(x: Outside, o: Options, a: Text, b: Text) returns (result: int)
    ensures Numeric.SignOf(result) == Numeric.SignOf(LineOrder(x, o)(a, b))
  {
    hide ModeOrder;
    var p, q := a, b;
    if o.ignoreBlanks && (o.mode == ByBytes || o.mode == ByVersion || o.mode == ByRandom) {
      var skip := Fields.ScanNonblank(a, 0);
      p := a[skip..];
      skip := Fields.ScanNonblank(b, 0);
      q := b[skip..];
    }
    result := CompareMode(x, o.mode, o.modifiers, p, q);
  }

  method CompareLines(x: Outside, o: Options, a: Text, b: Text) returns (result: int)
    requires ValidOptions(o)
    ensures Numeric.SignOf(result) == Numeric.SignOf(CompareOrder(x, o)(a, b))
  {
    hide LineOrder, KeysOrder;
    if o.keys == [] {
      result := CompareAscending(x, o, a, b);
      if result == 0 && !Plain(o) && !(o.stable || o.unique) {
        result := CompareFromDepth(a, b, 0);
      }
      if o.reverse {
        result := -result;
      }
      return;
    }
    result := CompareKeys(x, o, a, b);
    if result != 0 || o.stable || o.unique {
      return;
    }
    result := CompareFromDepth(a, b, 0);
    if o.reverse {
      result := -result;
    }
  }

  method CompareUnique(x: Outside, o: Options, a: Text, b: Text) returns (result: int)
    requires ValidOptions(o)
    ensures Numeric.SignOf(result) == Numeric.SignOf(UniqueOrder(x, o)(a, b))
  {
    hide LineOrder, KeysOrder;
    if |o.keys| > 0 {
      result := CompareKeys(x, o, a, b);
    } else {
      result := CompareAscending(x, o, a, b);
    }
  }
}
