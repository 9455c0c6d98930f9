/** What the options make of lines, told by their bytes: what the text modifiers
    leave, what each mode looks at, and which key, mode or direction decides. */
module LineOrders {
  import opened Bytes
  import opened Comparator
  import Fields
  import Numeric
  import opened Orders
  import Version

  // ---------- Text modifiers ----------

  /** The bytes that `-d` and `-i` keep. */
  predicate Kept(b: int, m: Modifiers) {
    && (m.dictionary ==> b == 9 || b == 32 || 48 <= b <= 57 || 65 <= b <= 90 || 97 <= b <= 122)
    && (m.printable ==> 32 <= b <= 126)
  }

  /** Small letters are read as capital ones under `-f`. */
  function Read(b: int, m: Modifiers): int {
    if m.fold && 97 <= b <= 122 then b - 32 else b
  }

  ghost predicate Increasing(at: seq<nat>) {
    forall j, k :: 0 <= j < k < |at| ==> at[j] < at[k]
  }

  /** `at` lists the positions from `i` on of the bytes that are kept, and `f` is what
      they are read as. */
  ghost predicate Selected(t: Text, i: nat, m: Modifiers, f: Text, at: seq<nat>) {
    && |at| == |f| && Increasing(at)
    && (forall j :: 0 <= j < |at| ==> i <= at[j] < |t| && Kept(t[at[j]], m) && f[j] == Read(t[at[j]], m))
    && (forall k :: i <= k < |t| && Kept(t[k], m) ==> k in at)
  }

  lemma SelectedNext(t: Text, i: nat, m: Modifiers, f: Text, rest: seq<nat>)
    requires i < |t| && Selected(t, i + 1, m, f, rest) && Kept(t[i], m) && 0 <= Read(t[i], m) < 256
    ensures Selected(t, i, m, [Read(t[i], m)] + f, [i] + rest)
  {
    var at, g := [i] + rest, [Read(t[i], m)] + f;
    hide Kept, Read;
    forall j | 0 <= j < |at| ensures i <= at[j] < |t| && Kept(t[at[j]], m) && g[j] == Read(t[at[j]], m) {
      assert j > 0 ==> at[j] == rest[j - 1] && g[j] == f[j - 1];
    }
    forall k | i <= k < |t| && Kept(t[k], m) ensures k in at {
      assert k > i ==> k in rest;
    }
  }

  lemma SelectedSkip(t: Text, i: nat, m: Modifiers, f: Text, rest: seq<nat>)
    requires i < |t| && Selected(t, i + 1, m, f, rest) && !Kept(t[i], m)
    ensures Selected(t, i, m, f, rest)
  {
    hide Kept, Read;
  }

  lemma FilteredNext(t: Text, i: nat, m: Modifiers)
    requires i < |t|
    ensures 0 <= Read(t[i], m) < 256
    ensures FilteredFrom(t, i, m) == (if Kept(t[i], m) then [Read(t[i], m)] else []) + FilteredFrom(t, i + 1, m)
  {
    hide FilteredFrom;
    FilteredUnfold(t, i, m);
  }

  lemma FilteredUnfold(t: Text, i: nat, m: Modifiers)
    requires i < |t|
    ensures FilteredFrom(t, i, m) == (if Keep(t[i], m) then [Fold(t[i], m)] else []) + FilteredFrom(t, i + 1, m)
  {
    hide Keep, Fold;
  }

  lemma {:induction false} SelectedFrom(t: Text, i: nat, m: Modifiers) returns (at: seq<nat>)
    requires i <= |t|
    ensures Selected(t, i, m, FilteredFrom(t, i, m), at)
    decreases |t| - i
  {
    if i == |t| {
      at := [];
    } else {
      hide *;
      var rest := SelectedFrom(t, i + 1, m);
      var f := FilteredFrom(t, i + 1, m);
      FilteredNext(t, i, m);
      if Kept(t[i], m) {
        SelectedNext(t, i, m, f, rest);
        at := [i] + rest;
      } else {
        SelectedSkip(t, i, m, f, rest);
        assert [] + f == f;
        at := rest;
      }
    }
  }

  /** What is left of a text: the bytes kept, in their order, each as it is read. */
  lemma FilteredIs(t: Text, m: Modifiers) returns (at: seq<nat>)
    ensures Selected(t, 0, m, Filtered(t, m), at)
  {
    at := SelectedFrom(t, 0, m);
  }

  lemma {:induction false} FoldedFrom(t: Text, i: nat, m: Modifiers)
    requires i <= |t| && !m.dictionary && !m.printable
    ensures |FilteredFrom(t, i, m)| == |t| - i
    ensures forall k :: i <= k < |t| ==> FilteredFrom(t, i, m)[k - i] == Read(t[k], m)
    decreases |t| - i
  {
    if i < |t| {
      FoldedFrom(t, i + 1, m);
      assert FilteredFrom(t, i, m) == [Fold(t[i], m)] + FilteredFrom(t, i + 1, m);
    }
  }

  /** Under `-f` alone every byte stays, small letters as capital ones. */
  lemma FoldedIs(t: Text)
    ensures var f := Filtered(t, Modifiers(true, false, false));
      |f| == |t| && forall i :: 0 <= i < |t| ==> f[i] == if 97 <= t[i] <= 122 then t[i] - 32 else t[i]
  {
    FoldedFrom(t, 0, Modifiers(true, false, false));
    forall i | 0 <= i < |t| ensures Filtered(t, Modifiers(true, false, false))[i] == Read(t[i], Modifiers(true, false, false)) {
      assert FilteredFrom(t, 0, Modifiers(true, false, false))[i - 0] == Read(t[i], Modifiers(true, false, false));
    }
  }

  // ---------- Bytes ----------

  lemma {:induction false} SameBeginning(a: Text, b: Text, n: nat, i: nat)
    requires i <= n <= |a| && n <= |b| && a[..n] == b[..n]
    ensures CompareFrom(a, b, i) == CompareFrom(a, b, n)
    decreases n - i
  {
    if i < n {
      assert a[i] == a[..n][i] == b[..n][i] == b[i];
      SameBeginning(a, b, n, i + 1);
    }
  }

  /** The first difference decides, and the end of a text is before every byte. */
  lemma FirstByteDecides(a: Text, b: Text, n: nat)
    requires n <= |a| && n <= |b| && a[..n] == b[..n]
    ensures n == |a| < |b| ==> Compare(a, b) < 0 && Compare(b, a) > 0
    ensures n < |a| && n < |b| && a[n] < b[n] ==> Compare(a, b) < 0 && Compare(b, a) > 0
    ensures n == |a| == |b| ==> Compare(a, b) == 0
  {
    SameBeginning(a, b, n, 0);
    SameBeginning(b, a, n, 0);
  }

  // ---------- Modes ----------

  /** `-f`: the first byte that is not the same letter decides, as capitals. */
  lemma FoldedFirstByte(x: Outside, a: Text, b: Text, n: nat)
    requires n <= |a| && n <= |b|
    requires forall i :: 0 <= i < n ==> Read(a[i], Modifiers(true, false, false)) == Read(b[i], Modifiers(true, false, false))
    requires if n == |a| then n < |b| else n < |b| && Read(a[n], Modifiers(true, false, false)) < Read(b[n], Modifiers(true, false, false))
    ensures ModeOrder(x, ByBytes, Modifiers(true, false, false))(a, b) < 0
    ensures ModeOrder(x, ByBytes, Modifiers(true, false, false))(b, a) > 0
  {
    var m := Modifiers(true, false, false);
    FoldedIs(a);
    FoldedIs(b);
    hide Filtered, Compare;
    assert Filtered(a, m)[..n] == Filtered(b, m)[..n];
    FirstByteDecides(Filtered(a, m), Filtered(b, m), n);
  }

  /** `-n` orders by the number that a text denotes. */
  lemma NumberMode(x: Outside, m: Modifiers, a: Text, b: Text)
    ensures ModeOrder(x, ByNumber, m)(a, b) < 0 <==> Numeric.Denote(a) < Numeric.Denote(b)
    ensures ModeOrder(x, ByNumber, m)(a, b) == 0 <==> Numeric.Denote(a) == Numeric.Denote(b)
  {
    hide Numeric.Denote, Numeric.Parsed, Numeric.CompareValues;
    Numeric.ComparisonIsExact(a, b);
  }

  /** `-g`: what is no number at all first, then what is not a number, then numbers. */
  lemma GeneralMode(x: Outside, m: Modifiers, a: Text, b: Text)
    ensures ModeOrder(x, ByGeneral, m)(a, b) < 0 <==>
      match x.general(b)
      case Nothing => false
      case NotANumber => x.general(a).Nothing?
      case Number(r) => x.general(a).Number? ==> x.general(a).value < r
  {
  }

  /** `-h` and `-M` order by the values that the library makes of the texts. */
  lemma ValueModes(x: Outside, m: Modifiers, a: Text, b: Text)
    ensures ModeOrder(x, ByHuman, m)(a, b) < 0 <==> x.human(a) < x.human(b)
    ensures ModeOrder(x, ByMonth, m)(a, b) < 0 <==> x.month(a) < x.month(b)
  {
    assert ModeOrder(x, ByHuman, m) == Through(x.human, RealOrder());
    assert ModeOrder(x, ByMonth, m) == Through(x.month, IntOrder());
    assert RealOrder()(x.human(a), x.human(b)) == Numeric.Sign(x.human(a) - x.human(b));
    assert IntOrder()(x.month(a), x.month(b)) == Numeric.SignOf(x.month(a) - x.month(b));
  }

  /** `-R`: digests that differ decide; texts with one digest are told apart by what
      was hashed. */
  lemma RandomMode(x: Outside, m: Modifiers, a: Text, b: Text)
    ensures var d, e := x.digest(Filtered(a, m)), x.digest(Filtered(b, m));
      && (d != e ==> ModeOrder(x, ByRandom, m)(a, b) == Compare(d, e) != 0)
      && (d == e ==> ModeOrder(x, ByRandom, m)(a, b) == Compare(Filtered(a, m), Filtered(b, m)))
  {
    hide Filtered, Compare;
    CompareTotal(x.digest(Filtered(a, m)), x.digest(Filtered(b, m)));
  }

  // ---------- Whole lines ----------

  predicate OnText(mode: Mode) {
    mode == ByBytes || mode == ByVersion || mode == ByRandom
  }

  predicate Blanks(t: Text) {
    forall i :: 0 <= i < |t| ==> t[i] == 32 || t[i] == 9
  }

  lemma {:induction false} BlanksSkipped(s: Text, a: Text, i: nat)
    requires Blanks(s) && (a != [] ==> a[0] != 32 && a[0] != 9) && i <= |s|
    ensures Fields.SkipBlanks(s + a, i) == |s|
    decreases |s| - i
  {
    if i < |s| {
      assert (s + a)[i] == s[i];
      BlanksSkipped(s, a, i + 1);
    } else {
      assert a != [] ==> (s + a)[i] == a[0];
    }
  }

  lemma WithoutBlanks(o: Options, s: Text, a: Text)
    requires Blanks(s) && (a != [] ==> a[0] != 32 && a[0] != 9)
    ensures LineStart(o)(s + a) == if o.ignoreBlanks && OnText(o.mode) then a else s + a
  {
    BlanksSkipped(s, a, 0);
    assert (s + a)[|s|..] == a;
  }

  /** `-b` without keys: lines compare as if they had no blanks in front, where the
      mode looks at the text as such; elsewhere it changes nothing. */
  lemma LeadingBlanks(x: Outside, o: Options, s: Text, a: Text, r: Text, b: Text)
    requires o.keys == [] && o.ignoreBlanks && Blanks(s) && Blanks(r)
    requires (a != [] ==> a[0] != 32 && a[0] != 9) && (b != [] ==> b[0] != 32 && b[0] != 9)
    ensures OnText(o.mode) ==> UniqueOrder(x, o)(s + a, r + b) == ModeOrder(x, o.mode, o.modifiers)(a, b)
    ensures !OnText(o.mode) ==> UniqueOrder(x, o)(s + a, r + b) == ModeOrder(x, o.mode, o.modifiers)(s + a, r + b)
  {
    WithoutBlanks(o, s, a);
    WithoutBlanks(o, r, b);
    hide ModeOrder, LineStart;
  }

  lemma WithBlanks(x: Outside, o: Options, a: Text, b: Text)
    requires o.keys == [] && !o.ignoreBlanks
    ensures UniqueOrder(x, o)(a, b) == ModeOrder(x, o.mode, o.modifiers)(a, b)
  {
    hide ModeOrder;
  }

  /** Without keys: the mode decides, then the bytes of the lines unless `-s` or `-u`
      is given; `-r` turns both round. */
  lemma LinesDecide(x: Outside, o: Options, a: Text, b: Text)
    requires o.keys == []
    ensures var c := UniqueOrder(x, o)(a, b);
      var d := if c != 0 then c else if o.stable || o.unique then 0 else Compare(a, b);
      && (CompareOrder(x, o)(a, b) < 0 <==> if o.reverse then d > 0 else d < 0)
      && (CompareOrder(x, o)(a, b) == 0 <==> d == 0)
  {
    if Plain(o) {
      PlainLines(x, o, a, b);
    }
    hide LineOrder, UniqueOrder, Compare;
    LinesAre(x, o, a, b);
  }

  lemma PlainLines(x: Outside, o: Options, a: Text, b: Text)
    requires o.keys == [] && Plain(o)
    ensures UniqueOrder(x, o)(a, b) == Compare(a, b)
  {
    FilteredNone(a, o.modifiers);
    FilteredNone(b, o.modifiers);
    hide Filtered, Compare;
  }

  lemma DirectedAt(reverse: bool, c: (Text, Text) -> int, a: Text, b: Text)
    ensures Directed(reverse, c)(a, b) == if reverse then -c(a, b) else c(a, b)
  {
  }

  lemma LexAt(c: (Text, Text) -> int, d: (Text, Text) -> int, a: Text, b: Text)
    ensures Lex(c, d)(a, b) == if c(a, b) != 0 then c(a, b) else d(a, b)
  {
  }

  lemma BytesAt(a: Text, b: Text)
    ensures ByteOrder()(a, b) == Compare(a, b)
  {
  }

  lemma LinesFrom(x: Outside, o: Options)
    requires o.keys == []
    ensures UniqueOrder(x, o) == LineOrder(x, o)
    ensures CompareOrder(x, o) ==
            Directed(o.reverse, if LastResort(o) && !Plain(o) then Lex(LineOrder(x, o), ByteOrder()) else LineOrder(x, o))
  {
  }

  /** The order of lines before it is turned round. */
  function Forward(x: Outside, o: Options, a: Text, b: Text): int
    requires ValidOptions(o)
  {
    if UniqueOrder(x, o)(a, b) != 0 || o.stable || o.unique || Plain(o) then UniqueOrder(x, o)(a, b) else Compare(a, b)
  }

  lemma LinesAre(x: Outside, o: Options, a: Text, b: Text)
    requires o.keys == []
    ensures CompareOrder(x, o)(a, b) == if o.reverse then -Forward(x, o, a, b) else Forward(x, o, a, b)
  {
    var u := UniqueOrder(x, o);
    LinesFrom(x, o);
    hide UniqueOrder, LineOrder, CompareOrder, Compare, Plain, Directed, Lex;
    DirectedAt(o.reverse, if LastResort(o) && !Plain(o) then Lex(u, ByteOrder()) else u, a, b);
    LexAt(u, ByteOrder(), a, b);
    BytesAt(a, b);
  }

  // ---------- Keys ----------

  function KeyPart(o: Options, i: nat, t: Text): Text
    requires ValidOptions(o) && i < |o.keys|
  {
    Fields.KeyText(t, o.separator, o.keys[i].place)
  }

  /** What the mode of key `i` says of two lines. */
  function KeySays(x: Outside, o: Options, i: nat, a: Text, b: Text): int
    requires ValidOptions(o) && i < |o.keys|
  {
    ModeOrder(x, o.keys[i].mode, o.keys[i].modifiers)(KeyPart(o, i, a), KeyPart(o, i, b))
  }

  lemma KeyDirected(x: Outside, o: Options, i: nat, a: Text, b: Text)
    requires ValidOptions(o) && i < |o.keys|
    ensures KeyOrder(x, o.separator, o.keys[i])(a, b) ==
            if o.keys[i].reverse then -KeySays(x, o, i, a, b) else KeySays(x, o, i, a, b)
  {
    var k := o.keys[i];
    var c := Through(KeyTextOf(o.separator, k.place), ModeOrder(x, k.mode, k.modifiers));
    assert c(a, b) == KeySays(x, o, i, a, b);
    hide ModeOrder, Fields.KeyText, Directed, KeySays;
    DirectedAt(k.reverse, c, a, b);
  }

  lemma KeysNext(x: Outside, o: Options, i: nat, a: Text, b: Text)
    requires ValidOptions(o) && i < |o.keys|
    ensures var c := KeyOrder(x, o.separator, o.keys[i])(a, b);
      KeysOrder(x, o, i)(a, b) == if c != 0 then c else KeysOrder(x, o, i + 1)(a, b)
  {
    hide KeyOrder;
  }

  lemma TieAt(x: Outside, o: Options, i: nat, a: Text, b: Text)
    requires ValidOptions(o) && i < |o.keys| && KeySays(x, o, i, a, b) == 0
    ensures KeysOrder(x, o, i)(a, b) == KeysOrder(x, o, i + 1)(a, b)
  {
    hide *;
    KeysNext(x, o, i, a, b);
    KeyDirected(x, o, i, a, b);
  }

  /** Two lines tie on the keys from the `i`-th on up to the `n`-th. */
  predicate Tie(x: Outside, o: Options, i: nat, n: nat, a: Text, b: Text)
    requires ValidOptions(o) && i <= n <= |o.keys|
  {
    forall k :: i <= k < n ==> KeySays(x, o, k, a, b) == 0
  }

  lemma TieNext(x: Outside, o: Options, i: nat, n: nat, a: Text, b: Text)
    requires ValidOptions(o) && i < n <= |o.keys| && Tie(x, o, i, n, a, b)
    ensures KeySays(x, o, i, a, b) == 0 && Tie(x, o, i + 1, n, a, b)
  {
    hide KeySays;
  }

  lemma {:induction false} TiesPass(x: Outside, o: Options, i: nat, n: nat, a: Text, b: Text)
    requires ValidOptions(o) && i <= n <= |o.keys| && Tie(x, o, i, n, a, b)
    ensures KeysOrder(x, o, i)(a, b) == KeysOrder(x, o, n)(a, b)
    decreases n - i
  {
    hide *;
    if i < n {
      TieNext(x, o, i, n, a, b);
      TieAt(x, o, i, a, b);
      TiesPass(x, o, i + 1, n, a, b);
    }
  }

  lemma KeyedIs(x: Outside, o: Options, a: Text, b: Text)
    requires ValidOptions(o) && o.keys != []
    ensures KeysOrder(x, o, |o.keys|)(a, b) == 0
    ensures var c := KeysOrder(x, o, 0)(a, b);
      CompareOrder(x, o)(a, b) ==
      if c != 0 || o.stable || o.unique then c else if o.reverse then -Compare(a, b) else Compare(a, b)
    ensures UniqueOrder(x, o)(a, b) == KeysOrder(x, o, 0)(a, b)
  {
    assert KeysOrder(x, o, |o.keys|) == Indifferent();
    var c := KeysOrder(x, o, 0);
    hide KeysOrder, Compare, Directed, Lex;
    DirectedAt(o.reverse, ByteOrder(), a, b);
    LexAt(c, Directed(o.reverse, ByteOrder()), a, b);
    BytesAt(a, b);
  }

  /** The first key on which two lines differ decides, in its own direction, whatever
      the other options are. */
  lemma FirstKeyDecides(x: Outside, o: Options, n: nat, a: Text, b: Text)
    requires ValidOptions(o) && n < |o.keys| && Tie(x, o, 0, n, a, b)
    requires KeySays(x, o, n, a, b) != 0
    ensures CompareOrder(x, o)(a, b) < 0 <==> if o.keys[n].reverse then KeySays(x, o, n, a, b) > 0 else KeySays(x, o, n, a, b) < 0
    ensures CompareOrder(x, o)(a, b) != 0 && UniqueOrder(x, o)(a, b) != 0
  {
    hide *;
    TiesPass(x, o, 0, n, a, b);
    KeysNext(x, o, n, a, b);
    KeyDirected(x, o, n, a, b);
    KeyedIs(x, o, a, b);
  }

  /** If no key tells two lines apart, their bytes do, in the global direction, unless
      `-s` or `-u` is given. */
  lemma NoKeyDecides(x: Outside, o: Options, a: Text, b: Text)
    requires ValidOptions(o) && o.keys != [] && Tie(x, o, 0, |o.keys|, a, b)
    ensures UniqueOrder(x, o)(a, b) == 0
    ensures CompareOrder(x, o)(a, b) ==
            if o.stable || o.unique then 0 else if o.reverse then -Compare(a, b) else Compare(a, b)
  {
    hide *;
    TiesPass(x, o, 0, |o.keys|, a, b);
    KeyedIs(x, o, a, b);
  }
}
