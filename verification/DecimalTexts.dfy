/** Which number a text denotes under `-n`, told by its bytes: what a writer of
    decimals writes is what the comparison reads. */
module DecimalTexts {
  import opened Bytes
  import opened Numeric

  /** Blanks in front, a sign perhaps, digits, perhaps a point and more digits, and
      whatever follows. */
  datatype Written = Written(blanks: Text, sign: Text, whole: Text, point: bool, fraction: Text, more: Text) {
    predicate Valid() {
      && (forall i :: 0 <= i < |blanks| ==> blanks[i] == 32 || blanks[i] == 9)
      && (sign == [] || sign == [43] || sign == [45])
      && Digits(whole) && Digits(fraction) && (!point ==> fraction == [])
      && (more != [] ==> !(48 <= more[0] <= 57))
      && (more != [] && !point ==> more[0] != 46)
      && (more != [] && !point && whole == [] && sign == [] ==>
            more[0] != 32 && more[0] != 9 && more[0] != 43 && more[0] != 45)
    }

    function Text(): Bytes.Text {
      blanks + sign + whole + (if point then [46] else []) + fraction + more
    }

    ghost function Value(): real
      requires Digits(whole + fraction)
    {
      var m := Natural(whole + fraction) as real / Ten(|fraction|) as real;
      if sign == [45] then -m else m
    }
  }

  predicate Digits(s: Text) {
    forall i :: 0 <= i < |s| ==> 48 <= s[i] <= 57
  }

  /** The number that a row of digits writes. */
  function Natural(s: Text): int
    requires Digits(s)
  {
    if s == [] then 0 else 10 * Natural(s[..|s| - 1]) + (s[|s| - 1] as int - 48)
  }

  function Ten(n: nat): (r: nat)
    ensures r >= 1
  {
    if n == 0 then 1 else 10 * Ten(n - 1)
  }

  lemma {:induction false} NaturalIs(s: Text)
    requires Digits(s)
    ensures AllDigits(s) && Nat(s) == Natural(s)
  {
    if s != [] {
      NaturalIs(s[..|s| - 1]);
    }
  }

  lemma {:induction false} TenIs(n: nat)
    ensures Pow10(n) == Ten(n)
  {
    if n > 0 {
      TenIs(n - 1);
    }
  }

  /** A run that is a piece of the text. */
  lemma RunPiece(p: Text, s: Text, q: Text, k: Kind)
    requires forall i :: 0 <= i < |s| ==> Is(s[i], k)
    requires q != [] ==> !Is(q[0], k)
    ensures RunEnd(p + s + q, |p|, k) == |p + s|
  {
    var t := p + s + q;
    forall x | |p| <= x < |p + s| ensures Is(t[x], k) {
      assert t[x] == s[x - |p|];
    }
    assert q != [] ==> t[|p + s|] == q[0];
    RunEndUnique(t, |p|, |p + s|, k);
  }

  lemma SliceBehind(p: Text, s: Text, q: Text)
    ensures (p + s + q)[|p|..|p + s|] == s
    ensures q != [] ==> (p + s + q)[|p + s|] == q[0]
  {
  }

  /** What comes behind the sign. */
  function Rest(w: Written): Text {
    (if w.point then [46] else []) + w.fraction + w.more
  }

  lemma TextSplits(w: Written)
    ensures w.Text() == [] + w.blanks + (w.sign + (w.whole + Rest(w)))
  {
  }

  lemma FirstOfRest(w: Written)
    requires w.Valid() && w.whole == []
    ensures var r := Rest(w);
      && (w.point ==> r != [] && r[0] == 46)
      && (r != [] && w.sign == [] ==> r[0] != 32 && r[0] != 9 && r[0] != 43 && r[0] != 45)
  {
    assert !w.point ==> Rest(w) == w.more;
  }

  /** The first byte that is no blank. */
  lemma FirstBehind(w: Written)
    requires w.Valid()
    ensures var q := w.sign + (w.whole + Rest(w));
      && (q != [] ==> q[0] != 32 && q[0] != 9)
      && (q != [] && (q[0] == 43 || q[0] == 45) ==> w.sign == [q[0]])
      && (w.sign != [] ==> q[0] == w.sign[0])
  {
    if w.whole == [] {
      FirstOfRest(w);
    }
    hide Rest;
    var q := w.sign + (w.whole + Rest(w));
    if w.sign == [] {
      assert q == w.whole + Rest(w);
      assert w.whole == [] ==> q == Rest(w);
    }
  }

  lemma Blanks(w: Written)
    requires w.Valid()
    ensures RunEnd(w.Text(), 0, Blank) == |w.blanks|
  {
    var q := w.sign + (w.whole + Rest(w));
    TextSplits(w);
    FirstBehind(w);
    assert [] + w.blanks == w.blanks;
    hide w.Text, Rest;
    RunPiece([], w.blanks, q, Blank);
  }

  lemma Sign(w: Written)
    requires w.Valid()
    ensures |w.blanks| <= |w.Text()|
    ensures AfterSign(w.Text(), |w.blanks|) == |w.blanks + w.sign|
    ensures Minus(w.Text(), |w.blanks|) <==> w.sign == [45]
  {
    var q := w.sign + (w.whole + Rest(w));
    TextSplits(w);
    FirstBehind(w);
    hide w.Text, Rest;
    assert q != [] ==> w.Text()[|w.blanks|] == q[0];
  }

  lemma Whole(w: Written)
    requires w.Valid()
    ensures |w.blanks + w.sign| <= |w.Text()|
    ensures RunEnd(w.Text(), |w.blanks + w.sign|, Digit) == |w.blanks + w.sign + w.whole|
    ensures w.Text()[|w.blanks + w.sign|..|w.blanks + w.sign + w.whole|] == w.whole
  {
    var p, q := w.blanks + w.sign, Rest(w);
    assert w.Text() == p + w.whole + q;
    RunPiece(p, w.whole, q, Digit);
    SliceBehind(p, w.whole, q);
  }

  lemma FractionIs(w: Written)
    requires w.Valid()
    ensures |w.blanks + w.sign + w.whole| <= |w.Text()|
    ensures Fraction(w.Text(), |w.blanks + w.sign + w.whole|) == w.fraction
  {
    var p := w.blanks + w.sign + w.whole;
    if w.point {
      assert w.Text() == (p + [46]) + w.fraction + w.more;
      RunPiece(p + [46], w.fraction, w.more, Digit);
      SliceBehind(p + [46], w.fraction, w.more);
      assert w.Text()[|p|] == 46;
    } else {
      assert w.Text() == p + w.more;
      assert w.more != [] ==> w.Text()[|p|] == w.more[0];
    }
  }

  /** A written decimal denotes the number written. */
  lemma WrittenDenotes(w: Written)
    requires w.Valid()
    ensures Digits(w.whole + w.fraction) && Denote(w.Text()) == w.Value()
  {
    Blanks(w);
    Sign(w);
    Whole(w);
    FractionIs(w);
    NaturalIs(w.whole + w.fraction);
    NaturalIs(w.whole);
    NaturalIs(w.fraction);
    TenIs(|w.fraction|);
    hide RunEnd, AfterSign, Minus, Fraction, Natural, Nat, Ten, Pow10;
  }

  /** So the comparison orders written decimals by their numbers. */
  lemma WrittenCompare(v: Written, w: Written)
    requires v.Valid() && w.Valid()
    ensures Digits(v.whole + v.fraction) && Digits(w.whole + w.fraction)
    ensures CompareValues(Parsed(v.Text()), Parsed(w.Text())) < 0 <==> v.Value() < w.Value()
    ensures CompareValues(Parsed(v.Text()), Parsed(w.Text())) == 0 <==> v.Value() == w.Value()
  {
    WrittenDenotes(v);
    WrittenDenotes(w);
    hide Denote, Parsed, CompareValues;
    ComparisonIsExact(v.Text(), w.Text());
  }

  lemma FivePieces(t: Text, i: nat, j: nat, d: nat, e: nat)
    requires i <= j <= d <= e <= |t|
    ensures t == t[..i] + t[i..j] + t[j..d] + t[d..e] + t[e..]
  {
  }

  lemma PointPiece(t: Text, d: nat, e: nat)
    requires d < e <= |t| && t[d] == 46
    ensures t[d..e] == [46] + t[d + 1..e]
  {
  }

  lemma SignPiece(t: Text, i: nat)
    requires i <= |t|
    ensures t[i..AfterSign(t, i)] == [] || t[i..AfterSign(t, i)] == [43] || t[i..AfterSign(t, i)] == [45]
    ensures AfterSign(t, i) == i < |t| ==> t[i] != 43 && t[i] != 45
  {
  }

  lemma RunPieceIs(t: Text, i: nat, k: Kind)
    requires i <= |t|
    ensures var s := t[i..RunEnd(t, i, k)]; forall x :: 0 <= x < |s| ==> Is(s[x], k)
    ensures RunEnd(t, i, k) < |t| ==> !Is(t[RunEnd(t, i, k)], k)
  {
    var j := RunEnd(t, i, k);
    forall x | 0 <= x < |t[i..j]| ensures Is(t[i..j][x], k) {
      assert t[i..j][x] == t[i + x];
    }
  }

  lemma WithPoint(t: Text, i: nat, j: nat, d: nat) returns (w: Written)
    requires i == RunEnd(t, 0, Blank) && j == AfterSign(t, i) && d == RunEnd(t, j, Digit)
    requires d < |t| && t[d] == 46
    ensures w.Valid() && w.Text() == t
  {
    hide RunEnd, AfterSign;
    var e := RunEnd(t, d + 1, Digit);
    w := Written(t[..i], t[i..j], t[j..d], true, t[d + 1..e], t[e..]);
    RunPieceIs(t, 0, Blank);
    SignPiece(t, i);
    RunPieceIs(t, j, Digit);
    RunPieceIs(t, d + 1, Digit);
    FivePieces(t, i, j, d, e);
    PointPiece(t, d, e);
    PointedText(w);
  }

  lemma WithoutPoint(t: Text, i: nat, j: nat, d: nat) returns (w: Written)
    requires i == RunEnd(t, 0, Blank) && j == AfterSign(t, i) && d == RunEnd(t, j, Digit)
    requires d < |t| ==> t[d] != 46
    ensures w.Valid() && w.Text() == t
  {
    hide RunEnd, AfterSign;
    w := Written(t[..i], t[i..j], t[j..d], false, [], t[d..]);
    RunPieceIs(t, 0, Blank);
    SignPiece(t, i);
    RunPieceIs(t, j, Digit);
    PlainValid(w, d == i);
    hide *;
    FivePieces(t, i, j, d, d);
    PlainText(w, t[d..d]);
  }

  /** Every text is so written, and so has its number. */
  lemma AnyText(t: Text) returns (w: Written)
    ensures w.Valid() && w.Text() == t
    ensures Digits(w.whole + w.fraction) && Denote(t) == w.Value()
  {
    var i := RunEnd(t, 0, Blank);
    var j := AfterSign(t, i);
    var d := RunEnd(t, j, Digit);
    hide *;
    if d < |t| && t[d] == 46 {
      w := WithPoint(t, i, j, d);
    } else {
      w := WithoutPoint(t, i, j, d);
    }
    WrittenDenotes(w);
  }

  lemma PointedText(w: Written)
    requires w.point
    ensures w.Text() == w.blanks + w.sign + w.whole + ([46] + w.fraction) + w.more
  {
  }

  lemma PlainValid(w: Written, bare: bool)
    requires !w.point && w.fraction == [] && (bare <==> |w.sign| + |w.whole| == 0)
    requires forall i :: 0 <= i < |w.blanks| ==> Is(w.blanks[i], Blank)
    requires w.sign == [] || w.sign == [43] || w.sign == [45]
    requires forall i :: 0 <= i < |w.whole| ==> Is(w.whole[i], Digit)
    requires w.more != [] ==> !Is(w.more[0], Digit) && w.more[0] != 46
    requires w.more != [] && bare ==> !Is(w.more[0], Blank) && w.more[0] != 43 && w.more[0] != 45
    ensures w.Valid()
  {
  }

  lemma PlainText(w: Written, none: Text)
    requires !w.point && w.fraction == [] && none == []
    ensures w.Text() == w.blanks + w.sign + w.whole + none + w.more
  {
  }

  // ---------- A writer ----------

  /** The digits of a number. */
  function Show(n: nat): (s: Text)
    ensures s != [] && Digits(s)
  {
    (if n < 10 then [] else Show(n / 10)) + [48 + n % 10]
  }

  lemma {:induction false} ShowReads(n: nat)
    ensures Natural(Show(n)) == n
  {
    var s := if n < 10 then [] else Show(n / 10);
    assert (s + [48 + n % 10])[..|s|] == s;
    if n >= 10 {
      ShowReads(n / 10);
    }
  }

  function Pointed(a: Text, b: Text, minus: bool): Written {
    Written([], if minus then [45] else [], a, true, b, [])
  }

  lemma PointedIs(a: Text, b: Text, minus: bool)
    requires Digits(a) && Digits(b)
    ensures var w := Pointed(a, b, minus);
      && w.Valid() && w.whole + w.fraction == a + b && Digits(a + b)
      && w.Text() == (if minus then [45] else []) + a + [46] + b
      && w.Value() == (var m := Natural(a + b) as real / Ten(|b|) as real; if minus then -m else m)
  {
    hide Natural, Ten;
  }

  lemma PointBetween(a: Text, b: Text, minus: bool)
    requires Digits(a) && Digits(b)
    ensures Digits(a + b)
    ensures Denote((if minus then [45] else []) + a + [46] + b) ==
            (var m := Natural(a + b) as real / Ten(|b|) as real; if minus then -m else m)
  {
    hide *;
    PointedIs(a, b, minus);
    WrittenDenotes(Pointed(a, b, minus));
  }

  lemma Divided(s: Text, k: nat)
    requires Digits(s) && k <= |s|
    ensures Digits(s[..|s| - k]) && Digits(s[|s| - k..]) && s[..|s| - k] + s[|s| - k..] == s
  {
  }

  /** Every decimal number, `n` over a power of ten, with or without a minus, is what
      the text that shows it denotes: the point is put before the last `k` digits. */
  lemma ShownDenotes(n: nat, k: nat, minus: bool)
    requires k <= |Show(n)|
    ensures var s := Show(n);
      Denote((if minus then [45] else []) + s[..|s| - k] + [46] + s[|s| - k..]) ==
      (var m := n as real / Ten(k) as real; if minus then -m else m)
  {
    var s := Show(n);
    ShowReads(n);
    hide *;
    Divided(s, k);
    PointBetween(s[..|s| - k], s[|s| - k..], minus);
  }
}
