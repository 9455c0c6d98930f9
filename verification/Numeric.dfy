/** `-n` comparison (src/numeric.c): decimals of any length, compared digit by
    digit, against the real numbers that the texts denote. */
module Numeric {
  import opened Bytes

  const ZERO: Byte := 48

  datatype Kind = Blank | Digit | Zero

  predicate Is(b: Byte, k: Kind) {
    match k
    case Blank => b == 32 || b == 9
    case Digit => 48 <= b <= 57
    case Zero => b == ZERO
  }

  predicate AllDigits(s: Text) {
    forall i :: 0 <= i < |s| ==> Is(s[i], Digit)
  }

  predicate HasNonzero(s: Text) {
    exists i :: 0 <= i < |s| && s[i] != ZERO
  }

  // ---------- What a text denotes ----------

  ghost predicate IsRun(t: Text, i: nat, j: nat, k: Kind) {
    && i <= j <= |t|
    && (forall x :: i <= x < j ==> Is(t[x], k))
    && (j < |t| ==> !Is(t[j], k))
  }

  /** End of the longest run of bytes of kind `k` that starts at `i`. */
  function RunEnd(t: Text, i: nat, k: Kind): (j: nat)
    requires i <= |t|
    ensures i <= j <= |t| && IsRun(t, i, j, k)
    decreases |t| - i
  {
    if i < |t| && Is(t[i], k) then RunEnd(t, i + 1, k) else i
  }

  function Pow10(n: nat): (r: nat)
    ensures r >= 1
  {
    if n == 0 then 1 else 10 * Pow10(n - 1)
  }

  /** The number written by a string of digits. */
  function Nat(s: Text): nat
    requires AllDigits(s)
  {
    if s == [] then 0 else 10 * Nat(s[..|s| - 1]) + (s[|s| - 1] as int - 48)
  }

  /** Where an optional sign leaves off. */
  function AfterSign(t: Text, i: nat): (j: nat)
    requires i <= |t|
    ensures i <= j <= |t|
  {
    if i < |t| && (t[i] == 45 || t[i] == 43) then i + 1 else i
  }

  function Minus(t: Text, i: nat): bool {
    i < |t| && t[i] == 45
  }

  /** The digits behind a decimal point at `d`, if there is one. */
  function Fraction(t: Text, d: nat): (f: Text)
    requires d <= |t|
    ensures AllDigits(f)
  {
    if d < |t| && t[d] == 46 then t[d + 1..RunEnd(t, d + 1, Digit)] else []
  }

  ghost function Decimal(whole: Text, frac: Text): real
    requires AllDigits(whole) && AllDigits(frac)
  {
    Nat(whole + frac) as real / Pow10(|frac|) as real
  }

  /** The exact value of the decimal at the start of `t`: blanks, a sign, digits
      and a fraction, where whatever is missing counts as nothing. */
  ghost function Denote(t: Text): real {
    var i := RunEnd(t, 0, Blank);
    var j := AfterSign(t, i);
    var d := RunEnd(t, j, Digit);
    var m := Decimal(t[j..d], Fraction(t, d));
    if Minus(t, i) then -m else m
  }

  // ---------- Parsed values ----------

  datatype Value = Value(negative: bool, whole: Text, frac: Text, nonzero: bool)

  ghost predicate Valid(v: Value) {
    && AllDigits(v.whole) && AllDigits(v.frac)
    && (v.whole != [] ==> v.whole[0] != ZERO)
    && (v.nonzero <==> v.whole != [] || HasNonzero(v.frac))
  }

  ghost function ValueOf(v: Value): real
    requires Valid(v)
  {
    if v.negative then -Decimal(v.whole, v.frac) else Decimal(v.whole, v.frac)
  }

  function Parsed(t: Text): Value {
    var i := RunEnd(t, 0, Blank);
    var z := RunEnd(t, AfterSign(t, i), Zero);
    var d := RunEnd(t, z, Digit);
    Value(Minus(t, i), t[z..d], Fraction(t, d), d > z || HasNonzero(Fraction(t, d)))
  }

  lemma {:induction false} RunEndUnique(t: Text, i: nat, j: nat, k: Kind)
    requires IsRun(t, i, j, k)
    ensures RunEnd(t, i, k) == j
    decreases j - i
  {
    if i < j {
      RunEndUnique(t, i + 1, j, k);
    }
  }

  method SkipRun(t: Text, i: nat, k: Kind) returns (j: nat)
    requires i <= |t|
    ensures j == RunEnd(t, i, k)
  {
    j := i;
    while j < |t| && Is(t[j], k)
      invariant i <= j <= |t|
      invariant forall x :: i <= x < j ==> Is(t[x], k)
    {
      j := j + 1;
    }
    RunEndUnique(t, i, j, k);
  }

  method SkipFraction(t: Text, i: nat) returns (j: nat, nonzero: bool)
    requires i <= |t|
    ensures j == RunEnd(t, i, Digit)
    ensures nonzero <==> HasNonzero(t[i..j])
  {
    hide *;
    j, nonzero := i, false;
    HasNonzeroEmpty(t, i);
    while j < |t| && Is(t[j], Digit)
      invariant i <= j <= |t|
      invariant forall x :: i <= x < j ==> Is(t[x], Digit)
      invariant nonzero <==> HasNonzero(t[i..j])
    {
      HasNonzeroNext(t, i, j);
      if t[j] != ZERO {
        nonzero := true;
      }
      j := j + 1;
    }
    RunIs(t, i, j, Digit);
    RunEndUnique(t, i, j, Digit);
  }

  /** The parser: one pass, leading zeros dropped, non-zero digits noticed. */
  method Parse(t: Text) returns (v: Value)
    ensures v == Parsed(t)
  {
    hide IsRun, HasNonzero, RunEnd, AllDigits;
    var pos := SkipRun(t, 0, Blank);
    var negative := false;
    if pos < |t| && (t[pos] == 45 || t[pos] == 43) {
      negative := t[pos] == 45;
      pos := pos + 1;
    }
    var start := SkipRun(t, pos, Zero);
    pos := SkipRun(t, start, Digit);
    var whole := t[start..pos];
    var nonzero := pos > start;
    var frac: Text := [];
    if pos < |t| && t[pos] == 46 {
      var end, some := SkipFraction(t, pos + 1);
      nonzero := nonzero || some;
      frac := t[pos + 1..end];
    } else {
      HasNonzeroEmpty(t, pos);
      assert t[pos..pos] == frac;
    }
    v := Value(negative, whole, frac, nonzero);
  }

  lemma RunIs(t: Text, i: nat, j: nat, k: Kind)
    requires i <= j <= |t|
    requires forall x :: i <= x < j ==> Is(t[x], k)
    requires j < |t| ==> !Is(t[j], k)
    ensures IsRun(t, i, j, k)
  {
  }

  lemma HasNonzeroEmpty(t: Text, i: nat)
    requires i <= |t|
    ensures !HasNonzero(t[i..i])
  {
  }

  lemma HasNonzeroNext(t: Text, i: nat, j: nat)
    requires i <= j < |t|
    ensures HasNonzero(t[i..j + 1]) <==> HasNonzero(t[i..j]) || t[j] != ZERO
  {
    var s, u := t[i..j], t[i..j + 1];
    assert u == s + [t[j]];
    if HasNonzero(s) {
      var x :| 0 <= x < |s| && s[x] != ZERO;
      assert u[x] != ZERO;
    }
    assert u[|s|] == t[j];
  }

  // ---------- Arithmetic of digit strings ----------

  lemma Shift(x: int, p: int, y: int, d: int)
    ensures 10 * (x * p + y) + d == x * (10 * p) + (10 * y + d)
  {
    assert x * (10 * p) == 10 * (x * p);
  }

  lemma NatLast(a: Text, d: Byte)
    requires AllDigits(a) && Is(d, Digit)
    ensures AllDigits(a + [d]) && Nat(a + [d]) == 10 * Nat(a) + (d as int - 48)
  {
    assert (a + [d])[..|a|] == a;
  }

  lemma {:induction false} NatAppend(a: Text, b: Text)
    requires AllDigits(a) && AllDigits(b)
    ensures Nat(a + b) == Nat(a) * Pow10(|b|) + Nat(b)
  {
    if b == [] {
      assert a + b == a;
    } else {
      var c, d := b[..|b| - 1], b[|b| - 1];
      NatAppend(a, c);
      assert c + [d] == b && (a + c) + [d] == a + b;
      NatLast(a + c, d);
      NatLast(c, d);
      Shift(Nat(a), Pow10(|c|), Nat(c), d as int - 48);
    }
  }

  lemma {:induction false} NatBound(a: Text)
    requires AllDigits(a)
    ensures Nat(a) < Pow10(|a|)
  {
    if a != [] {
      NatBound(a[..|a| - 1]);
    }
  }

  lemma {:induction false} Pow10Monotone(m: nat, n: nat)
    requires m <= n
    ensures Pow10(m) <= Pow10(n)
  {
    if m < n {
      Pow10Monotone(m, n - 1);
    }
  }

  function Zeros(n: nat): (z: Text)
    ensures |z| == n && AllDigits(z)
  {
    seq(n, _ => ZERO)
  }

  lemma {:induction false} NatZeros(s: Text)
    requires AllDigits(s)
    ensures Nat(s) == 0 <==> !HasNonzero(s)
  {
    if s != [] {
      var c := s[..|s| - 1];
      NatZeros(c);
      HasNonzeroNext(s, 0, |s| - 1);
      assert s[0..|s| - 1] == c && s[0..|s|] == s;
    }
  }

  lemma {:induction false} Pow10Add(m: nat, n: nat)
    ensures Pow10(m + n) == Pow10(m) * Pow10(n)
  {
    if n > 0 {
      Pow10Add(m, n - 1);
      Shift(Pow10(m), Pow10(n - 1), 0, 0);
    }
  }

  lemma ProductAtLeast(x: int, p: int)
    requires x >= 1 && p >= 0
    ensures x * p >= p
  {
  }

  lemma LeadingDigit(a: Text, i: nat)
    requires AllDigits(a) && i < |a|
    ensures Nat(a[i..]) == (a[i] as int - 48) * Pow10(|a| - i - 1) + Nat(a[i + 1..])
  {
    assert a[i..] == [a[i]] + a[i + 1..];
    NatAppend([a[i]], a[i + 1..]);
    assert [a[i]][..0] == [];
  }

  /** A leading digit other than zero makes the longer string the larger. */
  lemma LongerIsLarger(a: Text, b: Text)
    requires AllDigits(a) && AllDigits(b) && |a| < |b| && b[0] != ZERO
    ensures Nat(a) < Nat(b)
  {
    NatBound(a);
    Pow10Monotone(|a|, |b| - 1);
    LeadingDigit(b, 0);
    assert b[0..] == b;
    ProductAtLeast(b[0] as int - 48, Pow10(|b| - 1));
  }

  // ---------- Comparison ----------

  /** Digit strings of equal length, compared from the left. */
  function CompareDigits(a: Text, b: Text, i: nat): int
    requires |a| == |b| && i <= |a|
    decreases |a| - i
  {
    if i == |a| then 0
    else if a[i] < b[i] then -1
    else if a[i] > b[i] then 1
    else CompareDigits(a, b, i + 1)
  }

  function DigitAt(s: Text, i: nat): Byte {
    if i < |s| then s[i] else ZERO
  }

  function Padded(s: Text, n: nat): (r: Text)
    requires |s| <= n
    ensures |r| == n
    ensures forall i :: 0 <= i < n ==> r[i] == DigitAt(s, i)
  {
    s + Zeros(n - |s|)
  }

  function Longer(a: Text, b: Text): nat {
    if |a| > |b| then |a| else |b|
  }

  function CompareMagnitude(a: Value, b: Value): int {
    if |a.whole| < |b.whole| then -1
    else if |a.whole| > |b.whole| then 1
    else
      var w := CompareDigits(a.whole, b.whole, 0);
      if w != 0 then w
      else
        var n := Longer(a.frac, b.frac);
        CompareDigits(Padded(a.frac, n), Padded(b.frac, n), 0)
  }

  function CompareValues(a: Value, b: Value): int {
    if !a.nonzero && !b.nonzero then 0
    else if a.negative != b.negative then (if a.negative then -1 else 1)
    else if a.negative then -CompareMagnitude(a, b)
    else CompareMagnitude(a, b)
  }

  /** The loops of the magnitude comparison: the fractions are compared digit by
      digit, the shorter one read as if zeros followed it. */
  method MagnitudeCompare(a: Value, b: Value) returns (result: int)
    ensures result == CompareMagnitude(a, b)
  {
    if |a.whole| < |b.whole| {
      return -1;
    }
    if |a.whole| > |b.whole| {
      return 1;
    }
    var i := 0;
    while i < |a.whole|
      invariant 0 <= i <= |a.whole|
      invariant CompareDigits(a.whole, b.whole, 0) == CompareDigits(a.whole, b.whole, i)
    {
      if a.whole[i] < b.whole[i] {
        return -1;
      }
      if a.whole[i] > b.whole[i] {
        return 1;
      }
      i := i + 1;
    }
    var n := Longer(a.frac, b.frac);
    ghost var p, q := Padded(a.frac, n), Padded(b.frac, n);
    i := 0;
    while i < n
      invariant 0 <= i <= n
      invariant CompareDigits(p, q, 0) == CompareDigits(p, q, i)
    {
      var x, y := DigitAt(a.frac, i), DigitAt(b.frac, i);
      if x < y {
        return -1;
      }
      if x > y {
        return 1;
      }
      i := i + 1;
    }
    result := 0;
  }

  method NumericCompare(a: Text, b: Text) returns (result: int)
    ensures result == Sign(Denote(a) - Denote(b))
  {
    var x := Parse(a);
    var y := Parse(b);
    ComparisonIsExact(a, b);
    if !x.nonzero && !y.nonzero {
      return 0;
    }
    if x.negative != y.negative {
      return if x.negative then -1 else 1;
    }
    result := MagnitudeCompare(x, y);
    if x.negative {
      result := -result;
    }
  }

  // ---------- Exactness ----------

  function Sign(r: real): int {
    if r < 0.0 then -1 else if r > 0.0 then 1 else 0
  }

  function SignOf(n: int): int {
    if n < 0 then -1 else if n > 0 then 1 else 0
  }

  lemma DigitDominates(x: int, y: int, r: int, s: int, p: int)
    requires 0 <= r < p && 0 <= s < p
    ensures x < y ==> x * p + r < y * p + s
    ensures x > y ==> x * p + r > y * p + s
  {
    if x < y {
      ProductAtLeast(y - x, p);
    } else if x > y {
      ProductAtLeast(x - y, p);
    }
  }

  lemma {:induction false} CompareDigitsExact(a: Text, b: Text, i: nat)
    requires AllDigits(a) && AllDigits(b) && |a| == |b| && i <= |a|
    ensures CompareDigits(a, b, i) == SignOf(Nat(a[i..]) - Nat(b[i..]))
    decreases |a| - i
  {
    hide Pow10;
    if i < |a| {
      CompareDigitsExact(a, b, i + 1);
      LeadingDigit(a, i);
      LeadingDigit(b, i);
      NatBound(a[i + 1..]);
      NatBound(b[i + 1..]);
      DigitDominates(a[i] as int - 48, b[i] as int - 48, Nat(a[i + 1..]), Nat(b[i + 1..]), Pow10(|a| - i - 1));
    }
  }

  lemma {:induction false} CompareDigitsAppend(a: Text, b: Text, c: Text, d: Text, i: nat)
    requires |a| == |b| && |c| == |d| && i <= |a|
    ensures CompareDigits(a + c, b + d, i) ==
            (if CompareDigits(a, b, i) != 0 then CompareDigits(a, b, i) else CompareDigits(c, d, 0))
    decreases |a| - i
  {
    if i < |a| {
      CompareDigitsAppend(a, b, c, d, i + 1);
    } else {
      CompareDigitsShift(a, b, c, d, 0);
    }
  }

  lemma {:induction false} CompareDigitsShift(a: Text, b: Text, c: Text, d: Text, i: nat)
    requires |a| == |b| && |c| == |d| && i <= |c|
    ensures CompareDigits(a + c, b + d, |a| + i) == CompareDigits(c, d, i)
    decreases |c| - i
  {
    if i < |c| {
      CompareDigitsShift(a, b, c, d, i + 1);
    }
  }

  lemma Scale(m: real, p: real, k: real)
    requires p > 0.0 && k > 0.0
    ensures p * k != 0.0 && (m * k) / (p * k) == m / p
  {
  }

  lemma ScaleNat(m: int, p: int, k: int)
    requires p >= 1 && k >= 1
    ensures p * k >= 1
    ensures (m * k) as real / (p * k) as real == m as real / p as real
  {
    ProductAtLeast(p, k);
    Scale(m as real, p as real, k as real);
    assert (m * k) as real == m as real * k as real;
    assert (p * k) as real == p as real * k as real;
  }

  lemma NatPadded(s: Text, k: nat)
    requires AllDigits(s)
    ensures AllDigits(s + Zeros(k)) && Nat(s + Zeros(k)) == Nat(s) * Pow10(k)
  {
    NatAppend(s, Zeros(k));
    NatZeros(Zeros(k));
  }

  lemma DecimalIs(whole: Text, frac: Text)
    requires AllDigits(whole) && AllDigits(frac)
    ensures AllDigits(whole + frac)
    ensures Decimal(whole, frac) == Nat(whole + frac) as real / Pow10(|frac|) as real
  {
  }

  lemma PaddedIs(whole: Text, frac: Text, n: nat)
    requires AllDigits(frac) && |frac| <= n
    ensures AllDigits(Padded(frac, n))
    ensures whole + Padded(frac, n) == (whole + frac) + Zeros(n - |frac|)
  {
  }

  /** Zeros behind the last fraction digit do not change the number. */
  lemma PaddingKeepsDecimal(whole: Text, frac: Text, n: nat)
    requires AllDigits(whole) && AllDigits(frac) && |frac| <= n
    ensures AllDigits(Padded(frac, n))
    ensures Decimal(whole, Padded(frac, n)) == Decimal(whole, frac)
  {
    hide *;
    var k := n - |frac|;
    PaddedIs(whole, frac, n);
    DecimalIs(whole, frac);
    DecimalIs(whole, Padded(frac, n));
    NatPadded(whole + frac, k);
    Pow10Add(|frac|, k);
    ScaleNat(Nat(whole + frac), Pow10(|frac|), Pow10(k));
  }

  lemma DivideSign(m: int, n: int, p: int)
    requires p >= 1
    ensures Sign(m as real / p as real - n as real / p as real) == SignOf(m - n)
  {
    assert m as real / p as real - n as real / p as real == (m - n) as real / p as real;
  }

  lemma AlignedLonger(a: Text, p: Text, b: Text, q: Text)
    requires AllDigits(a) && AllDigits(p) && AllDigits(b) && AllDigits(q) && |p| == |q|
    requires b != [] && b[0] != ZERO && |a| < |b|
    ensures AllDigits(a + p) && AllDigits(b + q)
    ensures Nat(a + p) < Nat(b + q)
  {
    hide *;
    DigitsAppend(a, p);
    DigitsAppend(b, q);
    assert (b + q)[0] == b[0];
    LongerIsLarger(a + p, b + q);
  }

  lemma AlignedSame(a: Text, p: Text, b: Text, q: Text)
    requires AllDigits(a) && AllDigits(p) && AllDigits(b) && AllDigits(q) && |p| == |q| && |a| == |b|
    ensures SignOf(Nat(a + p) - Nat(b + q)) == if CompareDigits(a, b, 0) != 0 then CompareDigits(a, b, 0) else CompareDigits(p, q, 0)
  {
    hide *;
    CompareDigitsAppend(a, b, p, q, 0);
    WholeSum(a, p, b, q);
  }

  lemma WholeSum(a: Text, p: Text, b: Text, q: Text)
    requires AllDigits(a) && AllDigits(p) && AllDigits(b) && AllDigits(q) && |p| == |q| && |a| == |b|
    ensures CompareDigits(a + p, b + q, 0) == SignOf(Nat(a + p) - Nat(b + q))
  {
    hide *;
    DigitsAppend(a, p);
    DigitsAppend(b, q);
    WholeDigits(a + p, b + q);
  }

  lemma WholeDigits(x: Text, y: Text)
    requires AllDigits(x) && AllDigits(y) && |x| == |y|
    ensures CompareDigits(x, y, 0) == SignOf(Nat(x) - Nat(y))
  {
    hide *;
    CompareDigitsExact(x, y, 0);
    assert x[0..] == x && y[0..] == y;
  }

  lemma AlignedSigns(a: Text, p: Text, b: Text, q: Text, m: int, n: int)
    requires AllDigits(a) && AllDigits(p) && AllDigits(b) && AllDigits(q) && |p| == |q|
    requires b != [] && b[0] != ZERO && |a| < |b|
    requires AllDigits(a + p) && AllDigits(b + q) && m == Nat(a + p) && n == Nat(b + q)
    ensures SignOf(m - n) == SignOf(|a| - |b|) && SignOf(n - m) == SignOf(|b| - |a|)
  {
    hide *;
    AlignedLonger(a, p, b, q);
    SignsAgree(m, n, |a|, |b|);
  }

  /** Numbers with aligned fractions compare as their digits do. */
  lemma CompareAligned(a: Text, p: Text, b: Text, q: Text)
    requires AllDigits(a) && AllDigits(p) && AllDigits(b) && AllDigits(q) && |p| == |q|
    requires (a != [] ==> a[0] != ZERO) && (b != [] ==> b[0] != ZERO)
    ensures SignOf(Nat(a + p) - Nat(b + q)) ==
            (if |a| != |b| then SignOf(|a| - |b|)
             else if CompareDigits(a, b, 0) != 0 then CompareDigits(a, b, 0)
             else CompareDigits(p, q, 0))
  {
    hide *;
    DigitsAppend(a, p);
    DigitsAppend(b, q);
    var m, n := Nat(a + p), Nat(b + q);
    if |a| < |b| {
      AlignedSigns(a, p, b, q, m, n);
    } else if |a| > |b| {
      AlignedSigns(b, q, a, p, n, m);
    } else {
      AlignedSame(a, p, b, q);
    }
  }

  lemma DigitsAppend(a: Text, p: Text)
    requires AllDigits(a) && AllDigits(p)
    ensures AllDigits(a + p)
  {
  }

  lemma SignsAgree(m: int, n: int, x: int, y: int)
    requires m < n && x < y
    ensures SignOf(m - n) == SignOf(x - y) && SignOf(n - m) == SignOf(y - x)
  {
  }

  lemma CompareMagnitudeIs(a: Value, b: Value)
    requires AllDigits(a.frac) && AllDigits(b.frac)
    ensures CompareMagnitude(a, b) ==
            (if |a.whole| != |b.whole| then SignOf(|a.whole| - |b.whole|)
             else if CompareDigits(a.whole, b.whole, 0) != 0 then CompareDigits(a.whole, b.whole, 0)
             else CompareDigits(Padded(a.frac, Longer(a.frac, b.frac)), Padded(b.frac, Longer(a.frac, b.frac)), 0))
  {
  }

  lemma ValidFrom(v: Value)
    requires Valid(v)
    ensures AllDigits(v.whole) && AllDigits(v.frac) && (v.whole != [] ==> v.whole[0] != ZERO)
  {
  }

  lemma LongerBounds(a: Text, b: Text)
    ensures |a| <= Longer(a, b) && |b| <= Longer(a, b)
  {
  }

  lemma CompareMagnitudeExact(a: Value, b: Value)
    requires Valid(a) && Valid(b)
    ensures AllDigits(a.whole) && AllDigits(a.frac) && AllDigits(b.whole) && AllDigits(b.frac)
    ensures CompareMagnitude(a, b) == Sign(Decimal(a.whole, a.frac) - Decimal(b.whole, b.frac))
  {
    hide *;
    ValidFrom(a);
    ValidFrom(b);
    LongerBounds(a.frac, b.frac);
    var n := Longer(a.frac, b.frac);
    PaddingKeepsDecimal(a.whole, a.frac, n);
    PaddingKeepsDecimal(b.whole, b.frac, n);
    var p, q := Padded(a.frac, n), Padded(b.frac, n);
    DecimalIs(a.whole, p);
    DecimalIs(b.whole, q);
    DivideSign(Nat(a.whole + p), Nat(b.whole + q), Pow10(n));
    CompareAligned(a.whole, p, b.whole, q);
    CompareMagnitudeIs(a, b);
  }

  lemma Quotient(m: int, p: int)
    requires p >= 1 && m >= 0
    ensures m as real / p as real >= 0.0
    ensures m as real / p as real == 0.0 <==> m == 0
  {
    if m > 0 {
      assert m as real / p as real > 0.0;
    }
  }

  lemma NonzeroMeansPositive(v: Value)
    requires Valid(v)
    ensures Decimal(v.whole, v.frac) >= 0.0
    ensures Decimal(v.whole, v.frac) == 0.0 <==> !v.nonzero
  {
    var s := v.whole + v.frac;
    NatZeros(s);
    Quotient(Nat(s), Pow10(|v.frac|));
    if v.whole != [] {
      assert s[0] != ZERO;
    } else {
      assert s == v.frac;
    }
  }

  /** Comparing parsed values orders the numbers they stand for; two zeros are
      equal whatever their signs. */
  lemma CompareValuesExact(a: Value, b: Value)
    requires Valid(a) && Valid(b)
    ensures CompareValues(a, b) == Sign(ValueOf(a) - ValueOf(b))
  {
    NonzeroMeansPositive(a);
    NonzeroMeansPositive(b);
    CompareMagnitudeExact(a, b);
  }

  /** Dropping leading zeros keeps the number. */
  lemma LeadingZeros(z: Text, whole: Text, frac: Text)
    requires AllDigits(z) && AllDigits(whole) && AllDigits(frac) && !HasNonzero(z)
    ensures Decimal(z + whole, frac) == Decimal(whole, frac)
  {
    NatZeros(z);
    assert (z + whole) + frac == z + (whole + frac);
    NatAppend(z, whole + frac);
  }

  lemma RunDigits(t: Text, i: nat, j: nat, k: Kind)
    requires i <= j <= |t| && IsRun(t, i, j, k)
    ensures k == Digit ==> AllDigits(t[i..j])
    ensures k == Zero ==> AllDigits(t[i..j]) && !HasNonzero(t[i..j])
  {
  }

  lemma ZerosThenDigits(t: Text, j: nat, z: nat, d: nat)
    requires j <= z <= d <= |t| && IsRun(t, j, z, Zero) && IsRun(t, z, d, Digit)
    ensures RunEnd(t, j, Digit) == d
    ensures t[j..d] == t[j..z] + t[z..d]
  {
    assert forall x :: j <= x < d ==> (x < z ==> Is(t[x], Zero)) && Is(t[x], Digit);
    RunEndUnique(t, j, d, Digit);
  }

  lemma WholeStarts(t: Text, z: nat, d: nat, j: nat)
    requires j <= z <= d <= |t| && IsRun(t, j, z, Zero)
    ensures t[z..d] != [] ==> t[z..d][0] != ZERO
  {
  }

  /** The parser keeps the number that the text denotes. */
  lemma ParsedDenotes(t: Text)
    ensures Valid(Parsed(t)) && ValueOf(Parsed(t)) == Denote(t)
  {
    var j := AfterSign(t, RunEnd(t, 0, Blank));
    var z := RunEnd(t, j, Zero);
    var d := RunEnd(t, z, Digit);
    hide IsRun, RunEnd, AllDigits, HasNonzero, Nat, Pow10, Decimal;
    RunDigits(t, j, z, Zero);
    RunDigits(t, z, d, Digit);
    ZerosThenDigits(t, j, z, d);
    WholeStarts(t, z, d, j);
    LeadingZeros(t[j..z], t[z..d], Fraction(t, d));
  }

  /** The numeric order is exact on all byte strings. */
  lemma ComparisonIsExact(a: Text, b: Text)
    ensures CompareValues(Parsed(a), Parsed(b)) == Sign(Denote(a) - Denote(b))
  {
    ParsedDenotes(a);
    ParsedDenotes(b);
    CompareValuesExact(Parsed(a), Parsed(b));
  }
}
