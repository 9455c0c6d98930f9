/** `-V` comparison (src/numeric.c): the order of file versions, with the name
    taken apart into weights of non-digits and numbers, and the file suffix set
    aside on the first pass. */
module Version {
  import opened Bytes
  import opened Orders
  import opened Numeric

  const DOT: Byte := 46
  const TILDE: Byte := 126

  predicate IsAlpha(b: Byte) {
    65 <= b <= 90 || 97 <= b <= 122
  }

  predicate IsAlnum(b: Byte) {
    IsAlpha(b) || Is(b, Digit)
  }

  // ---------- What a name is worth ----------

  /** Place of a byte that is not a digit: tilde below the end of a name, the end
      below letters, letters below everything else. */
  function Weight(b: Byte): (w: int)
    requires !Is(b, Digit)
    ensures w == -2 || 65 <= w < 512
  {
    if IsAlpha(b) then b as int else if b == TILDE then -2 else b as int + 256
  }

  lemma WeightInjective(b: Byte, d: Byte)
    requires !Is(b, Digit) && !Is(d, Digit)
    ensures Weight(b) == Weight(d) <==> b == d
  {
  }

  /** End of the run of digits from `i`. */
  function DigitsEnd(t: Text, i: nat): (j: nat)
    requires i <= |t|
    ensures i <= j <= |t|
    ensures AllDigits(t[i..j])
    ensures j < |t| ==> !Is(t[j], Digit)
    ensures i < |t| && Is(t[i], Digit) ==> j > i
  {
    RunDigits(t, i, RunEnd(t, i, Digit), Digit);
    RunEnd(t, i, Digit)
  }

  /** The name as numbers: the weights of a run of non-digits, 0, the value of
      the digits that follow, and so on. */
  function Rank(t: Text, i: nat): seq<int>
    requires i <= |t|
    decreases |t| - i
  {
    if i == |t| then []
    else if Is(t[i], Digit) then [0, Nat(t[i..DigitsEnd(t, i)])] + Rank(t, DigitsEnd(t, i))
    else [Weight(t[i])] + Rank(t, i + 1)
  }

  function At(s: seq<int>, i: nat): int {
    if i < |s| then s[i] else 0
  }

  /** Lexicographic order, with zeros for what is missing: a name that ends is
      followed by no weight and the number 0. */
  function CompareRanks(x: seq<int>, y: seq<int>): int
    decreases |x| + |y|
  {
    if x == [] && y == [] then 0
    else if At(x, 0) < At(y, 0) then -1
    else if At(x, 0) > At(y, 0) then 1
    else CompareRanks(Tail(x), Tail(y))
  }

  function Tail(x: seq<int>): (r: seq<int>)
    ensures |r| == if x == [] then 0 else |x| - 1
  {
    if x == [] then [] else x[1..]
  }

  lemma {:induction false} CompareRanksAntisymmetric(x: seq<int>, y: seq<int>)
    ensures CompareRanks(x, y) == -CompareRanks(y, x)
    decreases |x| + |y|
  {
    if x != [] || y != [] {
      CompareRanksAntisymmetric(Tail(x), Tail(y));
    }
  }

  lemma {:induction false} CompareRanksTransitive(x: seq<int>, y: seq<int>, z: seq<int>)
    requires CompareRanks(x, y) <= 0 && CompareRanks(y, z) <= 0
    ensures CompareRanks(x, z) <= 0
    decreases |x| + |y| + |z|
  {
    if x != [] || y != [] || z != [] {
      if At(x, 0) == At(y, 0) == At(z, 0) {
        CompareRanksTransitive(Tail(x), Tail(y), Tail(z));
      }
    }
  }

  lemma CompareRanksStep(x: seq<int>, y: seq<int>)
    ensures At(x, 0) < At(y, 0) ==> CompareRanks(x, y) == -1
    ensures At(x, 0) > At(y, 0) ==> CompareRanks(x, y) == 1
    ensures At(x, 0) == At(y, 0) ==> CompareRanks(x, y) == CompareRanks(Tail(x), Tail(y))
  {
  }

  // ---------- The two-cursor comparison ----------

  function Order(t: Text, i: nat): int
    requires i <= |t|
  {
    if i == |t| then -1 else if Is(t[i], Digit) then 0 else Weight(t[i])
  }

  predicate AtNonDigit(t: Text, i: nat)
    requires i <= |t|
  {
    i < |t| && !Is(t[i], Digit)
  }

  predicate AtDigit(t: Text, i: nat)
    requires i <= |t|
  {
    i < |t| && Is(t[i], Digit)
  }

  /** What the order of the bytes at the cursors decides, when one of them is not
      a digit.  Equal orders force equal bytes, so both cursors can move on. */
  lemma NonDigitStep(a: Text, ai: nat, b: Text, bi: nat)
    requires ai <= |a| && bi <= |b| && (AtNonDigit(a, ai) || AtNonDigit(b, bi))
    ensures Order(a, ai) != Order(b, bi) ==>
            CompareRanks(Rank(a, ai), Rank(b, bi)) == SignOf(Order(a, ai) - Order(b, bi))
    ensures Order(a, ai) == Order(b, bi) ==> ai < |a| && bi < |b| && a[ai] == b[bi]
    ensures Order(a, ai) == Order(b, bi) ==>
            CompareRanks(Rank(a, ai), Rank(b, bi)) == CompareRanks(Rank(a, ai + 1), Rank(b, bi + 1))
  {
    CompareRanksStep(Rank(a, ai), Rank(b, bi));
    if AtNonDigit(a, ai) && AtNonDigit(b, bi) {
      WeightInjective(a[ai], b[bi]);
    }
  }

  /** Value of the digits at a cursor; none count as zero. */
  function NumberAt(t: Text, i: nat): nat
    requires i <= |t|
  {
    Nat(t[i..DigitsEnd(t, i)])
  }

  lemma RankAfterNumber(t: Text, i: nat)
    requires i <= |t| && !AtNonDigit(t, i)
    ensures At(Rank(t, i), 0) == 0
    ensures At(Tail(Rank(t, i)), 0) == NumberAt(t, i)
    ensures Tail(Tail(Rank(t, i))) == Rank(t, DigitsEnd(t, i))
  {
  }

  lemma NumberStep(a: Text, ai: nat, b: Text, bi: nat)
    requires ai <= |a| && bi <= |b| && !AtNonDigit(a, ai) && !AtNonDigit(b, bi)
    ensures CompareRanks(Rank(a, ai), Rank(b, bi)) ==
            (if NumberAt(a, ai) != NumberAt(b, bi) then SignOf(NumberAt(a, ai) - NumberAt(b, bi))
             else CompareRanks(Rank(a, DigitsEnd(a, ai)), Rank(b, DigitsEnd(b, bi))))
  {
    RankAfterNumber(a, ai);
    RankAfterNumber(b, bi);
    hide Rank, NumberAt;
    CompareRanksStep(Rank(a, ai), Rank(b, bi));
    CompareRanksStep(Tail(Rank(a, ai)), Tail(Rank(b, bi)));
  }

  lemma DigitsEndUnique(t: Text, i: nat, j: nat)
    requires i <= j <= |t| && (forall x :: i <= x < j ==> Is(t[x], Digit)) && !AtDigit(t, j)
    ensures DigitsEnd(t, i) == j
  {
    RunEndUnique(t, i, j, Digit);
  }

  /** Zeros in front of a number do not count. */
  lemma {:induction false} SkipZero(t: Text, i: nat, z: nat)
    requires i <= z <= |t| && forall x :: i <= x < z ==> t[x] == ZERO
    ensures NumberAt(t, i) == NumberAt(t, z) && DigitsEnd(t, i) == DigitsEnd(t, z)
  {
    var e := DigitsEnd(t, z);
    forall x | i <= x < e ensures Is(t[x], Digit) {
      if x >= z {
        assert t[z..e][x - z] == t[x];
      }
    }
    DigitsEndUnique(t, i, e);
    assert t[i..e] == t[i..z] + t[z..e];
    NatZeros(t[i..z]);
    NatAppend(t[i..z], t[z..e]);
  }

  method SkipZeros(t: Text, i: nat) returns (z: nat)
    requires i <= |t|
    ensures i <= z <= |t| && (z < |t| ==> t[z] != ZERO)
    ensures NumberAt(t, z) == NumberAt(t, i) && DigitsEnd(t, z) == DigitsEnd(t, i)
    ensures AtNonDigit(t, i) ==> z == i
  {
    z := i;
    while z < |t| && t[z] == ZERO
      invariant i <= z <= |t| && forall x :: i <= x < z ==> t[x] == ZERO
    {
      z := z + 1;
    }
    SkipZero(t, i, z);
  }

  function FirstDifference(a: Text, b: Text, i: nat, n: nat): int
    requires i <= n <= |a| && n <= |b|
    decreases n - i
  {
    if i == n then 0 else if a[i] != b[i] then a[i] as int - b[i] as int else FirstDifference(a, b, i + 1, n)
  }

  lemma {:induction false} FirstDifferenceLast(a: Text, b: Text, i: nat, n: nat)
    requires i <= n < |a| && n < |b|
    ensures FirstDifference(a, b, i, n + 1) ==
            (if FirstDifference(a, b, i, n) != 0 then FirstDifference(a, b, i, n) else a[n] as int - b[n] as int)
    decreases n - i
  {
    if i < n && a[i] == b[i] {
      FirstDifferenceLast(a, b, i + 1, n);
    }
  }

  lemma {:induction false} FirstDifferenceSign(a: Text, b: Text, i: nat)
    requires |a| == |b| && i <= |a|
    ensures SignOf(FirstDifference(a, b, i, |a|)) == CompareDigits(a, b, i)
    decreases |a| - i
  {
    if i < |a| {
      FirstDifferenceSign(a, b, i + 1);
    }
  }

  /** Two digit runs without leading zeros: the longer is the larger, and runs of
      one length are told apart by their first difference. */
  lemma NumbersCompare(x: Text, y: Text, n: nat)
    requires AllDigits(x) && AllDigits(y)
    requires (x != [] ==> x[0] != ZERO) && (y != [] ==> y[0] != ZERO)
    requires n == if |x| < |y| then |x| else |y|
    ensures SignOf(Nat(x) - Nat(y)) == if |x| != |y| then SignOf(|x| - |y|) else SignOf(FirstDifference(x, y, 0, n))
  {
    if |x| < |y| {
      LongerIsLarger(x, y);
    } else if |x| > |y| {
      LongerIsLarger(y, x);
    } else {
      FirstDifferenceSign(x, y, 0);
      CompareDigitsExact(x, y, 0);
      assert x[0..] == x && y[0..] == y;
    }
  }

  lemma RunInside(t: Text, i: nat, k: nat)
    requires i <= |t| && k <= |t[i..DigitsEnd(t, i)]|
    ensures i + k <= DigitsEnd(t, i)
    ensures AtDigit(t, i + k) <==> k < |t[i..DigitsEnd(t, i)]|
    ensures AtDigit(t, i + k) ==> t[i..DigitsEnd(t, i)][k] == t[i + k]
  {
    var run := t[i..DigitsEnd(t, i)];
    if k < |run| {
      assert Is(run[k], Digit);
    }
  }

  /** The digit loop: both runs in step, the first difference remembered. */
  method CompareDigitRuns(a: Text, ai: nat, b: Text, bi: nat) returns (result: int, ae: nat, be: nat)
    requires ai <= |a| && bi <= |b|
    requires (ai < |a| ==> a[ai] != ZERO) && (bi < |b| ==> b[bi] != ZERO)
    ensures SignOf(result) == SignOf(NumberAt(a, ai) - NumberAt(b, bi))
    ensures result == 0 ==> ae == DigitsEnd(a, ai) && be == DigitsEnd(b, bi)
  {
    ghost var x, y := a[ai..DigitsEnd(a, ai)], b[bi..DigitsEnd(b, bi)];
    assert NumberAt(a, ai) == Nat(x) && NumberAt(b, bi) == Nat(y);
    ghost var k: nat := 0;
    hide NumberAt, RunEnd, Nat, FirstDifference;
    ae, be, result := ai, bi, 0;
    RunInside(a, ai, 0);
    RunInside(b, bi, 0);
    FirstDifferenceNone(x, y);
    while ae < |a| && be < |b| && Is(a[ae], Digit) && Is(b[be], Digit)
      invariant k <= |x| && k <= |y| && ae == ai + k <= |a| && be == bi + k <= |b|
      invariant AtDigit(a, ae) <==> k < |x|
      invariant AtDigit(b, be) <==> k < |y|
      invariant result == FirstDifference(x, y, 0, k)
    {
      RunInside(a, ai, k);
      RunInside(b, bi, k);
      FirstDifferenceLast(x, y, 0, k);
      if result == 0 {
        result := a[ae] as int - b[be] as int;
      }
      ae, be, k := ae + 1, be + 1, k + 1;
      RunInside(a, ai, k);
      RunInside(b, bi, k);
    }
    NumbersCompare(x, y, k);
    if ae < |a| && Is(a[ae], Digit) {
      return 1, ae, be;
    }
    if be < |b| && Is(b[be], Digit) {
      return -1, ae, be;
    }
  }

  lemma FirstDifferenceNone(x: Text, y: Text)
    ensures FirstDifference(x, y, 0, 0) == 0
  {
  }

  /** The non-digit loop.  It looks at both cursors, though only one of them need
      be inside its name; neither ever leaves it. */
  method CompareNonDigits(a: Text, ai: nat, b: Text, bi: nat) returns (result: int, ae: nat, be: nat)
    requires ai <= |a| && bi <= |b|
    ensures ai <= ae <= |a| && bi <= be <= |b|
    ensures AtNonDigit(a, ai) ==> result != 0 || ae > ai
    ensures AtNonDigit(b, bi) ==> result != 0 || be > bi
    ensures result != 0 ==> CompareRanks(Rank(a, ai), Rank(b, bi)) == SignOf(result)
    ensures result == 0 ==> !AtNonDigit(a, ae) && !AtNonDigit(b, be)
    ensures result == 0 ==> CompareRanks(Rank(a, ai), Rank(b, bi)) == CompareRanks(Rank(a, ae), Rank(b, be))
  {
    hide CompareRanks, Rank;
    ae, be := ai, bi;
    while AtNonDigit(a, ae) || AtNonDigit(b, be)
      invariant ai <= ae <= |a| && bi <= be <= |b| && (ae > ai <==> be > bi)
      invariant CompareRanks(Rank(a, ai), Rank(b, bi)) == CompareRanks(Rank(a, ae), Rank(b, be))
      decreases |a| - ae
    {
      NonDigitStep(a, ae, b, be);
      var ao, bo := Order(a, ae), Order(b, be);
      if ao != bo {
        return ao - bo, ae, be;
      }
      ae, be := ae + 1, be + 1;
    }
    result := 0;
  }

  /** The whole comparison orders names by their ranks, and its two cursors stay
      inside their names. */
  method ReverseCompare(a: Text, b: Text) returns (result: int)
    ensures SignOf(result) == CompareRanks(Rank(a, 0), Rank(b, 0))
  {
    var ai: nat, bi: nat := 0, 0;
    while ai < |a| || bi < |b|
      invariant ai <= |a| && bi <= |b|
      invariant CompareRanks(Rank(a, 0), Rank(b, 0)) == CompareRanks(Rank(a, ai), Rank(b, bi))
      decreases |a| - ai + |b| - bi
    {
      hide *;
      var ae, be;
      result, ae, be := CompareStep(a, ai, b, bi);
      if result != 0 {
        return;
      }
      ai, bi := ae, be;
    }
    result := 0;
  }

  /** One turn: a run of non-digits and the number behind it, on both sides. */
  method CompareStep(a: Text, ai: nat, b: Text, bi: nat) returns (result: int, ae: nat, be: nat)
    requires ai <= |a| && bi <= |b| && (ai < |a| || bi < |b|)
    ensures result != 0 ==> CompareRanks(Rank(a, ai), Rank(b, bi)) == SignOf(result)
    ensures result == 0 ==> ai <= ae <= |a| && bi <= be <= |b| && (ai < ae || bi < be)
    ensures result == 0 ==> CompareRanks(Rank(a, ai), Rank(b, bi)) == CompareRanks(Rank(a, ae), Rank(b, be))
  {
    hide CompareRanks, Rank, NumberAt, RunEnd, IsRun;
    result, ae, be := CompareNonDigits(a, ai, b, bi);
    if result != 0 {
      return;
    }
    NumberStep(a, ae, b, be);
    var az := SkipZeros(a, ae);
    var bz := SkipZeros(b, be);
    result, ae, be := CompareDigitRuns(a, az, b, bz);
  }

  // ---------- The file suffix ----------

  predicate StartsSuffix(t: Text, i: nat) {
    i + 1 < |t| && t[i] == DOT && (IsAlpha(t[i + 1]) || t[i + 1] == TILDE)
  }

  predicate InSuffix(b: Byte) {
    IsAlnum(b) || b == TILDE
  }

  function BodyEnd(t: Text, i: nat): (j: nat)
    requires i <= |t|
    ensures i <= j <= |t|
    ensures forall x :: i <= x < j ==> InSuffix(t[x])
    decreases |t| - i
  {
    if i < |t| && InSuffix(t[i]) then BodyEnd(t, i + 1) else i
  }

  /** What is left of `t` from `i` is a row of suffixes such as `.tar.gz`. */
  predicate Suffixes(t: Text, i: nat)
    requires i <= |t|
    decreases |t| - i
  {
    i == |t| || (StartsSuffix(t, i) && Suffixes(t, BodyEnd(t, i + 2)))
  }

  function FirstSuffixes(t: Text, i: nat): (p: nat)
    requires i <= |t|
    ensures i <= p <= |t| && Suffixes(t, p)
    ensures forall q :: i <= q < p ==> !Suffixes(t, q)
    decreases |t| - i
  {
    if Suffixes(t, i) then i else FirstSuffixes(t, i + 1)
  }

  /** Length of the name without its suffixes: at least one byte stays. */
  function PrefixLength(t: Text): (p: nat)
    ensures p <= |t|
  {
    if t == [] then 0 else FirstSuffixes(t, 1)
  }

  /** No row of suffixes starts inside a suffix. */
  lemma InsideSuffix(t: Text, i: nat, q: nat)
    requires StartsSuffix(t, i) && i < q < BodyEnd(t, i + 2)
    ensures !Suffixes(t, q)
  {
    assert q == i + 1 || InSuffix(t[q]);
    assert t[q] != DOT;
  }

  /** A row of suffixes that starts between `from` and `to` runs on to the end. */
  ghost predicate NoneBetween(t: Text, from: nat, to: nat)
    requires from <= to <= |t|
  {
    forall q :: from < q < to && Suffixes(t, q) ==> Suffixes(t, to)
  }

  ghost predicate NoneBelow(t: Text, p: nat)
    requires p <= |t|
  {
    forall q :: 1 <= q < p ==> !Suffixes(t, q)
  }

  lemma NextSuffix(t: Text, from: nat, i: nat)
    requires from <= i <= |t| && StartsSuffix(t, i) && NoneBetween(t, from, i)
    requires Suffixes(t, from) <==> Suffixes(t, i)
    ensures NoneBetween(t, from, BodyEnd(t, i + 2))
    ensures Suffixes(t, from) <==> Suffixes(t, BodyEnd(t, i + 2))
  {
    var e := BodyEnd(t, i + 2);
    forall q | from < q < e && Suffixes(t, q) ensures Suffixes(t, e) {
      if q > i {
        InsideSuffix(t, i, q);
      }
    }
  }

  method SkipBody(t: Text, i: nat) returns (j: nat)
    requires i <= |t|
    ensures j == BodyEnd(t, i)
  {
    j := i;
    while j < |t| && InSuffix(t[j])
      invariant i <= j <= |t| && BodyEnd(t, i) == BodyEnd(t, j)
    {
      j := j + 1;
    }
  }

  /** One scan finds the shortest prefix that leaves nothing but suffixes. */
  method FilePrefixLength(t: Text) returns (p: nat)
    ensures p == PrefixLength(t)
  {
    p := 0;
    var i := 0;
    while i < |t|
      invariant p <= i <= |t| && (i == 0 <==> p == 0)
      invariant p > 0 ==> (Suffixes(t, p) <==> Suffixes(t, i)) && NoneBetween(t, p, i) && NoneBelow(t, p)
      invariant p > 0 ==> !StartsSuffix(t, i)
      decreases |t| - i
    {
      assert p > 0 ==> !Suffixes(t, i);
      i := i + 1;
      p := i;
      while StartsSuffix(t, i)
        invariant p <= i <= |t|
        invariant (Suffixes(t, p) <==> Suffixes(t, i)) && NoneBetween(t, p, i)
        decreases |t| - i
      {
        NextSuffix(t, p, i);
        i := SkipBody(t, i + 2);
      }
    }
  }

  // ---------- The version order ----------

  /** Empty names first, then the two directories, other dot files, the rest. */
  function Class(t: Text): nat {
    if t == [] then 0
    else if t[0] != DOT then 4
    else if |t| == 1 then 1
    else if t == [DOT, DOT] then 2
    else 3
  }

  function ByClass(): (Text, Text) -> int {
    (a: Text, b: Text) => SignOf(Class(a) - Class(b))
  }

  function ByPrefix(): (Text, Text) -> int {
    (a: Text, b: Text) => CompareRanks(Rank(a[..PrefixLength(a)], 0), Rank(b[..PrefixLength(b)], 0))
  }

  function ByName(): (Text, Text) -> int {
    (a: Text, b: Text) => CompareRanks(Rank(a, 0), Rank(b, 0))
  }

  /** Class, then the name without its suffixes, then all of it. */
  function VersionOrder(): (Text, Text) -> int {
    Lex(ByClass(), Lex(ByPrefix(), ByName()))
  }

  /** The version order is a total preorder on all byte strings. */
  lemma VersionPreorder()
    ensures TotalPreorder(VersionOrder())
  {
    ClassPreorder();
    PrefixPreorder();
    NamePreorder();
    LexPreorder(ByPrefix(), ByName());
    LexPreorder(ByClass(), Lex(ByPrefix(), ByName()));
  }

  lemma ClassPreorder()
    ensures TotalPreorder(ByClass())
  {
    hide *;
    forall a, b ensures ByClass()(a, b) < 0 <==> ByClass()(b, a) > 0 {
      ClassAt(a, b);
      ClassAt(b, a);
    }
    forall a, b, c | ByClass()(a, b) <= 0 && ByClass()(b, c) <= 0 ensures ByClass()(a, c) <= 0 {
      ClassAt(a, b);
      ClassAt(b, c);
      ClassAt(a, c);
    }
    PreorderFrom(ByClass());
  }

  lemma ClassAt(a: Text, b: Text)
    ensures ByClass()(a, b) < 0 <==> Class(a) < Class(b)
    ensures ByClass()(a, b) > 0 <==> Class(a) > Class(b)
  {
  }

  lemma PrefixPreorder()
    ensures TotalPreorder(ByPrefix())
  {
    hide *;
    forall a, b ensures ByPrefix()(a, b) < 0 <==> ByPrefix()(b, a) > 0 {
      PrefixAt(a, b);
      PrefixAt(b, a);
      CompareRanksAntisymmetric(Rank(a[..PrefixLength(a)], 0), Rank(b[..PrefixLength(b)], 0));
    }
    forall a, b, c | ByPrefix()(a, b) <= 0 && ByPrefix()(b, c) <= 0 ensures ByPrefix()(a, c) <= 0 {
      PrefixAt(a, b);
      PrefixAt(b, c);
      PrefixAt(a, c);
      CompareRanksTransitive(Rank(a[..PrefixLength(a)], 0), Rank(b[..PrefixLength(b)], 0),
                             Rank(c[..PrefixLength(c)], 0));
    }
    PreorderFrom(ByPrefix());
  }

  lemma PrefixAt(a: Text, b: Text)
    ensures ByPrefix()(a, b) == CompareRanks(Rank(a[..PrefixLength(a)], 0), Rank(b[..PrefixLength(b)], 0))
  {
  }

  lemma NamePreorder()
    ensures TotalPreorder(ByName())
  {
    hide *;
    forall a, b ensures ByName()(a, b) < 0 <==> ByName()(b, a) > 0 {
      NameAt(a, b);
      NameAt(b, a);
      CompareRanksAntisymmetric(Rank(a, 0), Rank(b, 0));
    }
    forall a, b, c | ByName()(a, b) <= 0 && ByName()(b, c) <= 0 ensures ByName()(a, c) <= 0 {
      NameAt(a, b);
      NameAt(b, c);
      NameAt(a, c);
      CompareRanksTransitive(Rank(a, 0), Rank(b, 0), Rank(c, 0));
    }
    PreorderFrom(ByName());
  }

  lemma NameAt(a: Text, b: Text)
    ensures ByName()(a, b) == CompareRanks(Rank(a, 0), Rank(b, 0))
  {
  }

  lemma PreorderFrom(c: (Text, Text) -> int)
    requires forall a, b :: c(a, b) < 0 <==> c(b, a) > 0
    requires forall a, b, d :: c(a, b) <= 0 && c(b, d) <= 0 ==> c(a, d) <= 0
    ensures TotalPreorder(c)
  {
  }

  lemma VersionOrderAt(a: Text, b: Text)
    ensures VersionOrder()(a, b) ==
            (if Class(a) != Class(b) then SignOf(Class(a) - Class(b))
             else if ByPrefix()(a, b) != 0 then ByPrefix()(a, b) else ByName()(a, b))
  {
  }

  lemma SameTextAlike(a: Text)
    ensures VersionOrder()(a, a) == 0
  {
    VersionPreorder();
    assert VersionOrder()(a, a) < 0 <==> VersionOrder()(a, a) > 0;
  }

  /** The comparison with its special cases and its two passes. */
  method VersionCompare(a: Text, b: Text) returns (result: int)
    ensures SignOf(result) == VersionOrder()(a, b)
  {
    VersionOrderAt(a, b);
    SameTextAlike(a);
    hide VersionOrder, ByPrefix, ByName;
    if |a| == 0 {
      return if |b| == 0 then 0 else -1;
    }
    if |b| == 0 {
      return 1;
    }
    if a[0] == DOT {
      if b[0] != DOT {
        return -1;
      }
      assert |a| == |b| == 1 ==> a == b;
      assert a == [DOT, DOT] <==> |a| == 2 && a[1] == DOT;
      assert b == [DOT, DOT] <==> |b| == 2 && b[1] == DOT;
      if |a| == 1 {
        return if |b| == 1 then 0 else -1;
      }
      if |b| == 1 {
        return 1;
      }
      if |a| == 2 && a[1] == DOT {
        return if |b| == 2 && b[1] == DOT then 0 else -1;
      }
      if |b| == 2 && b[1] == DOT {
        return 1;
      }
    } else if b[0] == DOT {
      return 1;
    }
    result := ComparePasses(a, b);
  }

  method ComparePasses(a: Text, b: Text) returns (result: int)
    ensures SignOf(result) == if ByPrefix()(a, b) != 0 then ByPrefix()(a, b) else ByName()(a, b)
  {
    var p := FilePrefixLength(a);
    var q := FilePrefixLength(b);
    PrefixAt(a, b);
    NameAt(a, b);
    assert p == |a| ==> a[..p] == a;
    assert q == |b| ==> b[..q] == b;
    hide ByPrefix, ByName, CompareRanks, Rank;
    result := ReverseCompare(a[..p], b[..q]);
    if result != 0 || (p == |a| && q == |b|) {
      return;
    }
    result := ReverseCompare(a, b);
  }
}
