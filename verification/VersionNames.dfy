/** How names compare under `-V`, told by their bytes: what a first difference
    decides, and what a file suffix is. */
module VersionNames {
  import opened Bytes
  import opened Numeric
  import opened Version

  // ---------- Behind a common beginning ----------

  /** `x` does not go on with the number that the text before it may end in. */
  predicate Fresh(x: Text) {
    x == [] || !(48 <= x[0] <= 57)
  }

  predicate Letter(b: int) {
    65 <= b <= 90 || 97 <= b <= 122
  }

  lemma DigitsEndAppend(t: Text, x: Text, i: nat)
    requires i <= |t| && Fresh(x)
    ensures DigitsEnd(t + x, i) == DigitsEnd(t, i)
    ensures (t + x)[i..DigitsEnd(t, i)] == t[i..DigitsEnd(t, i)]
  {
    var j, r := DigitsEnd(t, i), t + x;
    forall k | i <= k < j ensures Is(r[k], Digit) {
      assert t[i..j][k - i] == t[k];
    }
    DigitsEndUnique(r, i, j);
  }

  lemma RankStep(t: Text, x: Text, i: nat)
    requires i < |t| && Fresh(x)
    ensures !Is(t[i], Digit) ==>
      Rank(t, i) == [Weight(t[i])] + Rank(t, i + 1) && Rank(t + x, i) == [Weight(t[i])] + Rank(t + x, i + 1)
    ensures Is(t[i], Digit) ==>
      var j, m := DigitsEnd(t, i), Nat(t[i..DigitsEnd(t, i)]);
      i < j && Rank(t, i) == [0, m] + Rank(t, j) && Rank(t + x, i) == [0, m] + Rank(t + x, j)
  {
    hide Fresh, Weight;
    assert (t + x)[i] == t[i];
    if Is(t[i], Digit) {
      DigitsEndAppend(t, x, i);
    }
  }

  lemma {:induction false} RankAppend(t: Text, x: Text, i: nat)
    requires i <= |t| && Fresh(x)
    ensures Rank(t + x, i) == Rank(t, i) + Rank(x, 0)
    decreases |t| - i
  {
    if i == |t| {
      RankShift(t, x, 0);
    } else {
      hide *;
      RankStep(t, x, i);
      var j := if Is(t[i], Digit) then DigitsEnd(t, i) else i + 1;
      RankAppend(t, x, j);
      var w := if Is(t[i], Digit) then [0, Nat(t[i..j])] else [Weight(t[i])];
      Regroup(w, Rank(t, j), Rank(x, 0));
    }
  }

  lemma DigitsEndShift(t: Text, x: Text, i: nat)
    requires i <= |x|
    ensures DigitsEnd(t + x, |t| + i) == |t| + DigitsEnd(x, i)
    ensures (t + x)[|t| + i..|t| + DigitsEnd(x, i)] == x[i..DigitsEnd(x, i)]
  {
    var j, r := DigitsEnd(x, i), t + x;
    forall k | |t| + i <= k < |t| + j ensures Is(r[k], Digit) {
      assert x[i..j][k - |t| - i] == x[k - |t|];
    }
    DigitsEndUnique(r, |t| + i, |t| + j);
  }

  lemma ShiftStep(t: Text, x: Text, i: nat)
    requires i < |x|
    ensures !Is(x[i], Digit) ==>
      Rank(x, i) == [Weight(x[i])] + Rank(x, i + 1) && Rank(t + x, |t| + i) == [Weight(x[i])] + Rank(t + x, |t| + (i + 1))
    ensures Is(x[i], Digit) ==>
      var j, m := DigitsEnd(x, i), Nat(x[i..DigitsEnd(x, i)]);
      i < j && Rank(x, i) == [0, m] + Rank(x, j) && Rank(t + x, |t| + i) == [0, m] + Rank(t + x, |t| + j)
  {
    hide Weight;
    assert (t + x)[|t| + i] == x[i];
    if Is(x[i], Digit) {
      DigitsEndShift(t, x, i);
    }
  }

  lemma NothingRanked(t: Text)
    ensures Rank(t, |t|) == []
  {
  }

  lemma {:induction false} RankShift(t: Text, x: Text, i: nat)
    requires i <= |x|
    ensures Rank(t + x, |t| + i) == Rank(x, i)
    decreases |x| - i
  {
    hide *;
    if i < |x| {
      ShiftStep(t, x, i);
      RankShift(t, x, if Is(x[i], Digit) then DigitsEnd(x, i) else i + 1);
    } else {
      NothingRanked(x);
      NothingRanked(t + x);
    }
  }

  lemma {:induction false} CompareBehind(r: seq<int>, x: seq<int>, y: seq<int>)
    ensures CompareRanks(r + x, r + y) == CompareRanks(x, y)
  {
    if r == [] {
      assert r + x == x && r + y == y;
    } else {
      CompareBehind(r[1..], x, y);
      assert Tail(r + x) == r[1..] + x && Tail(r + y) == r[1..] + y;
      CompareRanksStep(r + x, r + y);
    }
  }

  /** What two names have in common at the beginning does not count. */
  lemma CommonBeginning(t: Text, x: Text, y: Text)
    requires Fresh(x) && Fresh(y)
    ensures ByName()(t + x, t + y) == CompareRanks(Rank(x, 0), Rank(y, 0))
  {
    RankAppend(t, x, 0);
    RankAppend(t, y, 0);
    hide Rank, CompareRanks;
    CompareBehind(Rank(t, 0), Rank(x, 0), Rank(y, 0));
  }

  // ---------- What a first difference decides ----------

  /** A name that goes on comes later, unless it goes on with a tilde. */
  lemma LongerName(t: Text, b: Byte, x: Text)
    requires !(48 <= b <= 57)
    ensures ByName()(t + [b] + x, t) < 0 <==> b == 126
    ensures ByName()(t + [b] + x, t) > 0 <==> b != 126
  {
    assert t + [b] + x == t + ([b] + x) && t + [] == t;
    CommonBeginning(t, [b] + x, []);
    CompareRanksStep(Rank([b] + x, 0), Rank([], 0));
  }

  /** Two different bytes, neither a digit: a tilde comes first, then the letters,
      then the rest, letters and the rest each by their bytes. */
  lemma DifferentBytes(t: Text, a: Byte, x: Text, b: Byte, y: Text)
    requires !(48 <= a <= 57) && !(48 <= b <= 57) && a != b
    ensures ByName()(t + [a] + x, t + [b] + y) < 0 <==>
      a == 126 || (b != 126 && (if Letter(a) <==> Letter(b) then a < b else Letter(a)))
    ensures ByName()(t + [a] + x, t + [b] + y) != 0
  {
    assert t + [a] + x == t + ([a] + x) && t + [b] + y == t + ([b] + y);
    CommonBeginning(t, [a] + x, [b] + y);
    CompareRanksStep(Rank([a] + x, 0), Rank([b] + y, 0));
  }

  /** `t` does not end in a digit. */
  predicate EndsFresh(t: Text) {
    t == [] || !(48 <= t[|t| - 1] <= 57)
  }

  lemma RankBefore(t: Text, x: Text)
    requires EndsFresh(t)
    ensures Rank(t + x, 0) == Rank(t, 0) + Rank(x, 0)
  {
    RankFrom(t, x, 0);
  }

  lemma DigitsEndBefore(t: Text, x: Text, i: nat)
    requires i < |t| && EndsFresh(t)
    ensures DigitsEnd(t, i) < |t|
    ensures DigitsEnd(t + x, i) == DigitsEnd(t, i)
    ensures (t + x)[i..DigitsEnd(t, i)] == t[i..DigitsEnd(t, i)]
  {
    var j, r := DigitsEnd(t, i), t + x;
    LastOfRun(t, i);
    forall k | i <= k < j ensures Is(r[k], Digit) {
      assert t[i..j][k - i] == t[k];
    }
    DigitsEndUnique(r, i, j);
  }

  lemma LastOfRun(t: Text, i: nat)
    requires i <= |t|
    ensures DigitsEnd(t, i) > i ==> Is(t[DigitsEnd(t, i) - 1], Digit)
  {
    var j := DigitsEnd(t, i);
    if j > i {
      assert t[i..j][j - 1 - i] == t[j - 1];
    }
  }

  lemma RankNext(t: Text, x: Text, i: nat)
    requires i < |t| && EndsFresh(t)
    ensures !Is(t[i], Digit) ==>
      Rank(t, i) == [Weight(t[i])] + Rank(t, i + 1) && Rank(t + x, i) == [Weight(t[i])] + Rank(t + x, i + 1)
    ensures Is(t[i], Digit) ==>
      var j, m := DigitsEnd(t, i), Nat(t[i..DigitsEnd(t, i)]);
      i < j < |t| && Rank(t, i) == [0, m] + Rank(t, j) && Rank(t + x, i) == [0, m] + Rank(t + x, j)
  {
    hide EndsFresh, Weight;
    assert (t + x)[i] == t[i];
    if Is(t[i], Digit) {
      DigitsEndBefore(t, x, i);
    }
  }

  lemma {:induction false} RankFrom(t: Text, x: Text, i: nat)
    requires i <= |t| && EndsFresh(t)
    ensures Rank(t + x, i) == Rank(t, i) + Rank(x, 0)
    decreases |t| - i
  {
    if i == |t| {
      RankShift(t, x, 0);
    } else {
      hide *;
      RankNext(t, x, i);
      var j := if Is(t[i], Digit) then DigitsEnd(t, i) else i + 1;
      RankFrom(t, x, j);
      var w := if Is(t[i], Digit) then [0, Nat(t[i..j])] else [Weight(t[i])];
      Regroup(w, Rank(t, j), Rank(x, 0));
    }
  }

  lemma Regroup(a: seq<int>, b: seq<int>, c: seq<int>)
    ensures a + (b + c) == (a + b) + c
  {
  }

  lemma NumberFirst(m: Text, x: Text)
    requires AllDigits(m) && m != [] && Fresh(x)
    ensures Rank(m + x, 0) == [0, Nat(m)] + Rank(x, 0)
  {
    DigitsEndUnique(m, 0, |m|);
    DigitsEndAppend(m, x, 0);
    assert m[0..|m|] == m;
    RankAppend(m, x, |m|);
    assert Is(m[0], Digit) && (m + x)[0] == m[0];
    assert Rank(m, |m|) == [];
  }

  /** Numbers at the same place decide by their values, however they are written. */
  lemma DifferentNumbers(t: Text, m: Text, x: Text, n: Text, y: Text)
    requires EndsFresh(t) && Fresh(x) && Fresh(y) && m != [] && n != []
    requires AllDigits(m) && AllDigits(n)
    ensures Nat(m) < Nat(n) ==> ByName()(t + m + x, t + n + y) < 0
    ensures Nat(m) > Nat(n) ==> ByName()(t + m + x, t + n + y) > 0
    ensures Nat(m) == Nat(n) ==> ByName()(t + m + x, t + n + y) == ByName()(t + x, t + y)
  {
    assert t + m + x == t + (m + x) && t + n + y == t + (n + y);
    RankBefore(t, m + x);
    RankBefore(t, n + y);
    CommonBeginning(t, x, y);
    NumberFirst(m, x);
    NumberFirst(n, y);
    hide Rank;
    var r, p, q := Rank(t, 0), [0, Nat(m)] + Rank(x, 0), [0, Nat(n)] + Rank(y, 0);
    CompareBehind(r, p, q);
    CompareRanksStep(p, q);
    CompareRanksStep(Tail(p), Tail(q));
    assert Tail(Tail(p)) == Rank(x, 0) && Tail(Tail(q)) == Rank(y, 0);
  }

  /** A number comes before a byte that is neither digit nor tilde, and behind a
      tilde; behind the end of the name, unless it is zero. */
  lemma NumberOrByte(t: Text, m: Text, x: Text, b: Byte, y: Text)
    requires EndsFresh(t) && Fresh(x) && m != [] && AllDigits(m) && !(48 <= b <= 57)
    ensures ByName()(t + m + x, t + [b] + y) < 0 <==> b != 126
    ensures ByName()(t + m + x, t + [b] + y) > 0 <==> b == 126
    ensures Nat(m) > 0 ==> ByName()(t + m + x, t) > 0
  {
    assert t + m + x == t + (m + x) && t + [b] + y == t + ([b] + y) && t + [] == t;
    RankBefore(t, m + x);
    RankBefore(t, [b] + y);
    RankBefore(t, []);
    NumberFirst(m, x);
    ByteFirst(b, y);
    var r, p, q := Rank(t, 0), [0, Nat(m)] + Rank(x, 0), Rank([b] + y, 0);
    assert Rank([], 0) == [];
    hide Rank;
    CompareBehind(r, p, q);
    CompareRanksStep(p, q);
    CompareBehind(r, p, []);
    CompareRanksStep(p, []);
    CompareRanksStep(Tail(p), []);
  }

  lemma ByteFirst(b: Byte, y: Text)
    requires !(48 <= b <= 57)
    ensures At(Rank([b] + y, 0), 0) > 0 <==> b != 126
    ensures At(Rank([b] + y, 0), 0) < 0 <==> b == 126
  {
  }

  // ---------- File suffixes ----------

  /** A dot, a letter or a tilde, then letters, digits and tildes. */
  predicate IsSuffix(w: Text) {
    && |w| >= 2 && w[0] == 46 && (Letter(w[1]) || w[1] == 126)
    && forall i :: 2 <= i < |w| ==> Letter(w[i]) || 48 <= w[i] <= 57 || w[i] == 126
  }

  function Row(suffixes: seq<Text>): Text {
    if suffixes == [] then [] else suffixes[0] + Row(suffixes[1..])
  }

  /** A name, not empty, in which no dot but the first byte starts a suffix. */
  predicate Stem(t: Text) {
    t != [] && forall i :: 1 <= i < |t| - 1 && t[i] == 46 ==> !Letter(t[i + 1]) && t[i + 1] != 126
  }

  lemma {:induction false} BodyEndIs(t: Text, i: nat, j: nat)
    requires i <= j <= |t| && (forall k :: i <= k < j ==> InSuffix(t[k])) && (j < |t| ==> !InSuffix(t[j]))
    ensures BodyEnd(t, i) == j
    decreases j - i
  {
    if i < j {
      BodyEndIs(t, i + 1, j);
    }
  }

  lemma RowStarts(suffixes: seq<Text>)
    requires forall k :: 0 <= k < |suffixes| ==> IsSuffix(suffixes[k])
    ensures Row(suffixes) != [] ==> Row(suffixes)[0] == 46
  {
  }

  lemma OneSuffix(t: Text, w: Text, rest: Text)
    requires IsSuffix(w) && (rest == [] || rest[0] == 46) && Suffixes((t + w) + rest, |t + w|)
    ensures Suffixes(t + (w + rest), |t|)
  {
    var r := t + (w + rest);
    hide Suffixes;
    assert r == (t + w) + rest;
    forall k | |t| + 2 <= k < |t + w| ensures InSuffix(r[k]) {
      assert r[k] == w[k - |t|];
    }
    assert rest != [] ==> r[|t + w|] == rest[0];
    BodyEndIs(r, |t| + 2, |t + w|);
    assert r[|t|] == w[0] && r[|t| + 1] == w[1];
    SuffixesStep(r, |t|);
  }

  lemma NoSuffix(t: Text)
    ensures Suffixes(t + Row([]), |t|)
  {
    assert t + Row([]) == t;
  }

  lemma {:induction false} RowIsSuffixes(t: Text, suffixes: seq<Text>)
    requires forall k :: 0 <= k < |suffixes| ==> IsSuffix(suffixes[k])
    ensures Suffixes(t + Row(suffixes), |t|)
    decreases |suffixes|
  {
    if suffixes == [] {
      NoSuffix(t);
    } else {
      var w := suffixes[0];
      assert Row(suffixes) == w + Row(suffixes[1..]);
      hide Row, Suffixes, IsSuffix;
      RowStarts(suffixes[1..]);
      RowIsSuffixes(t + w, suffixes[1..]);
      OneSuffix(t, w, Row(suffixes[1..]));
    }
  }

  lemma SuffixesStep(t: Text, i: nat)
    requires StartsSuffix(t, i) && Suffixes(t, BodyEnd(t, i + 2))
    ensures Suffixes(t, i)
  {
  }

  /** Only such rows are set aside. */
  lemma {:induction false} SuffixesAreRow(t: Text, i: nat) returns (suffixes: seq<Text>)
    requires i <= |t| && Suffixes(t, i)
    ensures t[i..] == Row(suffixes) && forall k :: 0 <= k < |suffixes| ==> IsSuffix(suffixes[k])
    decreases |t| - i
  {
    if i == |t| {
      suffixes := [];
    } else {
      var j := BodyEnd(t, i + 2);
      var rest := SuffixesAreRow(t, j);
      suffixes := [t[i..j]] + rest;
      hide Suffixes, BodyEnd;
      assert t[i..] == t[i..j] + t[j..];
      SuffixPiece(t, i, j);
      RowJoined(t[i..j], rest);
    }
  }

  lemma RowJoined(w: Text, rest: seq<Text>)
    ensures Row([w] + rest) == w + Row(rest)
  {
    assert ([w] + rest)[1..] == rest;
  }

  lemma SuffixPiece(t: Text, i: nat, j: nat)
    requires StartsSuffix(t, i) && i + 2 <= j <= |t| && forall k :: i + 2 <= k < j ==> InSuffix(t[k])
    ensures IsSuffix(t[i..j])
  {
    var w := t[i..j];
    forall k | 2 <= k < |w| ensures Letter(w[k]) || 48 <= w[k] <= 57 || w[k] == 126 {
      assert w[k] == t[i + k];
    }
  }

  lemma RowBehind(t: Text, p: nat, s: seq<Text>)
    requires p <= |t| && t[p..] == Row(s) && forall k :: 0 <= k < |s| ==> IsSuffix(s[k])
    ensures Suffixes(t, p)
  {
    hide *;
    RowIsSuffixes(t[..p], s);
    assert t[..p] + t[p..] == t;
  }

  /** The first pass looks at a part of the name, not empty, that leaves a row of
      suffixes, */
  lemma PrefixLeavesRow(t: Text) returns (suffixes: seq<Text>)
    requires t != []
    ensures 1 <= PrefixLength(t) && t[PrefixLength(t)..] == Row(suffixes)
    ensures forall k :: 0 <= k < |suffixes| ==> IsSuffix(suffixes[k])
  {
    assert PrefixLength(t) == FirstSuffixes(t, 1);
    hide Row, IsSuffix, PrefixLength;
    suffixes := SuffixesAreRow(t, PrefixLength(t));
  }

  /** and at the shortest such part. */
  lemma PrefixIsShortest(t: Text, p: nat, suffixes: seq<Text>)
    requires 1 <= p < PrefixLength(t) && forall k :: 0 <= k < |suffixes| ==> IsSuffix(suffixes[k])
    ensures t[p..] != Row(suffixes)
  {
    assert PrefixLength(t) == FirstSuffixes(t, 1);
    hide Row, IsSuffix, PrefixLength;
    if t[p..] == Row(suffixes) {
      RowBehind(t, p, suffixes);
    }
  }

  lemma StemStands(t: Text, w: Text, i: nat)
    requires Stem(t) && (w == [] || w[0] == 46) && 1 <= i < |t|
    ensures !Suffixes(t + w, i)
  {
    var r := t + w;
    assert r[i] == t[i];
    if r[i] == 46 && i + 1 < |r| {
      assert r[i + 1] == if i + 1 < |t| then t[i + 1] else w[0];
    }
  }

  /** A row of suffixes behind such a name is what the first pass leaves out. */
  lemma RowLeftOut(t: Text, suffixes: seq<Text>)
    requires Stem(t) && forall k :: 0 <= k < |suffixes| ==> IsSuffix(suffixes[k])
    ensures var r := t + Row(suffixes); r[..PrefixLength(r)] == t
  {
    var r := t + Row(suffixes);
    RowIsSuffixes(t, suffixes);
    RowStarts(suffixes);
    var p := PrefixLength(r);
    hide Row, Suffixes, Stem;
    assert p == FirstSuffixes(r, 1);
    if p < |t| {
      StemStands(t, Row(suffixes), p);
    }
    assert p == |t|;
  }

  // ---------- The version order ----------

  /** Names that are not dot files: the stems decide; the suffixes only if the stems
      do not. */
  lemma StemsDecide(p: Text, u: seq<Text>, q: Text, v: seq<Text>)
    requires Stem(p) && Stem(q) && p[0] != 46 && q[0] != 46
    requires forall k :: 0 <= k < |u| ==> IsSuffix(u[k])
    requires forall k :: 0 <= k < |v| ==> IsSuffix(v[k])
    ensures VersionOrder()(p + Row(u), q + Row(v)) ==
            if ByName()(p, q) != 0 then ByName()(p, q) else ByName()(p + Row(u), q + Row(v))
  {
    var a, b := p + Row(u), q + Row(v);
    RowLeftOut(p, u);
    RowLeftOut(q, v);
    hide Stem, Row, IsSuffix;
    VersionOrderAt(a, b);
    PrefixAt(a, b);
    NameAt(p, q);
    assert a[0] == p[0] && b[0] == q[0];
  }

  /** Without suffixes the order is that of the names. */
  lemma BareNames(p: Text, q: Text)
    requires Stem(p) && Stem(q) && p[0] != 46 && q[0] != 46
    ensures VersionOrder()(p, q) == ByName()(p, q)
  {
    StemsDecide(p, [], q, []);
    assert p + Row([]) == p && q + Row([]) == q;
  }

  /** A version that goes on with a tilde comes before it, whatever the suffixes. */
  lemma PreReleaseFirst(t: Text, x: Text, u: seq<Text>, v: seq<Text>)
    requires Stem(t) && Stem(t + [126] + x) && t[0] != 46
    requires forall k :: 0 <= k < |u| ==> IsSuffix(u[k])
    requires forall k :: 0 <= k < |v| ==> IsSuffix(v[k])
    ensures VersionOrder()(t + [126] + x + Row(u), t + Row(v)) < 0
  {
    StemsDecide(t + [126] + x, u, t, v);
    LongerName(t, 126, x);
  }

  /** The empty name, then the two directories, then dot files, then the others. */
  lemma SpecialNames(a: Text, b: Text)
    requires a != [] && a != [46] && a != [46, 46] && a[0] == 46 && b != [] && b[0] != 46
    ensures VersionOrder()([], [46]) < 0 && VersionOrder()([46], [46, 46]) < 0
    ensures VersionOrder()([46, 46], a) < 0 && VersionOrder()(a, b) < 0
  {
    VersionOrderAt([], [46]);
    VersionOrderAt([46], [46, 46]);
    VersionOrderAt([46, 46], a);
    VersionOrderAt(a, b);
  }
}
