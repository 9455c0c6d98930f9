/** Which part of a line a key takes, told by the fields that the line is put
    together from. */
module KeyTexts {
  import opened Bytes
  import opened Fields

  /** From a position on, or nothing. */
  function From(t: Text, n: nat): Text {
    if n <= |t| then t[n..] else []
  }

  /** Between two positions, as far as there is anything. */
  function Between(t: Text, m: nat, n: nat): Text {
    From(t[..Least(n, |t|)], m)
  }

  function Least(a: nat, b: nat): nat {
    if a < b then a else b
  }

  // ---------- Separated fields ----------

  predicate Without(t: Text, b: Byte) {
    forall i :: 0 <= i < |t| ==> t[i] != b
  }

  /** Fields, each with a separator behind it. */
  function Closed(fields: seq<Text>, b: Byte): Text {
    if fields == [] then [] else fields[0] + [b] + Closed(fields[1..], b)
  }

  predicate AllWithout(fields: seq<Text>, b: Byte) {
    forall k :: 0 <= k < |fields| ==> Without(fields[k], b)
  }

  lemma FindBehind(p: Text, f: Text, q: Text, b: Byte)
    requires Without(f, b) && (q == [] || q[0] == b)
    ensures Find(p + f + q, |p|, b) == |p + f|
  {
    var t := p + f + q;
    forall k | |p| <= k < |p + f| ensures t[k] != b {
      assert t[k] == f[k - |p|];
    }
    assert q != [] ==> t[|p + f|] == q[0];
    FindIs(t, |p|, |p + f|, b);
  }

  lemma ClosedSplit(fields: seq<Text>, b: Byte)
    requires fields != []
    ensures Closed(fields, b) == fields[0] + [b] + Closed(fields[1..], b)
  {
  }

  lemma ExplicitNext(t: Text, b: Byte, i: nat, n: nat)
    requires i <= |t| && n >= 1
    ensures ExplicitAfter(t, b, i, n) ==
            if Find(t, i, b) == |t| then |t| else ExplicitAfter(t, b, Find(t, i, b) + 1, n - 1)
  {
  }

  lemma FieldFirst(p: Text, f: Text, b: Byte, rest: Text, r: Text)
    ensures p + (f + [b] + rest) + r == p + f + ([b] + rest + r)
    ensures p + (f + [b] + rest) + r == (p + f + [b]) + rest + r
    ensures |p + (f + [b] + rest)| == |(p + f + [b]) + rest|
    ensures |p + f| < |p + (f + [b] + rest) + r|
  {
  }

  lemma {:induction false} AfterFields(p: Text, fields: seq<Text>, b: Byte, r: Text)
    requires AllWithout(fields, b)
    ensures ExplicitAfter(p + Closed(fields, b) + r, b, |p|, |fields|) == |p + Closed(fields, b)|
    decreases |fields|
  {
    var t := p + Closed(fields, b) + r;
    if fields == [] {
      assert p + [] == p;
    } else {
      var f, rest := fields[0], Closed(fields[1..], b);
      assert Without(f, b) && AllWithout(fields[1..], b);
      hide *;
      ClosedSplit(fields, b);
      AfterFields(p + f + [b], fields[1..], b, r);
      FieldFirst(p, f, b, rest, r);
      FindBehind(p, f, [b] + rest + r, b);
      ExplicitNext(t, b, |p|, |fields|);
    }
  }

  /** The field behind the first `n`; `r` goes on with a separator, if at all. */
  lemma FieldIs(fields: seq<Text>, b: Byte, f: Text, r: Text)
    requires AllWithout(fields, b) && Without(f, b) && (r == [] || r[0] == b)
    ensures var t, n := Closed(fields, b) + f + r, |fields| + 1;
      ExplicitStart(t, b, n) == |Closed(fields, b)| && Find(t, |Closed(fields, b)|, b) == |Closed(fields, b) + f|
  {
    hide *;
    var p := Closed(fields, b);
    AfterFields([], fields, b, f + r);
    NothingBefore(p, f, r);
    FindBehind(p, f, r, b);
    ExplicitStartIs(p + f + r, b, |fields| + 1);
  }

  lemma NothingBefore(p: Text, f: Text, r: Text)
    ensures [] + p + (f + r) == p + f + r && [] + p == p
  {
  }

  lemma ExplicitStartIs(t: Text, b: Byte, n: nat)
    requires n >= 1
    ensures ExplicitStart(t, b, n) == ExplicitAfter(t, b, 0, n - 1)
  {
  }

  lemma {:induction false} NoSuchField(p: Text, fields: seq<Text>, b: Byte, f: Text, n: nat)
    requires AllWithout(fields, b) && Without(f, b) && n > |fields|
    ensures var t := p + Closed(fields, b) + f; ExplicitAfter(t, b, |p|, n) == |t|
    decreases |fields|
  {
    var t := p + Closed(fields, b) + f;
    if fields == [] {
      assert t == p + f + [];
      FindBehind(p, f, [], b);
    } else {
      var g, rest := fields[0], Closed(fields[1..], b);
      assert Without(g, b);
      ClosedSplit(fields, b);
      NoSuchField(p + g + [b], fields[1..], b, f, n - 1);
      hide Closed;
      assert t == p + g + ([b] + rest + f);
      FindBehind(p, g, [b] + rest + f, b);
      assert t == (p + g + [b]) + rest + f;
    }
  }

  // ---------- Words between blanks ----------

  predicate Blank(b: int) {
    b == 32 || b == 9
  }

  /** How many blanks a text starts with. */
  function Lead(t: Text): (n: nat)
    ensures n <= |t| && forall i :: 0 <= i < n ==> Blank(t[i])
    ensures n < |t| ==> !Blank(t[n])
  {
    if t != [] && Blank(t[0]) then 1 + Lead(t[1..]) else 0
  }

  /** A word with the blanks in front of it. */
  datatype Word = Word(gap: Text, text: Text) {
    predicate Valid() {
      && (forall i :: 0 <= i < |gap| ==> Blank(gap[i]))
      && text != [] && forall i :: 0 <= i < |text| ==> !Blank(text[i])
    }
  }

  /** Words of which only the first may have no blanks in front. */
  predicate Line(words: seq<Word>) {
    forall k :: 0 <= k < |words| ==> words[k].Valid() && (k > 0 ==> words[k].gap != [])
  }

  function Joined(words: seq<Word>): Text {
    if words == [] then [] else words[0].gap + words[0].text + Joined(words[1..])
  }

  lemma JoinedSplit(words: seq<Word>)
    requires words != []
    ensures Joined(words) == words[0].gap + words[0].text + Joined(words[1..])
  {
  }

  lemma {:induction false} SkipBlanksIs(t: Text, i: nat, j: nat)
    requires i <= j <= |t| && (forall k :: i <= k < j ==> Blank(t[k])) && (j < |t| ==> !Blank(t[j]))
    ensures SkipBlanks(t, i) == j
    decreases j - i
  {
    if i < j {
      SkipBlanksIs(t, i + 1, j);
    }
  }

  lemma {:induction false} SkipWordIs(t: Text, i: nat, j: nat)
    requires i <= j <= |t| && (forall k :: i <= k < j ==> !Blank(t[k])) && (j < |t| ==> Blank(t[j]))
    ensures SkipWord(t, i) == j
    decreases j - i
  {
    if i < j {
      SkipWordIs(t, i + 1, j);
    }
  }

  lemma SkipLead(p: Text, s: Text)
    ensures SkipBlanks(p + s, |p|) == |p| + Lead(s)
  {
    var t, n := p + s, Lead(s);
    forall k | |p| <= k < |p| + n ensures Blank(t[k]) {
      assert t[k] == s[k - |p|];
    }
    assert n < |s| ==> t[|p| + n] == s[n];
    SkipBlanksIs(t, |p|, |p| + n);
  }

  lemma {:induction false} LeadIs(s: Text, n: nat)
    requires n <= |s| && (forall i :: 0 <= i < n ==> Blank(s[i])) && (n < |s| ==> !Blank(s[n]))
    ensures Lead(s) == n
  {
    if n > 0 {
      LeadIs(s[1..], n - 1);
    }
  }

  /** Scanning over one word. */
  lemma OverWord(p: Text, w: Word, r: Text)
    requires w.Valid() && (r == [] || Blank(r[0]))
    ensures var t := p + w.gap + w.text + r;
      SkipBlanks(t, |p|) == |p + w.gap| && SkipWord(t, |p + w.gap|) == |p + w.gap + w.text|
  {
    var t, i, j := p + w.gap + w.text + r, |p + w.gap|, |p + w.gap + w.text|;
    forall k | |p| <= k < i ensures Blank(t[k]) {
      assert t[k] == w.gap[k - |p|];
    }
    forall k | i <= k < j ensures !Blank(t[k]) {
      assert t[k] == w.text[k - i];
    }
    assert t[i] == w.text[0];
    assert r != [] ==> t[j] == r[0];
    SkipBlanksIs(t, |p|, i);
    SkipWordIs(t, i, j);
  }

  lemma BlankHere(t: Text, i: nat, text: bool)
    requires i <= |t| && SkipBlanks(t, i) < |t|
    ensures BlankAfter(t, i, 1, text) == if text then SkipBlanks(t, i) else i
  {
  }

  lemma BlankNext(t: Text, i: nat, n: nat, text: bool)
    requires i <= |t| && n > 1 && SkipBlanks(t, i) < |t|
    ensures BlankAfter(t, i, n, text) == BlankAfter(t, SkipWord(t, SkipBlanks(t, i)), n - 1, text)
  {
  }

  lemma WordFirst(p: Text, w: Word, r: Text)
    requires w.Valid()
    ensures |p + w.gap| < |p + w.gap + w.text + r|
  {
  }

  lemma Regroup(p: Text, v: Word, rest: Text, w: Word, r: Text)
    ensures var q := p + (v.gap + v.text + rest);
      && q == p + v.gap + v.text + rest
      && q + w.gap + w.text + r == p + v.gap + v.text + (rest + (w.gap + w.text + r))
  {
  }

  lemma NoWords(p: Text)
    ensures p + Joined([]) == p
  {
  }

  lemma OneWord(w: Word)
    requires Line([] + [w])
    ensures w.Valid()
  {
    assert w == ([] + [w])[0];
  }

  /** The word behind the first `n`; `r` goes on with a blank, if at all. */
  lemma {:induction false} AfterWords(p: Text, words: seq<Word>, w: Word, r: Text, text: bool)
    requires Line(words + [w]) && (r == [] || Blank(r[0]))
    ensures var q := p + Joined(words);
      BlankAfter(q + w.gap + w.text + r, |p|, |words| + 1, text) == if text then |q + w.gap| else |q|
    decreases |words|
  {
    hide *;
    var q := p + Joined(words);
    var t := q + w.gap + w.text + r;
    if words == [] {
      OneWord(w);
      NoWords(p);
      OverWord(p, w, r);
      WordFirst(p, w, r);
      BlankHere(t, |p|, text);
    } else {
      var v, rest := words[0], Joined(words[1..]);
      LineTail(words, w);
      JoinedSplit(words);
      AfterWords(p + v.gap + v.text, words[1..], w, r, text);
      GapFirst(words[1..], w, r);
      Regroup(p, v, rest, w, r);
      OverWord(p, v, rest + (w.gap + w.text + r));
      WordFirst(p, v, rest + (w.gap + w.text + r));
      BlankNext(t, |p|, |words| + 1, text);
    }
  }

  lemma LineTail(words: seq<Word>, w: Word)
    requires words != [] && Line(words + [w])
    ensures words[0].Valid() && Line(words[1..] + [w]) && w.gap != []
    ensures |words| > 1 ==> words[1].gap != []
  {
    var all := words + [w];
    assert all[0] == words[0] && all[|words|] == w;
    forall k | 0 <= k < |words[1..] + [w]| ensures (words[1..] + [w])[k] == all[k + 1] {
    }
    assert |words| > 1 ==> all[1] == words[1];
  }

  lemma GapFirst(words: seq<Word>, w: Word, r: Text)
    requires Line(words + [w]) && w.gap != [] && (words != [] ==> words[0].gap != [])
    ensures var s := Joined(words) + (w.gap + w.text + r); s != [] && Blank(s[0])
  {
    assert w == (words + [w])[|words|];
    if words != [] {
      assert words[0] == (words + [w])[0];
      JoinedSplit(words);
      hide Joined;
      assert Joined(words)[0] == words[0].gap[0];
    } else {
      assert Joined(words) + (w.gap + w.text + r) == w.gap + w.text + r;
    }
  }

  // ---------- The key ----------

  /** Field `n` lies between two positions; the first may be moved over blanks. */
  ghost predicate FieldAt(t: Text, sep: Option<Byte>, n: nat, from: nat, to: nat) {
    && n >= 1 && from <= to <= |t|
    && FieldStart(t, sep, n, false) == from && FieldStart(t, sep, n, true) == from + Lead(t[from..])
    && FieldEnd(t, sep, n) == to
  }

  lemma SeparatedFieldAt(t: Text, b: Byte, n: nat, from: nat, to: nat)
    requires n >= 1 && from <= to <= |t| && ExplicitStart(t, b, n) == from && Find(t, from, b) == to
    requires SkipBlanks(t, from) == from + Lead(t[from..])
    ensures FieldAt(t, Some(b), n, from, to)
  {
  }

  lemma Grouped(p: Text, f: Text, r: Text)
    ensures p + f + r == p + (f + r) && (p + f + r)[|p|..] == f + r && |p| <= |p + f| <= |p + f + r|
  {
  }

  lemma SeparatedAt(before: seq<Text>, b: Byte, f: Text, r: Text)
    requires AllWithout(before, b) && Without(f, b) && (r == [] || r[0] == b)
    ensures var p := Closed(before, b); FieldAt(p + f + r, Some(b), |before| + 1, |p|, |p + f|)
  {
    hide *;
    var p := Closed(before, b);
    FieldIs(before, b, f, r);
    SkipLead(p, f + r);
    Grouped(p, f, r);
    SeparatedFieldAt(p + f + r, b, |before| + 1, |p|, |p + f|);
  }

  lemma LastWord(before: seq<Word>, w: Word)
    requires Line(before + [w])
    ensures w.Valid()
  {
    assert w == (before + [w])[|before|];
  }

  lemma GapLeads(w: Word, r: Text)
    requires w.Valid()
    ensures Lead(w.gap + w.text + r) == |w.gap|
  {
    LeadIs(w.gap + w.text + r, |w.gap|);
  }

  lemma BlankFieldAt(t: Text, n: nat, from: nat, to: nat)
    requires n >= 1 && from <= to <= |t|
    requires BlankStart(t, n, false) == from && BlankStart(t, n, true) == from + Lead(t[from..])
    requires SkipWord(t, SkipBlanks(t, from)) == to
    ensures FieldAt(t, None, n, from, to)
  {
  }

  lemma BlankStartIs(t: Text, n: nat, text: bool)
    requires n >= 1
    ensures BlankStart(t, n, text) == BlankAfter(t, 0, n, text)
  {
  }

  lemma Behind(p: Text, w: Word, r: Text)
    ensures (p + w.gap + w.text + r)[|p|..] == w.gap + w.text + r
  {
  }

  lemma WordAt(before: seq<Word>, w: Word, r: Text)
    requires Line(before + [w]) && (r == [] || Blank(r[0]))
    ensures var p := Joined(before); FieldAt(p + w.gap + w.text + r, None, |before| + 1, |p|, |p + w.gap + w.text|)
    ensures Lead(w.gap + w.text + r) == |w.gap|
  {
    hide *;
    var p := Joined(before);
    var t := p + w.gap + w.text + r;
    AfterWords([], before, w, r, false);
    AfterWords([], before, w, r, true);
    assert [] + p == p;
    BlankStartIs(t, |before| + 1, false);
    BlankStartIs(t, |before| + 1, true);
    LastWord(before, w);
    OverWord(p, w, r);
    GapLeads(w, r);
    Behind(p, w, r);
    BlankFieldAt(t, |before| + 1, |p|, |p + w.gap + w.text|);
  }

  /** Where a key starts, counted from the start of its first field: behind the
      blanks if they are to be skipped, and behind the first `c` - 1 characters. */
  function StartIn(s: Text, p: Place): nat {
    (if p.startBlanks then Lead(s) else 0) +
    (match p.startChar case Some(c) => if c == 0 then 0 else c - 1 case None => 0)
  }

  /** Where it stops, counted from the start of its last field: with the field, or
      behind the character named. */
  function StopIn(f: Text, s: Text, p: Place): nat {
    match p.endChar
    case Some(c) => if c == 0 then |f| else (if p.endBlanks then Lead(s) else 0) + c
    case None => |f|
  }

  lemma ClippedText(t: Text, start: nat, limit: nat)
    ensures var s := Clipped(t, start, limit); t[s.start..s.end] == Between(t, start, limit)
    ensures Between(t, start, |t|) == From(t, start)
  {
    assert t[..|t|] == t;
  }

  lemma StartIs(t: Text, sep: Option<Byte>, p: Place, from: nat, to: nat)
    requires Parsed(p) && FieldAt(t, sep, p.startField, from, to)
    ensures FieldStart(t, sep, p.startField, p.startBlanks) + StartOffset(p) == from + StartIn(t[from..], p)
  {
    hide FieldStart, FieldEnd;
  }

  lemma StopIs(t: Text, sep: Option<Byte>, p: Place, from: nat, to: nat)
    requires Parsed(p) && (p.end.Some? ==> FieldAt(t, sep, p.end.value, from, to)) && from <= to <= |t|
    ensures Limit(t, sep, p) == if p.end.None? then |t| else from + StopIn(t[from..to], t[from..], p)
  {
    hide FieldStart, FieldEnd, Lead;
  }

  lemma KeyTextIs(t: Text, sep: Option<Byte>, p: Place)
    requires Parsed(p)
    ensures var s := Clipped(t, FieldStart(t, sep, p.startField, p.startBlanks) + StartOffset(p), Limit(t, sep, p));
      KeyText(t, sep, p) == t[s.start..s.end]
  {
    hide FieldStart, Limit, StartOffset, Clipped;
  }

  lemma KeyFrom(t: Text, sep: Option<Byte>, p: Place, from: nat, to: nat)
    requires Parsed(p) && p.end.None? && FieldAt(t, sep, p.startField, from, to)
    ensures KeyText(t, sep, p) == From(t, from + StartIn(t[from..], p))
  {
    StopIs(t, sep, p, 0, 0);
    StartIs(t, sep, p, from, to);
    hide *;
    KeyTextIs(t, sep, p);
    ClippedText(t, from + StartIn(t[from..], p), |t|);
  }

  lemma KeyBetween(t: Text, sep: Option<Byte>, p: Place, from: nat, to: nat, last: nat, stop: nat)
    requires Parsed(p) && p.end.Some?
    requires FieldAt(t, sep, p.startField, from, to) && FieldAt(t, sep, p.end.value, last, stop)
    ensures KeyText(t, sep, p) == Between(t, from + StartIn(t[from..], p), last + StopIn(t[last..stop], t[last..], p))
  {
    StartIs(t, sep, p, from, to);
    assert last <= stop <= |t|;
    hide *;
    StopIs(t, sep, p, last, stop);
    KeyTextIs(t, sep, p);
    ClippedText(t, from + StartIn(t[from..], p), last + StopIn(t[last..stop], t[last..], p));
  }

  lemma SlicesBehind(a: Text, s: Text, m: nat, n: nat)
    ensures From(a + s, |a| + m) == From(s, m)
    ensures Between(a + s, |a| + m, |a| + n) == Between(s, m, n)
  {
    assert (a + s)[..|a| + Least(n, |s|)] == a + s[..Least(n, |s|)];
    if m <= |s| {
      assert (a + s)[|a| + m..] == s[m..];
    }
    if m <= Least(n, |s|) {
      assert (a + s[..Least(n, |s|)])[|a| + m..] == s[..Least(n, |s|)][m..];
    }
  }

  /** `a` is what lies before a key's first field, `s` what follows; its last field
      is the part `f` of `s` behind `skip` bytes. */
  lemma KeyIn(a: Text, s: Text, sep: Option<Byte>, p: Place, to: nat, skip: nat, f: Text)
    requires Parsed(p) && FieldAt(a + s, sep, p.startField, |a|, to) && skip + |f| <= |s| && s[skip..skip + |f|] == f
    requires p.end.Some? ==> FieldAt(a + s, sep, p.end.value, |a| + skip, |a| + skip + |f|)
    ensures KeyText(a + s, sep, p) ==
            if p.end.None? then From(s, StartIn(s, p)) else Between(s, StartIn(s, p), skip + StopIn(f, s[skip..], p))
  {
    hide *;
    var t := a + s;
    Sliced(a, s, skip, f);
    if p.end.None? {
      KeyFrom(t, sep, p, |a|, to);
      SlicesBehind(a, s, StartIn(s, p), 0);
    } else {
      KeyBetween(t, sep, p, |a|, to, |a| + skip, |a| + skip + |f|);
      SlicesBehind(a, s, StartIn(s, p), skip + StopIn(f, s[skip..], p));
      assert |a| + (skip + StopIn(f, s[skip..], p)) == |a| + skip + StopIn(f, s[skip..], p);
    }
  }

  lemma Sliced(a: Text, s: Text, skip: nat, f: Text)
    requires skip + |f| <= |s| && s[skip..skip + |f|] == f
    ensures (a + s)[|a|..] == s && (a + s)[|a| + skip..] == s[skip..] && (a + s)[|a| + skip..|a| + skip + |f|] == f
  {
  }

  /** Separated fields: a key from one field to the end of the line, or within it. */
  lemma SeparatedKey(before: seq<Text>, b: Byte, f: Text, r: Text, p: Place)
    requires AllWithout(before, b) && Without(f, b) && (r == [] || r[0] == b)
    requires Parsed(p) && p.startField == |before| + 1 && (p.end.Some? ==> p.end.value == |before| + 1)
    ensures KeyText(Closed(before, b) + f + r, Some(b), p) ==
            if p.end.None? then From(f + r, StartIn(f + r, p)) else Between(f + r, StartIn(f + r, p), StopIn(f, f + r, p))
  {
    hide *;
    SeparatedAt(before, b, f, r);
    var a, s := Closed(before, b), f + r;
    assert a + f + r == a + s && s[0..|f|] == f && s[0..] == s;
    KeyIn(a, s, Some(b), p, |a + f|, 0, f);
  }

  lemma {:induction false} ClosedAppend(x: seq<Text>, y: seq<Text>, b: Byte)
    ensures Closed(x + y, b) == Closed(x, b) + Closed(y, b)
  {
    if x == [] {
      assert x + y == y;
    } else {
      ClosedAppend(x[1..], y, b);
      assert (x + y)[0] == x[0] && (x + y)[1..] == x[1..] + y;
    }
  }

  lemma ClosedAcross(before: seq<Text>, b: Byte, f: Text, between: seq<Text>)
    ensures Closed(before + [f] + between, b) == Closed(before, b) + (f + [b] + Closed(between, b))
  {
    ClosedAppend(before + [f], between, b);
    ClosedAppend(before, [f], b);
    assert Closed([f], b) == f + [b];
  }

  lemma AcrossText(a: Text, f: Text, x: Text, g: Text, r: Text)
    ensures a + f + (x + g + r) == a + ((f + x) + g + r)
    ensures (a + (f + x)) + g + r == a + ((f + x) + g + r)
  {
  }

  lemma AcrossFields(before: seq<Text>, b: Byte, f: Text, between: seq<Text>)
    requires AllWithout(before + [f] + between, b)
    ensures AllWithout(before, b) && Without(f, b)
  {
    var all := before + [f] + between;
    assert f == all[|before|];
    forall k | 0 <= k < |before| ensures Without(before[k], b) {
      assert before[k] == all[k];
    }
  }

  lemma Joint(f: Text, b: Byte, x: Text, g: Text, r: Text)
    ensures f + [b] + x == f + ([b] + x) && ([b] + x + g + r)[0] == b && ([b] + x + g)[0] == b
    ensures ([b] + x + g + r) != [] && [b] + x + g != []
  {
  }

  lemma Lengths(a: Text, m: Text, g: Text, r: Text)
    ensures |a + m| == |a| + |m| && |a + m + g| == |a| + |m| + |g| && |m| + |g| <= |m + g + r|
  {
  }

  lemma MiddlePart(m: Text, g: Text, r: Text)
    ensures (m + g + r)[|m|..|m| + |g|] == g && (m + g + r)[|m|..] == g + r
  {
  }

  /** A key from one field to a later one. */
  lemma SeparatedKeyAcross(before: seq<Text>, b: Byte, f: Text, between: seq<Text>, g: Text, r: Text, p: Place)
    requires AllWithout(before + [f] + between, b) && Without(g, b) && (r == [] || r[0] == b)
    requires Parsed(p) && p.startField == |before| + 1 && p.end == Some(|before| + |between| + 2)
    ensures var s, skip := f + [b] + Closed(between, b) + g + r, |f + [b] + Closed(between, b)|;
      KeyText(Closed(before, b) + s, Some(b), p) == Between(s, StartIn(s, p), skip + StopIn(g, g + r, p))
  {
    hide *;
    var a, m := Closed(before, b), f + [b] + Closed(between, b);
    var x := [b] + Closed(between, b);
    Joint(f, b, Closed(between, b), g, r);
    Lengths(a, m, g, r);
    ClosedAcross(before, b, f, between);
    AcrossText(a, f, x, g, r);
    AcrossFields(before, b, f, between);
    SeparatedAt(before, b, f, x + g + r);
    SeparatedAt(before + [f] + between, b, g, r);
    MiddlePart(m, g, r);
    KeyIn(a, m + g + r, Some(b), p, |a + f|, |m|, g);
  }

  /** Words between blanks: the same, where a field starts with its blanks. */
  lemma WordKey(before: seq<Word>, w: Word, r: Text, p: Place)
    requires Line(before + [w]) && (r == [] || Blank(r[0]))
    requires Parsed(p) && p.startField == |before| + 1 && (p.end.Some? ==> p.end.value == |before| + 1)
    ensures var f := w.gap + w.text;
      KeyText(Joined(before) + f + r, None, p) ==
      if p.end.None? then From(f + r, StartIn(f + r, p)) else Between(f + r, StartIn(f + r, p), StopIn(f, f + r, p))
    ensures Lead(w.gap + w.text + r) == |w.gap|
  {
    hide *;
    WordAt(before, w, r);
    var a, f := Joined(before), w.gap + w.text;
    var s := f + r;
    assert a + w.gap + w.text + r == a + s && a + f + r == a + s && s[0..|f|] == f && s[0..] == s;
    assert |a + w.gap + w.text| == |a| + |f|;
    KeyIn(a, s, None, p, |a| + |f|, 0, f);
  }

  // ---------- What users write ----------

  /** Slices of a text that starts with `lead`. */
  lemma Characters(lead: Text, w: Text, r: Text, c: nat, e: nat)
    requires 1 <= c && c - 1 <= e <= |w|
    ensures var s := lead + w + r;
      && Between(s, |lead| + (c - 1), |lead| + e) == w[c - 1..e]
      && Between(s, |lead|, |lead + w|) == w
      && From(s, |lead| + (c - 1)) == (w + r)[c - 1..]
  {
    assert (lead + w + r)[..|lead| + e] == lead + w[..e];
    assert (lead + w[..e])[|lead| + (c - 1)..] == w[..e][c - 1..];
    assert (lead + w + r)[..|lead + w|] == lead + w && (lead + w)[|lead|..] == w;
    assert (lead + w + r)[|lead| + (c - 1)..] == (w + r)[c - 1..];
  }

  lemma Positions(f: Text, s: Text, n: nat, c: nat, e: nat, blanks: bool)
    requires c >= 1 && e >= 1
    ensures var g := if blanks then Lead(s) else 0;
      && StartIn(s, Place(n, Some(c), blanks, Some(n), Some(e), blanks)) == g + (c - 1)
      && StopIn(f, s, Place(n, Some(c), blanks, Some(n), Some(e), blanks)) == g + e
      && StartIn(s, Place(n, None, blanks, Some(n), None, blanks)) == g
      && StopIn(f, s, Place(n, None, blanks, Some(n), None, blanks)) == |f|
      && StartIn(s, Place(n, Some(c), blanks, None, None, false)) == g + (c - 1)
  {
  }

  lemma Nothing(f: Text, r: Text)
    ensures [] + f + r == f + r && |[] + f| == |f|
  {
  }

  lemma CharactersOf(f: Text, r: Text, n: nat, c: nat, e: nat)
    requires 1 <= c && 1 <= e && c - 1 <= e <= |f|
    ensures var p, q, o := Place(n, Some(c), false, Some(n), Some(e), false), Place(n, None, false, Some(n), None, false), Place(n, Some(c), false, None, None, false);
      && Between(f + r, StartIn(f + r, p), StopIn(f, f + r, p)) == f[c - 1..e]
      && Between(f + r, StartIn(f + r, q), StopIn(f, f + r, q)) == f
      && From(f + r, StartIn(f + r, o)) == (f + r)[c - 1..]
  {
    hide *;
    Positions(f, f + r, n, c, e, false);
    Characters([], f, r, c, e);
    Nothing(f, r);
  }

  /** `-t b -k n.c,n.e`: the characters from `c` to `e` of field `n`; `-k n,n` all of
      it; `-k n.c` everything from there on. */
  lemma SeparatedCharacters(before: seq<Text>, b: Byte, f: Text, r: Text, c: nat, e: nat)
    requires AllWithout(before, b) && Without(f, b) && (r == [] || r[0] == b)
    requires 1 <= c && 1 <= e && c - 1 <= e <= |f|
    ensures var t, n := Closed(before, b) + f + r, |before| + 1;
      && KeyText(t, Some(b), Place(n, Some(c), false, Some(n), Some(e), false)) == f[c - 1..e]
      && KeyText(t, Some(b), Place(n, None, false, Some(n), None, false)) == f
      && KeyText(t, Some(b), Place(n, Some(c), false, None, None, false)) == (f + r)[c - 1..]
  {
    hide *;
    var n := |before| + 1;
    PlacesParsed(n, c, e, false);
    SeparatedKey(before, b, f, r, Place(n, Some(c), false, Some(n), Some(e), false));
    SeparatedKey(before, b, f, r, Place(n, None, false, Some(n), None, false));
    SeparatedKey(before, b, f, r, Place(n, Some(c), false, None, None, false));
    CharactersOf(f, r, n, c, e);
  }

  lemma PlacesParsed(n: nat, c: nat, e: nat, blanks: bool)
    requires n >= 1
    ensures Parsed(Place(n, Some(c), blanks, Some(n), Some(e), blanks))
    ensures Parsed(Place(n, None, blanks, Some(n), None, blanks))
    ensures Parsed(Place(n, Some(c), blanks, None, None, false))
  {
  }

  /** `-k n.c,n.e` among words counts from the blanks in front. */
  lemma FieldCharacters(before: seq<Word>, w: Word, r: Text, c: nat, e: nat)
    requires Line(before + [w]) && (r == [] || Blank(r[0]))
    requires 1 <= c && 1 <= e && c - 1 <= e <= |w.gap + w.text|
    ensures var t, n, f := Joined(before) + (w.gap + w.text) + r, |before| + 1, w.gap + w.text;
      && KeyText(t, None, Place(n, Some(c), false, Some(n), Some(e), false)) == f[c - 1..e]
      && KeyText(t, None, Place(n, None, false, Some(n), None, false)) == f
      && KeyText(t, None, Place(n, Some(c), false, None, None, false)) == (f + r)[c - 1..]
  {
    hide *;
    var n, f := |before| + 1, w.gap + w.text;
    PlacesParsed(n, c, e, false);
    WordKey(before, w, r, Place(n, Some(c), false, Some(n), Some(e), false));
    WordKey(before, w, r, Place(n, None, false, Some(n), None, false));
    WordKey(before, w, r, Place(n, Some(c), false, None, None, false));
    CharactersOf(f, r, n, c, e);
  }

  /** With `b` it counts from the word itself. */
  lemma WordCharacters(before: seq<Word>, w: Word, r: Text, c: nat, e: nat)
    requires Line(before + [w]) && (r == [] || Blank(r[0]))
    requires 1 <= c && 1 <= e && c - 1 <= e <= |w.text|
    ensures var t, n := Joined(before) + (w.gap + w.text) + r, |before| + 1;
      && KeyText(t, None, Place(n, Some(c), true, Some(n), Some(e), true)) == w.text[c - 1..e]
      && KeyText(t, None, Place(n, None, true, Some(n), None, true)) == w.text
      && KeyText(t, None, Place(n, Some(c), true, None, None, false)) == (w.text + r)[c - 1..]
  {
    hide *;
    var n, f := |before| + 1, w.gap + w.text;
    PlacesParsed(n, c, e, true);
    WordKey(before, w, r, Place(n, Some(c), true, Some(n), Some(e), true));
    WordKey(before, w, r, Place(n, None, true, Some(n), None, true));
    WordKey(before, w, r, Place(n, Some(c), true, None, None, false));
    Positions(f, f + r, n, c, e, true);
    Characters(w.gap, w.text, r, c, e);
  }

  // ---------- Fields that are not there ----------

  lemma AtTheEnd(t: Text, sep: Option<Byte>, n: nat)
    requires n >= 1 && FieldStart(t, sep, n, false) == |t| && FieldStart(t, sep, n, true) == |t|
    requires FieldEnd(t, sep, n) == |t|
    ensures FieldAt(t, sep, n, |t|, |t|)
  {
    assert t[|t|..] == [];
  }

  lemma NoFieldAt(fields: seq<Text>, b: Byte, f: Text, n: nat)
    requires AllWithout(fields, b) && Without(f, b) && n > |fields| + 1
    ensures var t := Closed(fields, b) + f; FieldAt(t, Some(b), n, |t|, |t|)
  {
    var t := Closed(fields, b) + f;
    NoSuchField([], fields, b, f, n - 1);
    assert [] + Closed(fields, b) + f == t;
    AtTheEnd(t, Some(b), n);
  }

  lemma OnlyBlanks(p: Text, r: Text, n: nat, text: bool)
    requires n >= 1 && forall i :: 0 <= i < |r| ==> Blank(r[i])
    ensures BlankAfter(p + r, |p|, n, text) == |p + r|
  {
    SkipBlanksIs(p + r, |p|, |p + r|);
  }

  lemma {:induction false} NoSuchWord(p: Text, words: seq<Word>, r: Text, n: nat, text: bool)
    requires Line(words) && (forall i :: 0 <= i < |r| ==> Blank(r[i])) && n > |words|
    ensures var t := p + Joined(words) + r; BlankAfter(t, |p|, n, text) == |t|
    decreases |words|
  {
    var t := p + Joined(words) + r;
    assert r == [] || Blank(r[0]);
    hide *;
    if words == [] {
      NoWords(p);
      OnlyBlanks(p, r, n, text);
    } else {
      var w, rest := words[0], Joined(words[1..]);
      LineRest(words, r);
      JoinedSplit(words);
      NoSuchWord(p + w.gap + w.text, words[1..], r, n - 1, text);
      RegroupEnd(p, w, rest, r);
      OverWord(p, w, rest + r);
      WordFirst(p, w, rest + r);
      BlankNext(t, |p|, n, text);
    }
  }

  lemma LineRest(words: seq<Word>, r: Text)
    requires words != [] && Line(words) && (r == [] || Blank(r[0]))
    ensures words[0].Valid() && Line(words[1..])
    ensures var s := Joined(words[1..]) + r; s == [] || Blank(s[0])
  {
    forall k | 0 <= k < |words[1..]| ensures words[1..][k] == words[k + 1] {
    }
    if |words| > 1 {
      var v := words[1];
      assert v == words[1..][0] && v.gap != [];
      JoinedSplit(words[1..]);
      hide Joined;
      assert (Joined(words[1..]) + r)[0] == v.gap[0];
    } else {
      assert Joined(words[1..]) + r == r;
    }
  }

  lemma RegroupEnd(p: Text, w: Word, rest: Text, r: Text)
    ensures p + (w.gap + w.text + rest) + r == p + w.gap + w.text + (rest + r)
    ensures p + (w.gap + w.text + rest) + r == (p + w.gap + w.text) + rest + r
  {
  }

  lemma NoWordAt(words: seq<Word>, r: Text, n: nat)
    requires Line(words) && (forall i :: 0 <= i < |r| ==> Blank(r[i])) && n > |words|
    ensures var t := Joined(words) + r; FieldAt(t, None, n, |t|, |t|)
  {
    var t := Joined(words) + r;
    NoSuchWord([], words, r, n, false);
    NoSuchWord([], words, r, n, true);
    hide Joined, Line, Lead;
    assert [] + Joined(words) + r == t;
    AtTheEnd(t, None, n);
  }

  lemma MissingStart(t: Text, sep: Option<Byte>, p: Place)
    requires Parsed(p) && FieldAt(t, sep, p.startField, |t|, |t|)
    ensures KeyText(t, sep, p) == []
  {
    hide FieldStart, FieldEnd;
  }

  lemma MissingEnd(a: Text, s: Text, sep: Option<Byte>, p: Place, to: nat)
    requires Parsed(p) && p.end.Some? && FieldAt(a + s, sep, p.startField, |a|, to)
    requires FieldAt(a + s, sep, p.end.value, |a + s|, |a + s|)
    ensures KeyText(a + s, sep, p) == From(s, StartIn(s, p))
  {
    hide *;
    var none: Text := [];
    assert s[|s|..|s| + |none|] == none;
    KeyIn(a, s, sep, p, to, |s|, none);
    WholeOf(s, StartIn(s, p), StopIn(none, s[|s|..], p));
  }

  lemma WholeOf(s: Text, m: nat, n: nat)
    ensures Between(s, m, |s| + n) == From(s, m)
  {
    assert s[..|s|] == s;
  }

  lemma LastText(a: Text, f: Text, x: Text, g: Text)
    ensures (a + (f + x)) + g == a + ((f + x) + g) && a + f + (x + g) == a + ((f + x) + g)
  {
  }

  /** A key whose first field the line does not have is empty; if only its last one is
      missing, it ends with the line. */
  lemma MissingField(before: seq<Text>, b: Byte, f: Text, after: seq<Text>, g: Text, p: Place, q: Place)
    requires AllWithout(before + [f] + after, b) && Without(g, b)
    requires Parsed(p) && p.startField > |before| + |after| + 2
    requires Parsed(q) && q.startField == |before| + 1 && q.end.Some? && q.end.value > |before| + |after| + 2
    ensures var s := f + [b] + Closed(after, b) + g;
      && KeyText(Closed(before, b) + s, Some(b), p) == []
      && KeyText(Closed(before, b) + s, Some(b), q) == From(s, StartIn(s, q))
  {
    hide *;
    var a, x, s := Closed(before, b), [b] + Closed(after, b), f + [b] + Closed(after, b) + g;
    Joint(f, b, Closed(after, b), g, []);
    ClosedAcross(before, b, f, after);
    LastText(a, f, x, g);
    AcrossFields(before, b, f, after);
    NoFieldAt(before + [f] + after, b, g, p.startField);
    NoFieldAt(before + [f] + after, b, g, q.end.value);
    SeparatedAt(before, b, f, x + g);
    MissingStart(a + s, Some(b), p);
    MissingEnd(a, s, Some(b), q, |a + f|);
  }

  /** The same among words, with blanks at the end of the line perhaps. */
  lemma MissingWord(words: seq<Word>, r: Text, p: Place)
    requires Line(words) && (forall i :: 0 <= i < |r| ==> Blank(r[i]))
    requires Parsed(p) && p.startField > |words|
    ensures KeyText(Joined(words) + r, None, p) == []
  {
    hide *;
    NoWordAt(words, r, p.startField);
    MissingStart(Joined(words) + r, None, p);
  }
}
