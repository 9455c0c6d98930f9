/** Key fields of a line (src/line.c): direct extraction, the two field caches
    that are filled once per line, and the shortcut for plain one-field keys. */
module Fields {
  import opened Bytes

  datatype Option<T> = None | Some(value: T)

  /** Where a key starts and ends.  `end` is the end field; the character
      offsets count from 1, and an end offset of 0 means the whole field. */
  datatype Place = Place(startField: nat, startChar: Option<nat>, startBlanks: bool,
                         end: Option<nat>, endChar: Option<nat>, endBlanks: bool)

  /** What the key parser guarantees: fields are numbered from 1. */
  predicate Parsed(p: Place) {
    p.startField >= 1 && (p.end.Some? ==> p.end.value >= 1)
  }

  predicate IsBlank(b: Byte) {
    b == 32 || b == 9
  }

  // ---------- Scanning ----------

  function SkipBlanks(t: Text, i: nat): (j: nat)
    requires i <= |t|
    ensures i <= j <= |t| && (j < |t| ==> !IsBlank(t[j]))
    ensures i < |t| && !IsBlank(t[i]) ==> j == i
    decreases |t| - i
  {
    if i < |t| && IsBlank(t[i]) then SkipBlanks(t, i + 1) else i
  }

  function SkipWord(t: Text, i: nat): (j: nat)
    requires i <= |t|
    ensures i <= j <= |t| && (j < |t| ==> IsBlank(t[j]))
    decreases |t| - i
  {
    if i < |t| && !IsBlank(t[i]) then SkipWord(t, i + 1) else i
  }

  function Find(t: Text, i: nat, b: Byte): (j: nat)
    requires i <= |t|
    ensures i <= j <= |t| && (j < |t| ==> t[j] == b)
    ensures forall k :: i <= k < j ==> t[k] != b
    decreases |t| - i
  {
    if i < |t| && t[i] != b then Find(t, i + 1, b) else i
  }

  lemma {:induction false} FindIs(t: Text, i: nat, j: nat, b: Byte)
    requires i <= j <= |t| && (forall k :: i <= k < j ==> t[k] != b) && (j < |t| ==> t[j] == b)
    ensures Find(t, i, b) == j
    decreases j - i
  {
    if i < j {
      FindIs(t, i + 1, j, b);
    }
  }

  method ScanNonblank(t: Text, i: nat) returns (j: nat)
    requires i <= |t|
    ensures j == SkipBlanks(t, i)
  {
    j := i;
    while j < |t| && IsBlank(t[j])
      invariant i <= j <= |t| && SkipBlanks(t, i) == SkipBlanks(t, j)
    {
      j := j + 1;
    }
  }

  method ScanBlank(t: Text, i: nat) returns (j: nat)
    requires i <= |t|
    ensures j == SkipWord(t, i)
  {
    j := i;
    while j < |t| && !IsBlank(t[j])
      invariant i <= j <= |t| && SkipWord(t, i) == SkipWord(t, j)
    {
      j := j + 1;
    }
  }

  method FindByte(t: Text, i: nat, b: Byte) returns (j: nat)
    requires i <= |t|
    ensures j == Find(t, i, b)
  {
    j := i;
    while j < |t| && t[j] != b
      invariant i <= j <= |t| && Find(t, i, b) == Find(t, j, b)
    {
      j := j + 1;
    }
  }

  // ---------- Fields between separators ----------

  /** Start of the `n`-th field after the one at `i`; the end of the line if
      there are not so many. */
  function ExplicitAfter(t: Text, sep: Byte, i: nat, n: nat): (j: nat)
    requires i <= |t|
    ensures i <= j <= |t|
    decreases n
  {
    if n == 0 then i
    else if Find(t, i, sep) == |t| then |t|
    else ExplicitAfter(t, sep, Find(t, i, sep) + 1, n - 1)
  }

  function ExplicitStart(t: Text, sep: Byte, field: nat): (j: nat)
    requires field >= 1
    ensures j <= |t|
  {
    ExplicitAfter(t, sep, 0, field - 1)
  }

  method ExplicitFieldStart(t: Text, sep: Byte, field: nat) returns (j: nat)
    requires field >= 1
    ensures j == ExplicitStart(t, sep, field)
  {
    if field == 1 {
      return 0;
    }
    var current, i := 1, 0;
    while i < |t|
      invariant 1 <= current < field && 0 <= i <= |t|
      invariant ExplicitStart(t, sep, field) == ExplicitAfter(t, sep, i, field - current)
    {
      var hit := FindByte(t, i, sep);
      if hit == |t| {
        return |t|;
      }
      i := hit + 1;
      current := current + 1;
      if current == field {
        return i;
      }
    }
    j := |t|;
  }

  // ---------- Fields between blanks ----------

  /** Blanks before the `n`-th field from `i`, or its first byte (`text`). */
  function BlankAfter(t: Text, i: nat, n: nat, text: bool): (j: nat)
    requires i <= |t| && n >= 1
    ensures i <= j <= |t|
    decreases n
  {
    var s := SkipBlanks(t, i);
    if s == |t| then |t|
    else if n == 1 then (if text then s else i)
    else BlankAfter(t, SkipWord(t, s), n - 1, text)
  }

  function BlankStart(t: Text, field: nat, text: bool): (j: nat)
    requires field >= 1
    ensures j <= |t|
  {
    BlankAfter(t, 0, field, text)
  }

  function BlankEnd(t: Text, start: nat): (j: nat)
    requires start <= |t|
    ensures start <= j <= |t|
  {
    SkipWord(t, SkipBlanks(t, start))
  }

  method BlankFieldStart(t: Text, field: nat, text: bool) returns (j: nat)
    requires field >= 1
    ensures j == BlankStart(t, field, text)
  {
    var i, current := 0, 0;
    while i < |t|
      invariant 0 <= i <= |t| && 0 <= current < field
      invariant BlankStart(t, field, text) == BlankAfter(t, i, field - current, text)
      decreases |t| - i
    {
      var blanks := i;
      i := ScanNonblank(t, i);
      if i == |t| {
        return |t|;
      }
      current := current + 1;
      if current == field {
        return if text then i else blanks;
      }
      i := ScanBlank(t, i);
    }
    j := |t|;
  }

  /** Blanks in front of a field do not change where it ends. */
  lemma BlankEndSame(t: Text, field: nat)
    requires field >= 1
    ensures BlankEnd(t, BlankStart(t, field, true)) == BlankEnd(t, BlankStart(t, field, false))
  {
    BlankEndSameFrom(t, 0, field);
  }

  lemma {:induction false} BlankEndSameFrom(t: Text, i: nat, n: nat)
    requires i <= |t| && n >= 1
    ensures BlankEnd(t, BlankAfter(t, i, n, true)) == BlankEnd(t, BlankAfter(t, i, n, false))
    decreases n
  {
    if SkipBlanks(t, i) < |t| && n > 1 {
      BlankEndSameFrom(t, SkipWord(t, SkipBlanks(t, i)), n - 1);
    }
  }

  // ---------- Key spans ----------

  datatype Span = Span(start: nat, end: nat)

  function Min(a: nat, b: nat): nat {
    if a < b then a else b
  }

  function FieldStart(t: Text, sep: Option<Byte>, field: nat, blanks: bool): (j: nat)
    requires field >= 1
    ensures j <= |t|
  {
    match sep
    case Some(b) =>
      var s := ExplicitStart(t, b, field);
      if blanks then SkipBlanks(t, s) else s
    case None => BlankStart(t, field, blanks)
  }

  function FieldEnd(t: Text, sep: Option<Byte>, field: nat): (j: nat)
    requires field >= 1
    ensures j <= |t|
  {
    match sep
    case Some(b) => Find(t, ExplicitStart(t, b, field), b)
    case None => BlankEnd(t, BlankStart(t, field, false))
  }

  function StartOffset(p: Place): nat {
    if p.startChar.Some? && p.startChar.value > 0 then p.startChar.value - 1 else 0
  }

  predicate HasEndOffset(p: Place) {
    p.end.Some? && p.endChar.Some? && p.endChar.value > 0
  }

  function Clipped(t: Text, start: nat, limit: nat): (s: Span)
    ensures s.start <= s.end <= |t|
  {
    var from, to := Min(start, |t|), Min(limit, |t|);
    Span(from, if to < from then from else to)
  }

  /** The key as the positions define it: a start, a limit, and nothing at all
      when the limit lies before the start. */
  function KeySpan(t: Text, sep: Option<Byte>, p: Place): (s: Span)
    requires Parsed(p)
    ensures s.start <= s.end <= |t|
  {
    Clipped(t, FieldStart(t, sep, p.startField, p.startBlanks) + StartOffset(p), Limit(t, sep, p))
  }

  function Limit(t: Text, sep: Option<Byte>, p: Place): nat
    requires Parsed(p)
  {
    if p.end.None? then |t|
    else if HasEndOffset(p) then FieldStart(t, sep, p.end.value, p.endBlanks) + p.endChar.value
    else FieldEnd(t, sep, p.end.value)
  }

  /** The key text of a line. */
  function KeyText(t: Text, sep: Option<Byte>, p: Place): Text
    requires Parsed(p)
  {
    var s := KeySpan(t, sep, p);
    t[s.start..s.end]
  }

  /** The adjustments every extractor ends with. */
  method Clip(t: Text, start: nat, limit: nat) returns (s: Span)
    ensures s == Clipped(t, start, limit)
  {
    var from, to := start, limit;
    if from > |t| {
      from := |t|;
    }
    if to > |t| {
      to := |t|;
    }
    if to < from {
      to := from;
    }
    s := Span(from, to);
  }

  /** Moves `from` on by `add` bytes, but not past the end of the line. */
  method Advance(t: Text, from: nat, add: nat) returns (to: nat)
    requires from <= |t|
    ensures to == Min(from + add, |t|)
  {
    to := if add > |t| - from then |t| else from + add;
  }

  method FindFieldStart(t: Text, sep: Option<Byte>, field: nat, blanks: bool) returns (j: nat)
    requires field >= 1
    ensures j == FieldStart(t, sep, field, blanks)
  {
    match sep {
      case Some(b) =>
        j := ExplicitFieldStart(t, b, field);
        if blanks {
          j := ScanNonblank(t, j);
        }
      case None =>
        j := BlankFieldStart(t, field, blanks);
    }
  }

  method FindFieldEnd(t: Text, sep: Option<Byte>, field: nat, blanks: bool) returns (j: nat)
    requires field >= 1
    ensures j == FieldEnd(t, sep, field)
  {
    match sep {
      case Some(b) =>
        j := ExplicitFieldStart(t, b, field);
        j := FindByte(t, j, b);
      case None =>
        j := BlankFieldStart(t, field, blanks);
        BlankEndSame(t, field);
        j := ScanNonblank(t, j);
        j := ScanBlank(t, j);
    }
  }

  method ApplyStart(t: Text, start: nat, p: Place) returns (r: nat)
    requires start <= |t|
    ensures r == Min(start + StartOffset(p), |t|)
  {
    r := start;
    if p.startChar.Some? {
      r := Advance(t, start, if p.startChar.value == 0 then 0 else p.startChar.value - 1);
    }
  }

  lemma KeySpanFrom(t: Text, sep: Option<Byte>, p: Place, start: nat, limit: nat)
    requires Parsed(p)
    requires start == Min(FieldStart(t, sep, p.startField, p.startBlanks) + StartOffset(p), |t|)
    requires limit == Min(Limit(t, sep, p), |t|)
    ensures Clipped(t, start, limit) == KeySpan(t, sep, p)
  {
  }

  lemma WholeLimit(t: Text, sep: Option<Byte>, p: Place)
    requires Parsed(p)
    ensures p.end.None? ==> Min(Limit(t, sep, p), |t|) == |t|
    ensures p.end.Some? && !HasEndOffset(p) ==> Min(Limit(t, sep, p), |t|) == FieldEnd(t, sep, p.end.value)
    ensures HasEndOffset(p) ==>
      Limit(t, sep, p) == FieldStart(t, sep, p.end.value, p.endBlanks) + p.endChar.value
  {
  }

  method ExtractKeySpan(t: Text, sep: Option<Byte>, p: Place) returns (s: Span)
    requires Parsed(p)
    ensures s == KeySpan(t, sep, p)
  {
    WholeLimit(t, sep, p);
    hide FieldStart, FieldEnd, Limit, KeySpan, Clipped, Min, StartOffset;
    var start := FindFieldStart(t, sep, p.startField, p.startBlanks);
    var limit := |t|;
    if p.end.Some? {
      limit := FindFieldEnd(t, sep, p.end.value, p.endBlanks);
    }
    start := ApplyStart(t, start, p);
    if p.end.Some? && p.endChar.Some? && p.endChar.value > 0 {
      var from := FindFieldStart(t, sep, p.end.value, p.endBlanks);
      limit := Advance(t, from, p.endChar.value);
    }
    KeySpanFrom(t, sep, p, start, limit);
    s := Clip(t, start, limit);
  }

  // ---------- The cache for separators ----------

  ghost predicate ExplicitEntry(t: Text, sep: Byte, field: nat, start: nat, end: nat) {
    field >= 1 && start == ExplicitStart(t, sep, field) && end == Find(t, start, sep)
  }

  ghost predicate ExplicitCache(t: Text, sep: Byte, starts: seq<nat>, ends: seq<nat>) {
    |starts| == |ends| && forall f :: 1 <= f < |starts| ==> ExplicitEntry(t, sep, f, starts[f], ends[f])
  }

  /** Fields from `field` on are those that follow position `i`. */
  ghost predicate ExplicitAt(t: Text, sep: Byte, field: nat, i: nat) {
    && field >= 1 && i <= |t|
    && forall f :: f >= field ==> ExplicitStart(t, sep, f) == ExplicitAfter(t, sep, i, f - field)
  }

  lemma ExplicitNext(t: Text, sep: Byte, field: nat, i: nat)
    requires ExplicitAt(t, sep, field, i)
    ensures ExplicitStart(t, sep, field) == i
    ensures Find(t, i, sep) < |t| ==> ExplicitAt(t, sep, field + 1, Find(t, i, sep) + 1)
    ensures Find(t, i, sep) == |t| ==> forall f :: f > field ==> ExplicitStart(t, sep, f) == |t|
  {
    assert ExplicitAfter(t, sep, i, 0) == i;
    forall f | f > field
      ensures ExplicitStart(t, sep, f) ==
              (if Find(t, i, sep) == |t| then |t| else ExplicitAfter(t, sep, Find(t, i, sep) + 1, f - field - 1))
    {
    }
  }

  /** Entries below `field` are final, the rest still hold the line's end. */
  ghost predicate ExplicitDone(t: Text, sep: Byte, field: nat, starts: seq<nat>, ends: seq<nat>) {
    && |starts| == |ends|
    && (forall f :: 1 <= f < field && f < |starts| ==> ExplicitEntry(t, sep, f, starts[f], ends[f]))
    && (forall f :: field < f < |starts| ==> starts[f] == |t|)
    && (forall f :: field <= f < |ends| ==> ends[f] == |t|)
  }

  lemma ExplicitFinish(t: Text, sep: Byte, field: nat, i: nat, starts: seq<nat>, ends: seq<nat>)
    requires ExplicitDone(t, sep, field, starts, ends) && ExplicitAt(t, sep, field, i)
    requires field < |starts| ==> starts[field] == i
    requires field >= |starts| || Find(t, i, sep) == |t|
    ensures ExplicitCache(t, sep, starts, ends)
  {
    ExplicitNext(t, sep, field, i);
    forall f | 1 <= f < |starts| ensures ExplicitEntry(t, sep, f, starts[f], ends[f]) {
      if f > field {
        assert ExplicitStart(t, sep, f) == |t|;
      }
    }
  }

  lemma ExplicitStep(t: Text, sep: Byte, field: nat, i: nat, s: seq<nat>, e: seq<nat>, s': seq<nat>, e': seq<nat>)
    requires ExplicitDone(t, sep, field, s, e) && ExplicitAt(t, sep, field, i)
    requires field < |s| && s[field] == i && Find(t, i, sep) < |t|
    requires e' == e[field := Find(t, i, sep)]
    requires s' == if field + 1 < |s| then s[field + 1 := Find(t, i, sep) + 1] else s
    ensures ExplicitDone(t, sep, field + 1, s', e')
  {
    ExplicitNext(t, sep, field, i);
    assert ExplicitEntry(t, sep, field, s'[field], e'[field]);
    forall f | 1 <= f < field ensures ExplicitEntry(t, sep, f, s'[f], e'[f]) {
      assert s'[f] == s[f] && e'[f] == e[f];
    }
  }

  method ClearCache(t: Text, starts: array<nat>, ends: array<nat>)
    requires starts != ends && starts.Length == ends.Length
    modifies starts, ends
    ensures forall f :: 0 <= f < starts.Length ==> starts[f] == |t| && ends[f] == |t|
  {
    var f := 0;
    while f < starts.Length
      invariant 0 <= f <= starts.Length
      invariant forall g :: 0 <= g < f ==> starts[g] == |t| && ends[g] == |t|
    {
      starts[f], ends[f] := |t|, |t|;
      f := f + 1;
    }
  }

  /** One pass over the line fills the bounds of every field up to the largest
      that a key names. */
  method FillExplicitCache(t: Text, sep: Byte, starts: array<nat>, ends: array<nat>)
    requires starts != ends && starts.Length == ends.Length >= 1
    modifies starts, ends
    ensures ExplicitCache(t, sep, starts[..], ends[..])
  {
    ClearCache(t, starts, ends);
    hide ExplicitEntry, ExplicitStart, ExplicitAfter, Find;
    if starts.Length == 1 {
      return;
    }
    var field: nat, i: nat := 1, 0;
    starts[field] := 0;
    FirstExplicit(t, sep);
    while i < |t| && field < starts.Length
      invariant 1 <= field <= starts.Length && i <= |t|
      invariant ExplicitAt(t, sep, field, i)
      invariant field < starts.Length ==> starts[field] == i
      invariant ExplicitDone(t, sep, field, starts[..], ends[..])
      decreases |t| - i
    {
      ghost var s, e := starts[..], ends[..];
      var pos := FindByte(t, i, sep);
      if pos == |t| {
        break;
      }
      ExplicitNext(t, sep, field, i);
      ends[field] := pos;
      if field + 1 < starts.Length {
        starts[field + 1] := pos + 1;
      }
      ExplicitStep(t, sep, field, i, s, e, starts[..], ends[..]);
      field, i := field + 1, pos + 1;
    }
    FindEnd(t, i, sep);
    ExplicitFinish(t, sep, field, i, starts[..], ends[..]);
  }

  lemma FirstExplicit(t: Text, sep: Byte)
    ensures ExplicitAt(t, sep, 1, 0)
  {
  }

  lemma FindEnd(t: Text, i: nat, sep: Byte)
    requires i <= |t|
    ensures i == |t| ==> Find(t, i, sep) == |t|
  {
  }

  // ---------- The cache for blanks ----------

  ghost predicate BlankEntry(t: Text, field: nat, blank: nat, text: nat, end: nat) {
    && field >= 1 && blank == BlankStart(t, field, false) && text == BlankStart(t, field, true)
    && end == BlankEnd(t, blank)
  }

  ghost predicate BlankCache(t: Text, blanks: seq<nat>, texts: seq<nat>, ends: seq<nat>) {
    && |blanks| == |texts| == |ends|
    && forall f :: 1 <= f < |blanks| ==> BlankEntry(t, f, blanks[f], texts[f], ends[f])
  }

  ghost predicate BlankAt(t: Text, field: nat, i: nat) {
    && i <= |t|
    && (forall f :: f > field ==> BlankStart(t, f, false) == BlankAfter(t, i, f - field, false))
    && (forall f :: f > field ==> BlankStart(t, f, true) == BlankAfter(t, i, f - field, true))
  }

  lemma BlankNext(t: Text, field: nat, i: nat)
    requires BlankAt(t, field, i)
    ensures SkipBlanks(t, i) < |t| ==> BlankAt(t, field + 1, SkipWord(t, SkipBlanks(t, i)))
    ensures SkipBlanks(t, i) < |t| ==>
            BlankEntry(t, field + 1, i, SkipBlanks(t, i), SkipWord(t, SkipBlanks(t, i)))
    ensures SkipBlanks(t, i) == |t| ==> forall f :: f > field ==> BlankEntry(t, f, |t|, |t|, |t|)
  {
    var s := SkipBlanks(t, i);
    forall f: nat, x: bool | f > field ensures BlankStart(t, f, x) == BlankAfter(t, i, f - field, x) {
    }
    if s < |t| {
      forall f: nat, x: bool | f > field + 1
        ensures BlankStart(t, f, x) == BlankAfter(t, SkipWord(t, s), f - (field + 1), x)
      {
      }
    } else {
      assert BlankEnd(t, |t|) == |t|;
      forall f | f > field ensures BlankEntry(t, f, |t|, |t|, |t|) {
        assert BlankAfter(t, i, f - field, false) == |t| && BlankAfter(t, i, f - field, true) == |t|;
      }
    }
  }

  ghost predicate BlankDone(t: Text, field: nat, blanks: seq<nat>, texts: seq<nat>, ends: seq<nat>) {
    && |blanks| == |texts| == |ends|
    && (forall f :: 1 <= f <= field && f < |blanks| ==> BlankEntry(t, f, blanks[f], texts[f], ends[f]))
    && (forall f :: field < f < |blanks| ==> blanks[f] == |t| && texts[f] == |t| && ends[f] == |t|)
  }

  lemma BlankFinish(t: Text, field: nat, i: nat, blanks: seq<nat>, texts: seq<nat>, ends: seq<nat>)
    requires BlankDone(t, field, blanks, texts, ends) && BlankAt(t, field, i)
    requires SkipBlanks(t, i) == |t| || field + 1 == |blanks|
    ensures BlankCache(t, blanks, texts, ends)
  {
    BlankNext(t, field, i);
    forall f | 1 <= f < |blanks| ensures BlankEntry(t, f, blanks[f], texts[f], ends[f]) {
      if f > field {
        assert BlankEntry(t, f, |t|, |t|, |t|);
      }
    }
  }

  lemma BlankStep(t: Text, field: nat, i: nat, b: seq<nat>, x: seq<nat>, e: seq<nat>)
    requires BlankDone(t, field, b, x, e) && BlankAt(t, field, i)
    requires field + 1 < |b| && SkipBlanks(t, i) < |t|
    ensures BlankDone(t, field + 1, b[field + 1 := i], x[field + 1 := SkipBlanks(t, i)],
                      e[field + 1 := SkipWord(t, SkipBlanks(t, i))])
  {
    BlankNext(t, field, i);
  }

  lemma FirstBlank(t: Text)
    ensures BlankAt(t, 0, 0)
  {
  }

  method FillBlankCache(t: Text, blanks: array<nat>, texts: array<nat>, ends: array<nat>)
    requires blanks != texts && blanks != ends && texts != ends
    requires blanks.Length == texts.Length == ends.Length >= 1
    modifies blanks, texts, ends
    ensures BlankCache(t, blanks[..], texts[..], ends[..])
  {
    ClearCache(t, blanks, ends);
    ClearCache(t, texts, ends);
    hide BlankEntry, BlankStart, BlankAfter, SkipBlanks, SkipWord;
    FirstBlank(t);
    var i: nat, field: nat := 0, 0;
    while i < |t| && field < blanks.Length - 1
      invariant i <= |t| && field < blanks.Length
      invariant BlankAt(t, field, i)
      invariant BlankDone(t, field, blanks[..], texts[..], ends[..])
      decreases |t| - i
    {
      ghost var b, x, e := blanks[..], texts[..], ends[..];
      var from := i;
      var word := ScanNonblank(t, i);
      if word == |t| {
        BlankFinish(t, field, i, b, x, e);
        return;
      }
      BlankStep(t, field, i, b, x, e);
      BlankNext(t, field, i);
      WordIsLonger(t, word);
      i := ScanBlank(t, word);
      field := field + 1;
      blanks[field] := from;
      texts[field] := word;
      ends[field] := i;
      assert blanks[..] == b[field := from] && texts[..] == x[field := word] && ends[..] == e[field := i];
    }
    LineEnd(t, i);
    BlankFinish(t, field, i, blanks[..], texts[..], ends[..]);
  }

  lemma WordIsLonger(t: Text, i: nat)
    requires i < |t| && !IsBlank(t[i])
    ensures SkipWord(t, i) > i
  {
  }

  lemma LineEnd(t: Text, i: nat)
    requires i <= |t|
    ensures i == |t| ==> SkipBlanks(t, i) == |t|
  {
  }

  // ---------- Extraction from the caches ----------

  /** A cache serves a key when it covers the fields the key names. */
  predicate Covers(fields: nat, p: Place) {
    p.startField < fields && (p.end.Some? ==> p.end.value < fields)
  }

  lemma ExplicitBounds(t: Text, sep: Byte, field: nat, starts: seq<nat>, ends: seq<nat>)
    requires ExplicitCache(t, sep, starts, ends) && 1 <= field < |starts|
    ensures starts[field] <= |t|
    ensures FieldStart(t, Some(sep), field, false) == starts[field]
    ensures FieldStart(t, Some(sep), field, true) ==
            (if starts[field] < |t| then SkipBlanks(t, starts[field]) else starts[field])
    ensures FieldEnd(t, Some(sep), field) == ends[field]
  {
    assert ExplicitEntry(t, sep, field, starts[field], ends[field]);
  }

  method ExplicitSpanCached(t: Text, sep: Byte, p: Place, starts: array<nat>, ends: array<nat>) returns (s: Span)
    requires Parsed(p) && ExplicitCache(t, sep, starts[..], ends[..]) && Covers(starts.Length, p)
    ensures s == KeySpan(t, Some(sep), p)
  {
    CacheLengths(t, sep, starts[..], ends[..]);
    ExplicitBounds(t, sep, p.startField, starts[..], ends[..]);
    if p.end.Some? {
      ExplicitBounds(t, sep, p.end.value, starts[..], ends[..]);
    }
    WholeLimit(t, Some(sep), p);
    hide FieldStart, FieldEnd, ExplicitCache, Limit, KeySpan, Clipped, Min, StartOffset;
    var start := starts[p.startField];
    var limit := if p.end.Some? then ends[p.end.value] else |t|;
    if p.startBlanks && start < |t| {
      start := ScanNonblank(t, start);
    }
    start := ApplyStart(t, start, p);
    if p.end.Some? && p.endChar.Some? && p.endChar.value > 0 {
      var from := starts[p.end.value];
      if p.endBlanks && from < |t| {
        from := ScanNonblank(t, from);
      }
      limit := Advance(t, from, p.endChar.value);
    }
    KeySpanFrom(t, Some(sep), p, start, limit);
    s := Clip(t, start, limit);
  }

  lemma CacheLengths(t: Text, sep: Byte, starts: seq<nat>, ends: seq<nat>)
    requires ExplicitCache(t, sep, starts, ends)
    ensures |starts| == |ends|
  {
  }

  lemma BlankBounds(t: Text, field: nat, blanks: seq<nat>, texts: seq<nat>, ends: seq<nat>)
    requires BlankCache(t, blanks, texts, ends) && 1 <= field < |blanks|
    ensures |blanks| == |texts| == |ends| && blanks[field] <= |t| && texts[field] <= |t|
    ensures FieldStart(t, None, field, false) == blanks[field]
    ensures FieldStart(t, None, field, true) == texts[field]
    ensures FieldEnd(t, None, field) == ends[field]
  {
    assert BlankEntry(t, field, blanks[field], texts[field], ends[field]);
  }

  method BlankSpanCached(t: Text, p: Place, blanks: array<nat>, texts: array<nat>, ends: array<nat>) returns (s: Span)
    requires Parsed(p) && BlankCache(t, blanks[..], texts[..], ends[..]) && Covers(blanks.Length, p)
    ensures s == KeySpan(t, None, p)
  {
    BlankBounds(t, p.startField, blanks[..], texts[..], ends[..]);
    if p.end.Some? {
      BlankBounds(t, p.end.value, blanks[..], texts[..], ends[..]);
    }
    WholeLimit(t, None, p);
    hide FieldStart, FieldEnd, BlankCache, Limit, KeySpan, Clipped, Min, StartOffset;
    var start := if p.startBlanks then texts[p.startField] else blanks[p.startField];
    var limit := if p.end.Some? then ends[p.end.value] else |t|;
    start := ApplyStart(t, start, p);
    if p.end.Some? && p.endChar.Some? && p.endChar.value > 0 {
      var from := if p.endBlanks then texts[p.end.value] else blanks[p.end.value];
      limit := Advance(t, from, p.endChar.value);
    }
    KeySpanFrom(t, None, p, start, limit);
    s := Clip(t, start, limit);
  }

  // ---------- All keys of a line ----------

  /** The largest field that a key names. */
  method MaxField(places: seq<Place>) returns (m: nat)
    ensures forall k :: 0 <= k < |places| ==> Covers(m + 1, places[k])
  {
    m := 0;
    for i := 0 to |places|
      invariant forall k :: 0 <= k < i ==> Covers(m + 1, places[k])
    {
      if places[i].startField > m {
        m := places[i].startField;
      }
      if places[i].end.Some? && places[i].end.value > m {
        m := places[i].end.value;
      }
    }
  }

  ghost predicate AllParsed(places: seq<Place>) {
    forall k :: 0 <= k < |places| ==> Parsed(places[k])
  }

  /** `rank_lines_prepare_keys` for one line: with several keys a cache is filled
      and shared, with a single key the span is found directly. */
  method LineKeySpans(t: Text, sep: Option<Byte>, places: seq<Place>) returns (spans: seq<Span>)
    requires AllParsed(places)
    ensures |spans| == |places| && forall k :: 0 <= k < |places| ==> spans[k] == KeySpan(t, sep, places[k])
  {
    hide KeySpan, ExplicitCache, BlankCache;
    spans := [];
    var max := MaxField(places);
    var starts, texts, ends := new nat[max + 1], new nat[max + 1], new nat[max + 1];
    var cached := |places| > 1;
    if cached {
      match sep {
        case Some(b) => FillExplicitCache(t, b, starts, ends);
        case None => FillBlankCache(t, starts, texts, ends);
      }
    }
    for i := 0 to |places|
      invariant |spans| == i && forall k :: 0 <= k < i ==> spans[k] == KeySpan(t, sep, places[k])
      invariant cached && sep.Some? ==> ExplicitCache(t, sep.value, starts[..], ends[..])
      invariant cached && sep.None? ==> BlankCache(t, starts[..], texts[..], ends[..])
    {
      var span;
      if cached && sep.Some? {
        span := ExplicitSpanCached(t, sep.value, places[i], starts, ends);
      } else if cached {
        span := BlankSpanCached(t, places[i], starts, texts, ends);
      } else {
        span := ExtractKeySpan(t, sep, places[i]);
      }
      spans := spans + [span];
    }
  }

  // ---------- Plain one-field keys ----------

  /** The shapes for which merge and check take the shortcut. */
  predicate Simple(sep: Option<Byte>, p: Place) {
    && p.startField > 0 && p.startChar.None? && p.endChar.None?
    && p.end == Some(p.startField)
    && (sep.Some? ==> !p.startBlanks && !p.endBlanks)
  }

  function SimpleSpan(t: Text, sep: Option<Byte>, p: Place): Span
    requires p.startField >= 1
  {
    match sep
    case Some(b) =>
      var start := FieldStart(t, sep, p.startField, p.startBlanks);
      Span(start, Find(t, start, b))
    case None =>
      var start := BlankStart(t, p.startField, p.startBlanks);
      Span(start, BlankEnd(t, start))
  }

  method SimpleKeySpan(t: Text, sep: Option<Byte>, p: Place) returns (s: Span)
    requires p.startField >= 1
    ensures s == SimpleSpan(t, sep, p) && s.start <= s.end <= |t|
  {
    var start := FindFieldStart(t, sep, p.startField, p.startBlanks);
    var end;
    match sep {
      case Some(b) =>
        end := FindByte(t, start, b);
      case None =>
        end := ScanNonblank(t, start);
        end := ScanBlank(t, end);
    }
    s := Span(start, end);
  }

  /** The shortcut gives the key itself on every shape it is used for. */
  lemma SimpleSpanExact(t: Text, sep: Option<Byte>, p: Place)
    requires Simple(sep, p)
    ensures SimpleSpan(t, sep, p) == KeySpan(t, sep, p)
  {
    BlankEndSame(t, p.startField);
  }

  /** Why separators with `b` are kept out: skipping blanks may leave the field,
      and then the shortcut would take the next one. */
  lemma SimpleSpanNeedsGuard()
    ensures var p := Place(1, None, true, Some(1), None, false);
            KeyText([32, 65], Some(32), p) == [] &&
            SimpleSpan([32, 65], Some(32), p) == Span(1, 2)
  {
    var t: Text := [32, 65];
    assert ExplicitStart(t, 32, 1) == 0;
    assert SkipBlanks(t, 1) == 1 && SkipBlanks(t, 0) == 1;
    assert Find(t, 2, 32) == 2 && Find(t, 1, 32) == 2 && Find(t, 0, 32) == 0;
  }
}
