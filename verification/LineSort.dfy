/** `rank_radix_sort_lines`: sorting the lines of a buffer by their bytes. */
module LineSort {
  import opened Bytes
  import opened InPlaceRadix
  import MergeSort
  import opened Orders
  import ParallelLines
  import opened StableRadix
  import Threads

  const UINT32_MAX := 0xFFFF_FFFF

  /** A record of the buffer.  The span is what sorting moves; the ordinal and
      key index stay with the array slot. */
  datatype Line = Line(span: Span, ordinal: nat, keyIndex: nat)

  datatype Span = Span(off: nat, len: nat)

  function SpanText(data: Text): Span -> Text {
    (p: Span) => if p.off + p.len <= |data| then data[p.off..p.off + p.len] else []
  }

  function LineText(data: Text): Line -> Text {
    (l: Line) => SpanText(data)(l.span)
  }

  ghost function Spans(lines: seq<Line>): (r: seq<Span>)
    ensures |r| == |lines|
    ensures forall i :: 0 <= i < |lines| ==> r[i] == lines[i].span
  {
    seq(|lines|, i requires 0 <= i < |lines| => lines[i].span)
  }

  /** Any sorted permutation shows the same texts as the stable sort, so an
      unstable engine may stand in for the oracle on whole lines. */
  lemma SortedPermutationTexts<T(!new)>(key: T -> Text, s: seq<T>, t: seq<T>)
    requires SortedPermutation(key, s, t)
    ensures Map(key, t) == Map(key, StableSort(KeyOrder(key, false), s))
  {
    var c := KeyOrder(key, false);
    var u := StableSort(c, s);
    KeyOrderPreorder(key, false);
    StableSortStable(c, s);
    SameClassesPermutes(c, s, u);
    PermutationClassSizes(c, t, u);
    SortedAlike(c, t, u);
  }

  // ---------- The public entry point ----------

  ghost predicate InBuffer(data: Text, lines: seq<Line>) {
    forall i :: 0 <= i < |lines| ==> lines[i].span.off + lines[i].span.len <= |data|
  }

  ghost function Texts(data: Text, lines: seq<Line>): seq<Text> {
    Map(SpanText(data), Spans(lines))
  }

  /** The texts of a buffer in byte order. */
  ghost function SortedTexts(data: Text, lines: seq<Line>): seq<Text> {
    Map(SpanText(data), StableSort(KeyOrder(SpanText(data), false), Spans(lines)))
  }

  method RadixSortLines(lines: array<Line>, data: Text, par: Threads.Parallelism) returns (ok: bool)
    requires InBuffer(data, lines[..])
    modifies lines
    ensures !ok <==> lines.Length >= 2 && |data| > UINT32_MAX
    ensures !ok ==> lines[..] == old(lines[..])
    ensures ok ==> Texts(data, lines[..]) == SortedTexts(data, old(lines[..]))
    ensures multiset(Spans(lines[..])) == multiset(Spans(old(lines[..])))
    ensures forall i :: 0 <= i < lines.Length ==> lines[i].ordinal == old(lines[i].ordinal) && lines[i].keyIndex == old(lines[i].keyIndex)
  {
    ghost var s := Spans(lines[..]);
    if lines.Length < 2 {
      MergeSort.StableSortSmall(KeyOrder(SpanText(data), false), s);
      return true;
    }
    if |data| > UINT32_MAX {
      return false;
    }
    var items := new Span[lines.Length](i requires 0 <= i < lines.Length reads lines => lines[i].span);
    assert items[0..lines.Length] == s;
    var threads := Threads.ThreadsFor(par, lines.Length);
    if threads > 1 {
      ParallelLines.LinesThreaded(items, 0, lines.Length, SpanText(data), threads, par.world);
    } else {
      InPlaceRadix.RadixRange(items, 0, lines.Length, SpanText(data), 0);
    }
    ghost var t := items[0..lines.Length];
    WriteBack(lines, items);
    assert Spans(lines[..]) == t;
    SortedPermutationTexts(SpanText(data), s, t);
    return true;
  }

  method WriteBack(lines: array<Line>, items: array<Span>)
    requires items.Length == lines.Length
    modifies lines
    ensures forall i :: 0 <= i < lines.Length ==> lines[i] == old(lines[i]).(span := items[i])
  {
    for i := 0 to lines.Length
      invariant forall k :: 0 <= k < i ==> lines[k] == old(lines[k]).(span := items[k])
      invariant forall k :: i <= k < lines.Length ==> lines[k] == old(lines[k])
      invariant forall k :: 0 <= k < lines.Length ==> items[k] == old(items[k])
    {
      lines[i] := lines[i].(span := items[i]);
    }
  }
}
