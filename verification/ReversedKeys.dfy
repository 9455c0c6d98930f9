/** An input on which the keyed engine writes something else than the scalar one. */
module ReversedKeys {
  import opened Bytes
  import opened Comparator
  import opened External
  import Fields
  import opened Insertion
  import opened KeyEngine
  import KeyExact
  import opened LineSort
  import opened Orders
  import opened RankSort
  import opened Records
  import R = StableRadix

  /** The first field, sorted in reverse: `-k1,1r`, with `-s` or with `-u`. */
  function FirstFieldReversed(stable: bool): Options {
    var none := Modifiers(false, false, false);
    var field := Fields.Place(1, Fields.None, false, Fields.Some(1), Fields.None, false);
    Options(ByBytes, none, false, false, stable, !stable, Fields.None, [Comparator.Key(field, none, true, ByBytes)])
  }

  /** A line "ab" followed by a blank and one more byte. */
  function Numbered(i: nat): Text
    requires i < 49
  {
    [97, 98, 32, 48 + i]
  }

  function NumberedLines(): (r: seq<Text>)
    ensures |r| == 49 && forall i :: 0 <= i < 49 ==> r[i] == Numbered(i)
  {
    seq(49, i requires 0 <= i < 49 => Numbered(i))
  }

  /** Forty-nine such lines, and one that reads "c". */
  function Sample(): seq<Text> {
    NumberedLines() + [[99]]
  }

  lemma SampleKeys(stable: bool)
    ensures var p := TextPlan(FirstFieldReversed(stable));
      && ValidOptions(FirstFieldReversed(stable)) && |p.keys| == 1 && p.keys[0].reverse && !p.LastResort() && !p.reverse
      && p.unique != stable && p.text == ((t: Text) => t)
      && (forall i :: 0 <= i < 49 ==> p.keys[0].span(Numbered(i)) == [97, 98])
      && p.keys[0].span([99]) == [99]
  {
    var place := Fields.Place(1, Fields.None, false, Fields.Some(1), Fields.None, false);
    forall i | 0 <= i < 49 ensures Fields.KeyText(Numbered(i), Fields.None, place) == [97, 98] {
      var t := Numbered(i);
      assert Fields.SkipWord(t, 2) == 2 && Fields.SkipWord(t, 1) == 2;
      assert Fields.SkipWord(t, 0) == 2;
      assert t[0..2] == [97, 98];
    }
    assert Fields.SkipWord([99], 0) == 1;
    assert [99][0..1] == [99];
  }

  // ---------- A group of ties and one line more ----------

  /** The lines `a` share the key `k`; the line `z` has another, which does not
      start with all but the last byte of `k`, and comes first in reverse. */
  ghost predicate TiedFront<T>(p: Plan<T>, a: seq<T>, z: T, k: Text) {
    && |p.keys| == 1 && p.keys[0].reverse && !p.LastResort() && !p.reverse
    && |a| > KEY_THRESHOLD && 0 < |k| < R.DEPTH_LIMIT
    && (forall t :: t in a ==> p.keys[0].span(t) == k)
    && !(k[..|k| - 1] <= p.keys[0].span(z)) && Compare(k, p.keys[0].span(z)) < 0
  }

  lemma FrontClass<T(!new)>(p: Plan<T>, a: seq<T>, z: T, k: Text)
    requires TiedFront(p, a, z, k)
    ensures Filter(R.HasKey(p.keys[0].span, k), a + [z]) == a
    ensures Project(OrderFrom(p, 0), a[0], a + [z]) == a
  {
    var h, l := R.HasKey(p.keys[0].span, k), Like(OrderFrom(p, 0), a[0]);
    OrderFromStep(p, 0);
    OrderFromStep(p, 1);
    R.KeyOrderPreorder(p.keys[0].span, true);
    CompareTotal(k, p.keys[0].span(z));
    hide OrderFrom, R.KeyOrder, TotalPreorder, Filter;
    assert forall t :: t in a ==> h(t) && l(t);
    assert !h(z) && !l(z);
    hide *;
    FilterFront(h, a, z);
    FilterFront(l, a, z);
    ProjectIs(OrderFrom(p, 0), a[0], a + [z]);
  }

  lemma FilterFront<T>(h: T -> bool, a: seq<T>, z: T)
    requires !h(z) && forall t :: t in a ==> h(t)
    ensures Filter(h, a + [z]) == a
  {
    hide Filter;
    FilterConcat(h, a, [z]);
    FilterAll(h, a);
    FilterNone(h, [z]);
  }

  lemma ProjectIs<T>(c: (T, T) -> int, g: T, s: seq<T>)
    ensures Project(c, g, s) == Filter(Like(c, g), s)
  {
  }

  lemma FrontTurns<T(!new)>(p: Plan<T>, a: seq<T>, z: T, k: Text)
    requires TiedFront(p, a, z, k)
    ensures Turns(p, 0, a + [z], a[0])
  {
    var s, c := a + [z], KeyEngine.KeyOrderAt(p.keys[0]);
    FrontClass(p, a, z, k);
    KeyRadixIs(p.keys[0]);
    hide Filter, Project, OrderFrom;
    assert R.Flips(KeyRadix(p.keys[0]), 0, s, k);
    assert c(s[|a| - 1], s[|a|]) == -Compare(k, p.keys[0].span(z)) by {
      assert s[|a| - 1] in a;
    }
    assert !Ascends(c, s);
    assert a[0] in a;
    hide R.Flips, Ascends;
    assert KeyTurns(p, 0, s, a[0]);
    assert !Turns(p, 1, KeyClass(p, 0, s, a[0]), a[0]);
  }

  /** If the group's first and last line differ, its reversal can be seen, with all
      lines written and with the first one only. */
  lemma FrontSeen<T(!new)>(p: Plan<T>, a: seq<T>, z: T, k: Text)
    requires TiedFront(p, a, z, k) && p.text(a[0]) != p.text(a[|a| - 1])
    ensures !KeyExact.Harmless(p, a + [z])
  {
    FrontClass(p, a, z, k);
    FrontTurns(p, a, z, k);
    hide Filter, Project, OrderFrom, Turns, TiedFront, Reverse;
    assert |a| > 0;
    assert Map(p.text, KeyExact.Part(p.unique, a))[0] == p.text(a[0]);
    assert Map(p.text, KeyExact.Part(p.unique, Reverse(a)))[0] == p.text(a[|a| - 1]);
    assert a[0] in a + [z];
  }

  // ---------- The sample ----------

  lemma ReversalSeen(stable: bool)
    ensures ValidOptions(FirstFieldReversed(stable)) && PlanOf(FirstFieldReversed(stable)) == RadixKeys
    ensures !Faithful(FirstFieldReversed(stable), Sample())
  {
    var o := FirstFieldReversed(stable);
    var p, a, z := TextPlan(o), NumberedLines(), [99];
    SampleKeys(stable);
    assert PlanOf(o) == RadixKeys;
    hide TextPlan, PlanOf, FirstFieldReversed, KeyExact.Harmless;
    assert TiedFront(p, a, z, [97, 98]);
    FrontSeen(p, a, z, [97, 98]);
  }

  /** Whatever buffer holds these lines, what is written is not what one stable
      sort by the comparator writes: the forty-nine lines come out backwards, or
      the last of them stands for all. */
  lemma ReversedKeyReordersTies(x: Outside, stable: bool, data: Text, s: seq<Line>, items: seq<Line>, reversed: bool)
    requires ValidOptions(FirstFieldReversed(stable)) && ItemTexts(data, s) == Sample()
    requires Sorts(x, FirstFieldReversed(stable), data, s, items, reversed)
    ensures var o := FirstFieldReversed(stable);
      Written(x, o, OutputTexts(data, items, reversed)) != Written(x, o, OracleTexts(x, o, data, s))
  {
    hide *;
    ReversalSeen(stable);
    OutputTextsAre(data, items, reversed);
    SortsMeans(x, FirstFieldReversed(stable), data, s, items, reversed);
  }

  /** Sorted as one run of an external sort, they come out as wrongly. */
  lemma ReversedKeyReordersRuns(stable: bool)
    ensures ValidOptions(FirstFieldReversed(stable)) && !FaithfulRuns(FirstFieldReversed(stable), [Sample()])
  {
    hide *;
    ReversalSeen(stable);
    OneRunFaithful(FirstFieldReversed(stable), Sample());
  }
}
