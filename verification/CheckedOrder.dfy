/** What checking for order accepts: exactly what sorting writes. */
module CheckedOrder {
  import opened Bytes
  import opened Check
  import opened Comparator
  import External
  import K = KeyEngine
  import opened Orders
  import opened RankSort
  import opened Records
  import opened Unique

  ghost predicate NoRepeats<T>(c: (T, T) -> int, s: seq<T>) {
    forall i :: 0 < i < |s| ==> c(s[i - 1], s[i]) != 0
  }

  lemma {:induction false} DedupKeeps<T>(c: (T, T) -> int, s: seq<T>)
    requires NoRepeats(c, s)
    ensures Dedup(c, s) == s
  {
    if s != [] {
      var n := |s| - 1;
      DedupKeeps(c, s[..n]);
      assert s == s[..n] + [s[n]];
    }
  }

  lemma {:induction false} DedupNoRepeats<T>(c: (T, T) -> int, s: seq<T>)
    ensures NoRepeats(c, Dedup(c, s))
  {
    if s != [] {
      DedupNoRepeats(c, s[..|s| - 1]);
    }
  }

  /** Nowhere out of order: sorted, and under `-u` without repeats. */
  lemma InOrderIs(x: Outside, o: Options, rs: seq<Text>)
    requires ValidOptions(o)
    ensures InOrder(x, o, rs) <==> Sorted(CompareOrder(x, o), rs) && (o.unique ==> NoRepeats(UniqueOrder(x, o), rs))
  {
    ComparePreorder(x, o);
    hide CompareOrder, UniqueOrder, TotalPreorder;
    if InOrder(x, o, rs) {
      forall i | 0 < i < |rs|
        ensures CompareOrder(x, o)(rs[i - 1], rs[i]) <= 0 && (o.unique ==> UniqueOrder(x, o)(rs[i - 1], rs[i]) != 0)
      {
        assert !Disordered(x, o, rs[i - 1], rs[i]);
      }
      K.AscendsSorted(CompareOrder(x, o), rs);
    }
  }

  lemma WrittenSorted(x: Outside, o: Options, rs: seq<Text>)
    requires ValidOptions(o)
    ensures var w := Written(x, o, StableSort(CompareOrder(x, o), rs));
      Sorted(CompareOrder(x, o), w) && (o.unique ==> NoRepeats(UniqueOrder(x, o), w))
  {
    var c := CompareOrder(x, o);
    ComparePreorder(x, o);
    StableSortStable(c, rs);
    hide CompareOrder, UniqueOrder, TotalPreorder, StableSort, Dedup, Sorted, Project;
    StableIsSorted(c, rs, StableSort(c, rs));
    if o.unique {
      DedupNoRepeats(UniqueOrder(x, o), StableSort(c, rs));
      External.UniqueZeros(x, o);
      DedupAgrees(UniqueOrder(x, o), c, StableSort(c, rs));
      DedupSorted(c, StableSort(c, rs));
    }
  }

  /** A stream is accepted exactly when sorting it would write it as it is. */
  lemma AcceptedIsSorted(x: Outside, o: Options, rs: seq<Text>)
    requires ValidOptions(o)
    ensures InOrder(x, o, rs) <==> Written(x, o, StableSort(CompareOrder(x, o), rs)) == rs
  {
    InOrderIs(x, o, rs);
    WrittenSorted(x, o, rs);
    ComparePreorder(x, o);
    hide CompareOrder, UniqueOrder, TotalPreorder, StableSort, Dedup, Sorted, InOrder;
    if InOrder(x, o, rs) {
      External.SortedIsSort(CompareOrder(x, o), rs);
      if o.unique {
        DedupKeeps(UniqueOrder(x, o), rs);
      }
    }
  }

  /** So what sorting writes is accepted. */
  lemma SortedIsAccepted(x: Outside, o: Options, rs: seq<Text>)
    requires ValidOptions(o)
    ensures InOrder(x, o, Written(x, o, StableSort(CompareOrder(x, o), rs)))
  {
    WrittenSorted(x, o, rs);
    InOrderIs(x, o, Written(x, o, StableSort(CompareOrder(x, o), rs)));
  }
}
