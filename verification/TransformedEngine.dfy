/** Radix sorting by filtered bytes (src/radix.c): lines, or one key, are
    compared by what the text modifiers leave of them, and ties by the raw line. */
module TransformedEngine {
  import opened Arrays
  import opened Bytes
  import opened Groups
  import opened Insertion
  import opened KeyEngine
  import opened Orders
  import opened StableRadix
  import opened Unique

  /** Filtered bytes first, raw bytes among ties unless that is switched off. */
  function TiedOrder<T>(filtered: T -> Text, text: T -> Text, ties: bool): (T, T) -> int {
    if ties then Lex(KeyOrder(filtered, false), KeyOrder(text, false)) else KeyOrder(filtered, false)
  }

  lemma TiedPreorder<T(!new)>(filtered: T -> Text, text: T -> Text, ties: bool)
    ensures TotalPreorder(TiedOrder(filtered, text, ties))
  {
    hide TotalPreorder, KeyOrder;
    KeyOrderPreorder(filtered, false);
    KeyOrderPreorder(text, false);
    LexPreorder(KeyOrder(filtered, false), KeyOrder(text, false));
  }

  /** The stable radix over filtered spans, then over the raw lines of each group
      of equals. */
  method SortByFiltered<T(!new)>(filtered: T -> Text, text: T -> Text, ties: bool, items: array<T>)
    requires items.Length >= 2
    modifies items
    ensures items[..] == StableSort(TiedOrder(filtered, text, ties), old(items[..]))
  {
    ghost var s := items[..];
    var p := Plan([Key(filtered, false)], text, false, false, false);
    PlanIs(p, filtered, text);
    hide *;
    var aux := new T[items.Length](_ requires items.Length > 0 reads items => items[0]);
    assert items[0..items.Length] == s;
    FilteredRadix(filtered, items, aux);
    ghost var u := items[..];
    assert items[0..items.Length] == u;
    if ties {
      RefinedSorted(KeyOrder(filtered, false), Keeping(KeyOrder(filtered, false)), s, u);
      SortLastResortGroups(p, 0, items, aux, 0, items.Length);
      assert items[0..items.Length] == items[..];
    }
    FilteredResult(p, filtered, text, ties, s, u, items[..]);
  }

  lemma PlanIs<T>(p: Plan<T>, filtered: T -> Text, text: T -> Text)
    requires p == Plan([Key(filtered, false)], text, false, false, false)
    ensures |p.keys| == 1 && p.LastResort() && !p.reverse
    ensures KeyOrderAt(p.keys[0]) == KeyOrder(filtered, false)
    ensures LastOrder(p) == KeyOrder(text, false)
  {
  }

  lemma FilteredResult<T(!new)>(p: Plan<T>, filtered: T -> Text, text: T -> Text, ties: bool, s: seq<T>, u: seq<T>, t: seq<T>)
    requires |p.keys| == 1 && KeyOrderAt(p.keys[0]) == KeyOrder(filtered, false)
    requires LastOrder(p) == KeyOrder(text, false) && !p.reverse
    requires Refined(KeyOrder(filtered, false), Keeping(KeyOrder(filtered, false)), s, u)
    requires if ties then Refined(Lex(KeyOrderAt(p.keys[0]), LastOrder(p)), Then(Keeping(KeyOrderAt(p.keys[0])), Finals(p, 1)), u, t) else t == u
    ensures t == StableSort(TiedOrder(filtered, text, ties), s)
  {
    hide KeyOrder, Lex, Refined, TotalPreorder, Project;
    var c, f := KeyOrder(filtered, false), KeyOrder(text, false);
    if ties {
      RefinedCompose(c, f, Keeping(c), Finals(p, 1), s, u, t);
      forall g ensures Then(Keeping(c), Finals(p, 1))(g, s) == Keeping(Lex(c, f))(g, s) {
        ProjectTwice(c, f, g, s);
      }
      RefinedSame(Lex(c, f), Then(Keeping(c), Finals(p, 1)), Keeping(Lex(c, f)), s, t);
    }
    TiedPreorder(filtered, text, ties);
    StableIsRefined(TiedOrder(filtered, text, ties), s, t);
    StableSortIs(TiedOrder(filtered, text, ties), s, t);
  }

  method FilteredRadix<T(!new)>(filtered: T -> Text, items: array<T>, aux: array<T>)
    requires 0 < items.Length == aux.Length && items != aux
    modifies items, aux
    ensures Refined(KeyOrder(filtered, false), Keeping(KeyOrder(filtered, false)), old(items[..]), items[..])
  {
    ghost var s := items[..];
    var e := LineRadix(filtered);
    RootShares(filtered, s);
    assert e.key == filtered && e.threshold == 24 && EngineOrder(e) == KeyOrder(filtered, false) && !e.skipsPrefix;
    hide *;
    assert items[0..items.Length] == s;
    StableRadix.RadixRange(e, items, aux, 0, items.Length, 0);
    assert items[0..items.Length] == items[..];
    ArrangedKeeps(e, s, items[..]);
  }

  /** What the whole-line engine leaves in the array. */
  ghost function FilteredLines<T>(filtered: T -> Text, text: T -> Text, reverse: bool, stable: bool, unique: bool, s: seq<T>): seq<T> {
    var t := StableSort(TiedOrder(filtered, text, !stable && !unique), s);
    if |s| >= 2 && unique && reverse then Dedup(KeyOrder(filtered, false), t) else t
  }

  /** Whole lines: with `-u` and `-r` only the first of every class is kept,
      before the output is reversed, and the array gets shorter. */
  method SortFilteredLines<T(!new)>(filtered: T -> Text, text: T -> Text, reverse: bool, stable: bool, unique: bool, items: array<T>)
    returns (len: nat)
    modifies items
    ensures len <= items.Length
    ensures items[..len] == FilteredLines(filtered, text, reverse, stable, unique, old(items[..]))
  {
    ghost var s := items[..];
    hide *;
    ghost var c := TiedOrder(filtered, text, !stable && !unique);
    len := items.Length;
    assert items[..len] == items[..];
    if items.Length < 2 {
      ShortSort(c, s);
      FilteredLinesAre(filtered, text, reverse, stable, unique, s);
      return;
    }
    SortByFiltered(filtered, text, !stable && !unique, items);
    assert items[..len] == items[..];
    FilteredLinesAre(filtered, text, reverse, stable, unique, s);
    if unique && reverse {
      len := Compact(items, KeyOrder(filtered, false));
    }
  }

  lemma FilteredLinesAre<T>(filtered: T -> Text, text: T -> Text, reverse: bool, stable: bool, unique: bool, s: seq<T>)
    ensures var t := StableSort(TiedOrder(filtered, text, !stable && !unique), s);
            FilteredLines(filtered, text, reverse, stable, unique, s) ==
            (if |s| >= 2 && unique && reverse then Dedup(KeyOrder(filtered, false), t) else t)
  {
  }

  lemma ShortSort<T>(c: (T, T) -> int, s: seq<T>)
    requires |s| < 2
    ensures StableSort(c, s) == s
  {
    if |s| == 1 {
      assert s == [s[0]];
      assert StableSort(c, []) == [];
    }
  }

  /** One key.  Without a filtered form of it the engine declines. */
  method SortFilteredKey<T(!new)>(prepared: bool, filtered: T -> Text, text: T -> Text, stable: bool, items: array<T>)
    returns (ok: bool)
    modifies items
    ensures ok <==> items.Length < 2 || prepared
    ensures ok ==> items[..] == StableSort(TiedOrder(filtered, text, !stable), old(items[..]))
    ensures !ok ==> items[..] == old(items[..])
  {
    ghost var s := items[..];
    hide *;
    if items.Length < 2 {
      ShortSort(TiedOrder(filtered, text, !stable), s);
      return true;
    }
    if !prepared {
      return false;
    }
    SortByFiltered(filtered, text, !stable, items);
    ok := true;
  }

  // ---------- What is written ----------

  /** Keeping the first of each class, then reversing, writes what sorting by the
      reversed order writes under `-u`. */
  lemma CompactionBeforeReversal<T(!new)>(filtered: T -> Text, s: seq<T>)
    ensures var c := KeyOrder(filtered, false);
            Reverse(Dedup(c, StableSort(c, s))) == Dedup(c, StableSort(Reversed(c), s))
  {
    var c := KeyOrder(filtered, false);
    KeyOrderPreorder(filtered, false);
    ReversedPreorder(c);
    assert SameZeros(Reversed(c), c);
    hide TotalPreorder, KeyOrder, Reversed, Dedup, Reverse;
    StableSortStable(c, s);
    StableSortStable(Reversed(c), s);
    DedupIsUniqueSort(c, s, StableSort(c, s));
    ReversedUniqueSort(c, s, Dedup(c, StableSort(c, s)));
    DedupIsUniqueSort(Reversed(c), s, StableSort(Reversed(c), s));
    UniqueSortIsUnique(Reversed(c), s, Reverse(Dedup(c, StableSort(c, s))), Dedup(Reversed(c), StableSort(Reversed(c), s)));
    DedupAgrees(Reversed(c), c, StableSort(Reversed(c), s));
  }

  /** Orders that separate texts: reversing the sorted lines shows the texts that
      sorting by the reversed order shows. */
  lemma ReversedTexts<T(!new)>(c: (T, T) -> int, text: T -> Text, s: seq<T>, t: seq<T>)
    requires TotalPreorder(c) && forall x, y :: c(x, y) == 0 ==> text(x) == text(y)
    requires Sorted(c, t) && multiset(t) == multiset(s)
    ensures Map(text, Reverse(t)) == Map(text, StableSort(Reversed(c), s))
  {
    var u := StableSort(Reversed(c), s);
    ReversedPreorder(c);
    StableSortStable(Reversed(c), s);
    SameClassesPermutes(Reversed(c), s, u);
    ReverseSorted(c, t);
    ReversePermutes(t);
    hide TotalPreorder, Sorted, Reverse, StableSort;
    PermutationClassSizes(Reversed(c), Reverse(t), u);
    SortedAlike(Reversed(c), Reverse(t), u);
    forall i | 0 <= i < |u| ensures text(Reverse(t)[i]) == text(u[i]) {
      assert Reversed(c)(Reverse(t)[i], u[i]) == 0;
    }
  }
}
