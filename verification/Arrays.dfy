/** The array range helpers that several engines share. */
module Arrays {
  import opened Insertion

  /** `items[lo..hi]` becomes `aux[lo..hi]`. */
  method CopyRange<T>(items: array<T>, aux: array<T>, lo: nat, hi: nat)
    requires lo <= hi <= items.Length == aux.Length && items != aux
    modifies items
    ensures items[lo..hi] == aux[lo..hi]
    ensures forall k :: 0 <= k < items.Length && !(lo <= k < hi) ==> items[k] == old(items[k])
  {
    for i := lo to hi
      invariant forall k :: lo <= k < i ==> items[k] == aux[k]
      invariant forall k :: 0 <= k < items.Length && !(lo <= k < i) ==> items[k] == old(items[k])
    {
      items[i] := aux[i];
    }
  }

  method ReverseRange<T>(items: array<T>, lo: nat, hi: nat)
    requires lo <= hi <= items.Length
    modifies items
    ensures items[lo..hi] == Reverse(old(items[lo..hi]))
    ensures forall k :: 0 <= k < items.Length && !(lo <= k < hi) ==> items[k] == old(items[k])
  {
    hide Reverse;
    var l, h := lo, hi;
    while h - l > 1
      invariant lo <= l && h <= hi && l - lo == hi - h && l <= h + 1
      invariant forall k :: 0 <= k < items.Length && (k < lo || k >= hi) ==> items[k] == old(items[k])
      invariant forall k :: l <= k < h ==> items[k] == old(items[k])
      invariant forall k :: lo <= k < l ==> items[k] == old(items[lo + hi - 1 - k])
      invariant forall k :: h <= k < hi ==> items[k] == old(items[lo + hi - 1 - k])
    {
      h := h - 1;
      items[l], items[h] := items[h], items[l];
      l := l + 1;
    }
    ghost var s := old(items[lo..hi]);
    assert forall k :: lo <= k < hi ==> items[k] == s[hi - 1 - k];
    assert items[lo..hi] == Reverse(s);
  }
}
