/** Tasks that sort a range by splitting it, over and over, into smaller ranges:
    the form in which the radix recursion runs inside a worker.  The state of a
    task is a list of ranges still to be sorted; one step takes a range off the
    list, settles it or splits it, and puts the parts on the list. */
module Worklists {
  import opened Threads

  /** A range, and the depth from which it is to be sorted. */
  datatype Child = Child(lo: nat, hi: nat, depth: nat)

  /** How a range that was to be sorted from a depth relates to what it becomes. */
  type Relation<!T> = (nat, seq<T>, seq<T>) -> bool

  /** Which ranges may be sorted from which depth. */
  type Domain<!T> = (nat, seq<T>) -> bool

  /** One step on one range: its new contents, and the parts left to sort, counted
      from the start of the range. */
  type Splitter<!T> = (nat, seq<T>) -> (seq<T>, seq<Child>)

  // ---------- Ranges and what is left to do ----------

  ghost predicate Apart(children: seq<Child>) {
    forall i, j :: 0 <= i < j < |children| ==> children[i].hi <= children[j].lo || children[j].hi <= children[i].lo
  }

  ghost predicate Task<T>(ok: Domain<T>, limit: nat, lo: nat, hi: nat, u: seq<T>, c: Child) {
    lo <= c.lo < c.hi <= hi <= |u| && c.depth <= limit && ok(c.depth, u[c.lo..c.hi])
  }

  /** Ranges between `lo` and `hi` that may be sorted, and do not overlap. */
  ghost predicate Tasks<T>(ok: Domain<T>, limit: nat, lo: nat, hi: nat, u: seq<T>, children: seq<Child>) {
    && hi <= |u| && Apart(children)
    && forall i :: 0 <= i < |children| ==> Task(ok, limit, lo, hi, u, children[i])
  }

  ghost predicate InSome(children: seq<Child>, k: nat) {
    exists i :: 0 <= i < |children| && children[i].lo <= k < children[i].hi
  }

  ghost predicate TaskDone<T>(rel: Relation<T>, u: seq<T>, c: Child, t: seq<T>) {
    c.lo <= c.hi <= |u| == |t| && rel(c.depth, u[c.lo..c.hi], t[c.lo..c.hi])
  }

  /** `t` is `u` with every range sorted, and nothing else changed. */
  ghost predicate TasksDone<T>(rel: Relation<T>, u: seq<T>, children: seq<Child>, t: seq<T>) {
    && |t| == |u|
    && (forall k :: 0 <= k < |u| && !InSome(children, k) ==> t[k] == u[k])
    && forall i :: 0 <= i < |children| ==> TaskDone(rel, u, children[i], t)
  }

  /** Sorting the ranges is all that is left to do for `s`. */
  ghost predicate Suffices<T(!new)>(rel: Relation<T>, depth: nat, s: seq<T>, lo: nat, u: seq<T>, children: seq<Child>) {
    forall t :: TasksDone(rel, u, children, t) ==> lo + |s| <= |t| && rel(depth, s, t[lo..lo + |s|])
  }

  lemma ApartWhen(children: seq<Child>)
    requires forall i, j :: 0 <= i < j < |children| ==> children[i].hi <= children[j].lo || children[j].hi <= children[i].lo
    ensures Apart(children)
  {
  }

  lemma TasksWhen<T>(ok: Domain<T>, limit: nat, lo: nat, hi: nat, u: seq<T>, children: seq<Child>)
    requires hi <= |u| && forall i :: 0 <= i < |children| ==> Task(ok, limit, lo, hi, u, children[i])
    requires Apart(children)
    ensures Tasks(ok, limit, lo, hi, u, children)
  {
    hide Task;
  }

  lemma TaskAt<T>(ok: Domain<T>, limit: nat, lo: nat, hi: nat, u: seq<T>, children: seq<Child>, i: nat)
    requires Tasks(ok, limit, lo, hi, u, children) && i < |children|
    ensures Task(ok, limit, lo, hi, u, children[i])
  {
  }

  lemma DoneLength<T>(rel: Relation<T>, u: seq<T>, children: seq<Child>, t: seq<T>)
    requires TasksDone(rel, u, children, t)
    ensures |t| == |u|
  {
  }

  lemma DoneAt<T>(rel: Relation<T>, u: seq<T>, children: seq<Child>, t: seq<T>, i: nat)
    requires TasksDone(rel, u, children, t) && i < |children|
    ensures TaskDone(rel, u, children[i], t)
  {
  }

  lemma DoneWhen<T>(rel: Relation<T>, u: seq<T>, children: seq<Child>, t: seq<T>)
    requires |t| == |u| && forall k :: 0 <= k < |u| && !InSome(children, k) ==> t[k] == u[k]
    requires forall i :: 0 <= i < |children| ==> TaskDone(rel, u, children[i], t)
    ensures TasksDone(rel, u, children, t)
  {
    hide TaskDone, InSome;
  }

  lemma NothingLeft<T(!new)>(rel: Relation<T>, ok: Domain<T>, limit: nat, depth: nat, s: seq<T>, lo: nat, u: seq<T>)
    requires lo + |s| <= |u| && rel(depth, s, u[lo..lo + |s|])
    ensures Tasks(ok, limit, lo, lo + |s|, u, []) && Suffices(rel, depth, s, lo, u, [])
  {
    forall t | TasksDone(rel, u, [], t) ensures rel(depth, s, t[lo..lo + |s|]) {
      assert forall k :: 0 <= k < |u| ==> !InSome([], k);
      assert t == u;
    }
  }

  lemma NoneLeft<T(!new)>(rel: Relation<T>, depth: nat, s: seq<T>, u: seq<T>)
    requires Suffices(rel, depth, s, 0, u, []) && |u| == |s|
    ensures rel(depth, s, u)
  {
    assert TasksDone(rel, u, [], u);
    assert u[0..0 + |s|] == u;
  }

  lemma AllLeft<T(!new)>(rel: Relation<T>, depth: nat, s: seq<T>)
    ensures Suffices(rel, depth, s, 0, s, [Child(0, |s|, depth)])
  {
    var w := [Child(0, |s|, depth)];
    forall t | TasksDone(rel, s, w, t) ensures rel(depth, s, t[0..0 + |s|]) {
      assert TaskDone(rel, s, w[0], t);
      assert s[0..|s|] == s;
    }
  }

  // ---------- The machine ----------

  function Shifted(children: seq<Child>, base: nat): (r: seq<Child>)
    ensures |r| == |children|
    ensures forall i :: 0 <= i < |r| ==> r[i] == Child(children[i].lo + base, children[i].hi + base, children[i].depth)
  {
    seq(|children|, i requires 0 <= i < |children| => Child(children[i].lo + base, children[i].hi + base, children[i].depth))
  }

  /** One step: the last range of the list. */
  function Step<T>(split: Splitter<T>, w: seq<Child>, seg: seq<T>): (r: (seq<Child>, seq<T>))
    ensures |r.1| == |seg|
  {
    if w == [] then (w, seg)
    else
      var rest, c := w[..|w| - 1], w[|w| - 1];
      if c.lo < c.hi <= |seg| then
        var (q, parts) := split(c.depth, seg[c.lo..c.hi]);
        if |q| == c.hi - c.lo then (rest + Shifted(parts, c.lo), Splice(seg, c.lo, q)) else (rest, seg)
      else (rest, seg)
  }

  /** Tasks that work off the ranges `children`. */
  function Workers<T>(children: seq<Child>, split: Splitter<T>): (p: Program<seq<Child>, T>)
    ensures |p.lo| == |p.hi| == |children|
  {
    Program(
      seq(|children|, i requires 0 <= i < |children| => children[i].lo),
      seq(|children|, i requires 0 <= i < |children| => children[i].hi),
      (i: nat) =>
        if i < |children| && children[i].lo <= children[i].hi
        then [Child(0, children[i].hi - children[i].lo, children[i].depth)] else [],
      (i: nat, w: seq<Child>) => w == [],
      (i: nat, w: seq<Child>, seg: seq<T>) => Step(split, w, seg))
  }

  /** A split keeps the length, leaves only deeper ranges, and these are all that
      is left to do. */
  ghost predicate GoodSplit<T(!new)>(rel: Relation<T>, ok: Domain<T>, limit: nat, depth: nat, q: seq<T>, r: seq<T>, parts: seq<Child>) {
    && |r| == |q| && Suffices(rel, depth, q, 0, r, parts) && Tasks(ok, limit, 0, |q|, r, parts)
    && forall i :: 0 <= i < |parts| ==> parts[i].depth > depth
  }

  lemma GoodSplitWhen<T(!new)>(rel: Relation<T>, ok: Domain<T>, limit: nat, depth: nat, q: seq<T>, r: seq<T>, parts: seq<Child>)
    requires |r| == |q| && Suffices(rel, depth, q, 0, r, parts) && Tasks(ok, limit, 0, 0 + |q|, r, parts)
    requires forall i :: 0 <= i < |parts| ==> parts[i].depth > depth
    ensures GoodSplit(rel, ok, limit, depth, q, r, parts)
  {
    hide Suffices, Tasks;
  }

  ghost predicate Splits<T(!new)>(rel: Relation<T>, ok: Domain<T>, limit: nat, split: Splitter<T>) {
    forall depth: nat, q :: depth <= limit && q != [] && ok(depth, q) ==>
      GoodSplit(rel, ok, limit, depth, q, split(depth, q).0, split(depth, q).1)
  }

  /** What every step of a task on the segment `s` keeps. */
  ghost predicate Working<T(!new)>(rel: Relation<T>, ok: Domain<T>, limit: nat, depth: nat, s: seq<T>, w: seq<Child>, u: seq<T>) {
    |u| == |s| && Tasks(ok, limit, 0, |s|, u, w) && Suffices(rel, depth, s, 0, u, w)
  }

  lemma WorkStarts<T(!new)>(rel: Relation<T>, ok: Domain<T>, limit: nat, depth: nat, s: seq<T>)
    requires s != [] && depth <= limit && ok(depth, s)
    ensures Working(rel, ok, limit, depth, s, [Child(0, |s|, depth)], s)
  {
    AllLeft(rel, depth, s);
    assert s[0..|s|] == s;
  }

  // ---------- One step ----------

  /** The parts of a range lie in it, and so do their indices. */
  lemma PartOf(c: Child, n: nat, parts: seq<Child>, i: nat)
    requires c.lo + n == c.hi && i < |parts| && parts[i].hi <= n
    ensures c.lo <= Shifted(parts, c.lo)[i].lo && Shifted(parts, c.lo)[i].hi <= c.hi
  {
  }

  lemma StepApart<T>(ok: Domain<T>, limit: nat, u: seq<T>, w: seq<Child>, q: seq<T>, parts: seq<Child>)
    requires w != [] && Tasks(ok, limit, 0, |u|, u, w) && |q| == w[|w| - 1].hi - w[|w| - 1].lo
    requires Tasks(ok, limit, 0, |q|, q, parts)
    ensures Apart(w[..|w| - 1] + Shifted(parts, w[|w| - 1].lo))
  {
    var n, c := |w| - 1, w[|w| - 1];
    var w' := w[..n] + Shifted(parts, c.lo);
    forall i, j | 0 <= i < j < |w'| ensures w'[i].hi <= w'[j].lo || w'[j].hi <= w'[i].lo {
      if i < n <= j {
        assert Task(ok, limit, 0, |q|, q, parts[j - n]);
        PartOf(c, |q|, parts, j - n);
        assert w[i].hi <= w[n].lo || w[n].hi <= w[i].lo;
      } else if n <= i {
        assert parts[i - n].hi <= parts[j - n].lo || parts[j - n].hi <= parts[i - n].lo;
      } else {
        assert w[i].hi <= w[j].lo || w[j].hi <= w[i].lo;
      }
    }
  }

  lemma SpliceAt<T>(u: seq<T>, lo: nat, q: seq<T>)
    requires lo + |q| <= |u|
    ensures |Splice(u, lo, q)| == |u| && Splice(u, lo, q)[lo..lo + |q|] == q
    ensures forall k :: 0 <= k < |u| && !(lo <= k < lo + |q|) ==> Splice(u, lo, q)[k] == u[k]
  {
  }

  lemma StepTasks<T>(ok: Domain<T>, limit: nat, u: seq<T>, w: seq<Child>, q: seq<T>, parts: seq<Child>)
    requires w != [] && Tasks(ok, limit, 0, |u|, u, w) && |q| == w[|w| - 1].hi - w[|w| - 1].lo
    requires Tasks(ok, limit, 0, |q|, q, parts)
    ensures w[|w| - 1].lo + |q| <= |u|
    ensures Tasks(ok, limit, 0, |u|, Splice(u, w[|w| - 1].lo, q), w[..|w| - 1] + Shifted(parts, w[|w| - 1].lo))
  {
    var n, c := |w| - 1, w[|w| - 1];
    assert Task(ok, limit, 0, |u|, u, c);
    var w', u' := w[..n] + Shifted(parts, c.lo), Splice(u, c.lo, q);
    StepApart(ok, limit, u, w, q, parts);
    SpliceAt(u, c.lo, q);
    hide Splice;
    forall i | 0 <= i < |w'| ensures Task(ok, limit, 0, |u|, u', w'[i]) {
      if i < n {
        assert Task(ok, limit, 0, |u|, u, w[i]);
        assert w[i].hi <= w[n].lo || w[n].hi <= w[i].lo;
        assert u'[w[i].lo..w[i].hi] == u[w[i].lo..w[i].hi];
      } else {
        var d := parts[i - n];
        assert Task(ok, limit, 0, |q|, q, d);
        assert u'[d.lo + c.lo..d.hi + c.lo] == q[d.lo..d.hi];
      }
    }
    TasksWhen(ok, limit, 0, |u|, u', w');
  }

  /** Outside its parts the range is as the step left it. */
  lemma PartsOnly<T>(rel: Relation<T>, ok: Domain<T>, limit: nat, u: seq<T>, w: seq<Child>, q: seq<T>, parts: seq<Child>, t: seq<T>, k: nat)
    requires w != [] && Tasks(ok, limit, 0, |u|, u, w) && |q| == w[|w| - 1].hi - w[|w| - 1].lo
    requires w[|w| - 1].lo + |q| <= |u| && k < |q| && !InSome(parts, k)
    requires TasksDone(rel, Splice(u, w[|w| - 1].lo, q), w[..|w| - 1] + Shifted(parts, w[|w| - 1].lo), t)
    ensures |t| == |u| && t[k + w[|w| - 1].lo] == q[k]
  {
    var n, c := |w| - 1, w[|w| - 1];
    var w', u' := w[..n] + Shifted(parts, c.lo), Splice(u, c.lo, q);
    SpliceAt(u, c.lo, q);
    hide Splice, TaskDone, Task;
    forall i | 0 <= i < |w'| ensures !(w'[i].lo <= k + c.lo < w'[i].hi) {
      if i < n {
        assert w[i].hi <= w[n].lo || w[n].hi <= w[i].lo;
      } else {
        assert !(parts[i - n].lo <= k < parts[i - n].hi);
      }
    }
    assert !InSome(w', k + c.lo);
    assert u'[k + c.lo] == u'[c.lo..c.lo + |q|][k];
  }

  lemma PartDone<T>(rel: Relation<T>, ok: Domain<T>, limit: nat, u: seq<T>, c: Child, q: seq<T>, d: Child, t: seq<T>)
    requires c.lo + |q| == c.hi <= |u| == |t| && u[c.lo..c.lo + |q|] == q && Task(ok, limit, 0, |q|, q, d)
    requires TaskDone(rel, u, Child(d.lo + c.lo, d.hi + c.lo, d.depth), t)
    ensures TaskDone(rel, q, d, t[c.lo..c.hi])
  {
    SliceOfSlice(u, c.lo, c.hi, d.lo, d.hi);
    SliceOfSlice(t, c.lo, c.hi, d.lo, d.hi);
  }

  lemma SliceOfSlice<T>(t: seq<T>, from: nat, to: nat, lo: nat, hi: nat)
    requires from <= to <= |t| && lo <= hi <= to - from
    ensures t[from..to][lo..hi] == t[lo + from..hi + from]
  {
    var a, b := t[from..to][lo..hi], t[lo + from..hi + from];
    forall k | 0 <= k < hi - lo ensures a[k] == b[k] {
      assert a[k] == t[from..to][lo + k] == t[from + (lo + k)];
      assert b[k] == t[(lo + from) + k];
    }
  }

  /** Where the list after the step is done, so are the parts of the range... */
  lemma PartsDone<T>(rel: Relation<T>, ok: Domain<T>, limit: nat, u: seq<T>, w: seq<Child>, q: seq<T>, parts: seq<Child>, t: seq<T>)
    requires w != [] && Tasks(ok, limit, 0, |u|, u, w) && |q| == w[|w| - 1].hi - w[|w| - 1].lo
    requires Tasks(ok, limit, 0, |q|, q, parts) && w[|w| - 1].lo + |q| <= |u|
    requires TasksDone(rel, Splice(u, w[|w| - 1].lo, q), w[..|w| - 1] + Shifted(parts, w[|w| - 1].lo), t)
    ensures |t| == |u| && TasksDone(rel, q, parts, t[w[|w| - 1].lo..w[|w| - 1].hi])
  {
    hide *;
    var n, c := |w| - 1, w[|w| - 1];
    var w', u' := w[..n] + Shifted(parts, c.lo), Splice(u, c.lo, q);
    SpliceAt(u, c.lo, q);
    DoneLength(rel, u', w', t);
    forall i | 0 <= i < |parts| ensures TaskDone(rel, q, parts[i], t[c.lo..c.hi]) {
      assert w'[n + i] == Shifted(parts, c.lo)[i];
      TaskAt(ok, limit, 0, |q|, q, parts, i);
      DoneAt(rel, u', w', t, n + i);
      PartDone(rel, ok, limit, u', c, q, parts[i], t);
    }
    forall k | 0 <= k < |q| && !InSome(parts, k) ensures t[c.lo..c.hi][k] == q[k] {
      PartsOnly(rel, ok, limit, u, w, q, parts, t, k);
    }
    DoneWhen(rel, q, parts, t[c.lo..c.hi]);
  }

  /** ...and then the list before the step is done. */
  lemma ListDone<T>(rel: Relation<T>, ok: Domain<T>, limit: nat, u: seq<T>, w: seq<Child>, q: seq<T>, parts: seq<Child>, t: seq<T>)
    requires w != [] && Tasks(ok, limit, 0, |u|, u, w) && |q| == w[|w| - 1].hi - w[|w| - 1].lo
    requires Tasks(ok, limit, 0, |q|, q, parts) && w[|w| - 1].lo + |q| <= |u|
    requires TasksDone(rel, Splice(u, w[|w| - 1].lo, q), w[..|w| - 1] + Shifted(parts, w[|w| - 1].lo), t)
    requires |t| == |u| && TaskDone(rel, u, w[|w| - 1], t)
    ensures TasksDone(rel, u, w, t)
  {
    var n, c := |w| - 1, w[|w| - 1];
    var w', u' := w[..n] + Shifted(parts, c.lo), Splice(u, c.lo, q);
    SpliceAt(u, c.lo, q);
    hide Splice;
    forall k | 0 <= k < |u| && !InSome(w, k) ensures t[k] == u[k] {
      assert !(w[n].lo <= k < w[n].hi);
      forall i | 0 <= i < |w'| ensures !(w'[i].lo <= k < w'[i].hi) {
        if i < n {
          assert !(w[i].lo <= k < w[i].hi);
        } else {
          assert Task(ok, limit, 0, |q|, q, parts[i - n]);
          PartOf(c, |q|, parts, i - n);
        }
      }
      assert !InSome(w', k);
    }
    forall i | 0 <= i < n ensures TaskDone(rel, u, w[i], t) {
      assert TaskDone(rel, u', w'[i], t);
      assert Task(ok, limit, 0, |u|, u, w[i]);
      assert w[i].hi <= w[n].lo || w[n].hi <= w[i].lo;
      assert u'[w[i].lo..w[i].hi] == u[w[i].lo..w[i].hi];
    }
  }

  lemma StepSuffices<T(!new)>(rel: Relation<T>, ok: Domain<T>, limit: nat, depth: nat, s: seq<T>, u: seq<T>, w: seq<Child>, q: seq<T>, parts: seq<Child>)
    requires w != [] && Tasks(ok, limit, 0, |u|, u, w) && |q| == w[|w| - 1].hi - w[|w| - 1].lo
    requires Tasks(ok, limit, 0, |q|, q, parts) && w[|w| - 1].lo + |q| <= |u|
    requires Suffices(rel, depth, s, 0, u, w)
    requires Suffices(rel, w[|w| - 1].depth, u[w[|w| - 1].lo..w[|w| - 1].hi], 0, q, parts)
    ensures Suffices(rel, depth, s, 0, Splice(u, w[|w| - 1].lo, q), w[..|w| - 1] + Shifted(parts, w[|w| - 1].lo))
  {
    var c := w[|w| - 1];
    hide Tasks, TasksDone, Splice;
    forall t | TasksDone(rel, Splice(u, c.lo, q), w[..|w| - 1] + Shifted(parts, c.lo), t)
      ensures 0 + |s| <= |t| && rel(depth, s, t[0..0 + |s|])
    {
      PartsDone(rel, ok, limit, u, w, q, parts, t);
      assert t[c.lo..c.hi][0..0 + |q|] == t[c.lo..c.hi];
      ListDone(rel, ok, limit, u, w, q, parts, t);
    }
  }

  /** The step keeps what it should. */
  lemma WorkStep<T(!new)>(rel: Relation<T>, ok: Domain<T>, limit: nat, split: Splitter<T>, depth: nat, s: seq<T>, w: seq<Child>, u: seq<T>)
    requires Splits(rel, ok, limit, split) && Working(rel, ok, limit, depth, s, w, u) && w != []
    ensures Working(rel, ok, limit, depth, s, Step(split, w, u).0, Step(split, w, u).1)
  {
    var c := w[|w| - 1];
    assert Task(ok, limit, 0, |s|, u, c);
    var q := u[c.lo..c.hi];
    var r, parts := split(c.depth, q).0, split(c.depth, q).1;
    assert GoodSplit(rel, ok, limit, c.depth, q, r, parts);
    hide Suffices, Splits, Tasks;
    StepTasks(ok, limit, u, w, r, parts);
    SpliceAt(u, c.lo, r);
    StepSuffices(rel, ok, limit, depth, s, u, w, r, parts);
  }

  // ---------- Every task ends ----------

  /** How much deeper the byte at `k` can still be looked at. */
  ghost function Potential(w: seq<Child>, limit: nat, k: nat): nat {
    if InSome(w, k) then
      var i :| 0 <= i < |w| && w[i].lo <= k < w[i].hi;
      if w[i].depth <= limit then limit + 1 - w[i].depth else 0
    else 0
  }

  lemma PotentialIs(w: seq<Child>, limit: nat, k: nat, i: nat)
    requires Apart(w) && i < |w| && w[i].lo <= k < w[i].hi && w[i].depth <= limit
    ensures Potential(w, limit, k) == limit + 1 - w[i].depth
  {
    assert InSome(w, k);
  }

  ghost function PotentialTo(w: seq<Child>, limit: nat, n: nat): nat {
    if n == 0 then 0 else PotentialTo(w, limit, n - 1) + Potential(w, limit, n - 1)
  }

  lemma {:induction false} PotentialFalls(w: seq<Child>, w': seq<Child>, limit: nat, n: nat, at: nat)
    requires forall k :: 0 <= k < n ==> Potential(w', limit, k) <= Potential(w, limit, k)
    requires at < n ==> Potential(w', limit, at) < Potential(w, limit, at)
    ensures PotentialTo(w', limit, n) <= PotentialTo(w, limit, n)
    ensures at < n ==> PotentialTo(w', limit, n) < PotentialTo(w, limit, n)
  {
    if n > 0 {
      PotentialFalls(w, w', limit, n - 1, at);
    }
  }

  lemma StepPotential<T>(ok: Domain<T>, limit: nat, u: seq<T>, u': seq<T>, w: seq<Child>, q: seq<T>, parts: seq<Child>, k: nat)
    requires w != [] && Tasks(ok, limit, 0, |u|, u, w) && |q| == w[|w| - 1].hi - w[|w| - 1].lo
    requires Tasks(ok, limit, 0, |q|, q, parts) && forall i :: 0 <= i < |parts| ==> parts[i].depth > w[|w| - 1].depth
    requires Tasks(ok, limit, 0, |u|, u', w[..|w| - 1] + Shifted(parts, w[|w| - 1].lo))
    ensures var w' := w[..|w| - 1] + Shifted(parts, w[|w| - 1].lo);
      && Potential(w', limit, k) <= Potential(w, limit, k)
      && (w[|w| - 1].lo <= k < w[|w| - 1].hi ==> Potential(w', limit, k) < Potential(w, limit, k))
  {
    var n, c := |w| - 1, w[|w| - 1];
    var w' := w[..n] + Shifted(parts, c.lo);
    assert Task(ok, limit, 0, |u|, u, c);
    if c.lo <= k < c.hi {
      PotentialIs(w, limit, k, n);
    }
    if InSome(w', k) {
      var i: nat :| i < |w'| && w'[i].lo <= k < w'[i].hi;
      assert Task(ok, limit, 0, |u|, u', w'[i]);
      PotentialIs(w', limit, k, i);
      if i < n {
        assert Task(ok, limit, 0, |u|, u, w[i]);
        assert w[i].hi <= w[n].lo || w[n].hi <= w[i].lo;
        PotentialIs(w, limit, k, i);
      } else {
        assert Task(ok, limit, 0, |q|, q, parts[i - n]);
        PartOf(c, |q|, parts, i - n);
      }
    }
  }

  lemma WorkFalls<T(!new)>(rel: Relation<T>, ok: Domain<T>, limit: nat, split: Splitter<T>, depth: nat, s: seq<T>, w: seq<Child>, u: seq<T>)
    requires Splits(rel, ok, limit, split) && Working(rel, ok, limit, depth, s, w, u) && w != []
    ensures PotentialTo(Step(split, w, u).0, limit, |s|) < PotentialTo(w, limit, |s|)
  {
    var c := w[|w| - 1];
    assert Task(ok, limit, 0, |s|, u, c);
    var q := u[c.lo..c.hi];
    var r, parts := split(c.depth, q).0, split(c.depth, q).1;
    assert GoodSplit(rel, ok, limit, c.depth, q, r, parts);
    WorkStep(rel, ok, limit, split, depth, s, w, u);
    var w', u' := Step(split, w, u).0, Step(split, w, u).1;
    assert w' == w[..|w| - 1] + Shifted(parts, c.lo);
    hide Suffices, Splits, Tasks, Potential, PotentialTo, Step;
    forall k: nat ensures Potential(w', limit, k) <= Potential(w, limit, k)
      ensures c.lo <= k < c.hi ==> Potential(w', limit, k) < Potential(w, limit, k)
    {
      TasksOf(ok, limit, 0, |q|, r, parts);
      StepPotential(ok, limit, u, u', w, r, parts, k);
    }
    PotentialFalls(w, w', limit, |s|, c.lo);
  }

  lemma TasksOf<T>(ok: Domain<T>, limit: nat, lo: nat, hi: nat, u: seq<T>, children: seq<Child>)
    requires Tasks(ok, limit, lo, hi, u, children)
    ensures Apart(children) && hi <= |u|
  {
  }

  // ---------- Whole tasks ----------

  /** The length of a task's segment. */
  function Size(c: Child): nat {
    if c.lo <= c.hi then c.hi - c.lo else 0
  }

  /** After `n` steps a task keeps what it should, and that many steps of its
      potential are used up. */
  lemma {:induction false} AfterSteps<T(!new)>(rel: Relation<T>, ok: Domain<T>, limit: nat, split: Splitter<T>, children: seq<Child>, i: nat, s: seq<T>, n: nat)
    requires Splits(rel, ok, limit, split) && i < |children|
    requires s != [] && |s| == Size(children[i]) && children[i].depth <= limit && ok(children[i].depth, s)
    requires var p := Workers(children, split); forall k :: 0 <= k < n ==> !p.halted(i, Iterate(p, i, s, k).0)
    ensures var a := Iterate(Workers(children, split), i, s, n);
      && Working(rel, ok, limit, children[i].depth, s, a.0, a.1)
      && PotentialTo(a.0, limit, |s|) + n <= PotentialTo([Child(0, |s|, children[i].depth)], limit, |s|)
    decreases n
  {
    var p := Workers(children, split);
    hide Splits, Working, PotentialTo, Step;
    if n == 0 {
      WorkStarts(rel, ok, limit, children[i].depth, s);
    } else {
      AfterSteps(rel, ok, limit, split, children, i, s, n - 1);
      var a := Iterate(p, i, s, n - 1);
      assert a.0 != [];
      WorkStep(rel, ok, limit, split, children[i].depth, s, a.0, a.1);
      WorkFalls(rel, ok, limit, split, children[i].depth, s, a.0, a.1);
      assert Iterate(p, i, s, n) == Step(split, a.0, a.1);
    }
  }

  /** A task that has stopped has sorted its segment. */
  lemma TaskSorts<T(!new)>(rel: Relation<T>, ok: Domain<T>, limit: nat, split: Splitter<T>, children: seq<Child>, i: nat, s: seq<T>, u: seq<T>)
    requires Splits(rel, ok, limit, split) && i < |children|
    requires s != [] && |s| == Size(children[i]) && children[i].depth <= limit && ok(children[i].depth, s)
    requires Finishes(Workers(children, split), i, s, u)
    ensures |u| == |s| && rel(children[i].depth, s, u)
  {
    var p := Workers(children, split);
    var w, n: nat :| Reaches(p, i, s, w, u, n) && p.halted(i, w);
    hide Splits, PotentialTo, Step, Suffices, Iterate;
    AfterSteps(rel, ok, limit, split, children, i, s, n);
    NoneLeft(rel, children[i].depth, s, u);
  }

  /** The steps that the tasks can take. */
  ghost function Costs(children: seq<Child>, limit: nat): (cost: seq<nat>)
    ensures |cost| == |children|
  {
    seq(|children|, i requires 0 <= i < |children| =>
      PotentialTo([Child(0, Size(children[i]), children[i].depth)], limit, Size(children[i])))
  }

  /** The tasks lie in memory apart from each other, and end. */
  lemma WorkersBounded<T(!new)>(rel: Relation<T>, ok: Domain<T>, limit: nat, split: Splitter<T>, lo: nat, hi: nat, children: seq<Child>, m0: seq<T>)
    requires Splits(rel, ok, limit, split) && Tasks(ok, limit, lo, hi, m0, children)
    ensures WellFormed(Workers(children, split), |m0|)
    ensures Bounded(Workers(children, split), m0, Costs(children, limit))
  {
    var p := Workers(children, split);
    hide Splits, PotentialTo, Step, Reaches;
    forall i | 0 <= i < |p.lo| ensures p.lo[i] <= p.hi[i] <= |m0| { assert Task(ok, limit, lo, hi, m0, children[i]); }
    forall i, w, u, n: nat | 0 <= i < |p.lo| && Reaches(p, i, Segment(p, m0, i), w, u, n)
      ensures n <= Costs(children, limit)[i]
    {
      assert Task(ok, limit, lo, hi, m0, children[i]);
      StepsBounded(rel, ok, limit, split, children, i, Segment(p, m0, i), w, u, n);
    }
  }

  lemma StepsBounded<T(!new)>(rel: Relation<T>, ok: Domain<T>, limit: nat, split: Splitter<T>, children: seq<Child>, i: nat, s: seq<T>, w: seq<Child>, u: seq<T>, n: nat)
    requires Splits(rel, ok, limit, split) && i < |children|
    requires s != [] && |s| == Size(children[i]) && children[i].depth <= limit && ok(children[i].depth, s)
    requires Reaches(Workers(children, split), i, s, w, u, n)
    ensures n <= Costs(children, limit)[i]
  {
    hide Splits, PotentialTo, Step, Working;
    AfterSteps(rel, ok, limit, split, children, i, s, n);
  }

  /** Whatever the interleaving, when the workers have been joined every range is
      sorted and nothing else has changed. */
  lemma JoinedTasksDone<T(!new)>(rel: Relation<T>, ok: Domain<T>, limit: nat, split: Splitter<T>, lo: nat, hi: nat, children: seq<Child>, m0: seq<T>, s: State<seq<Child>, T>)
    requires Splits(rel, ok, limit, split) && Tasks(ok, limit, lo, hi, m0, children)
    requires Invariant(Workers(children, split), m0, s) && Joined(s)
    ensures TasksDone(rel, m0, children, s.mem)
  {
    var p := Workers(children, split);
    JoinedMeansFinished(p, m0, s);
    hide Splits, Finishes, Step;
    forall k | 0 <= k < |m0| && !InSome(children, k) ensures s.mem[k] == m0[k] {
      assert Outside(p, k);
    }
    forall i | 0 <= i < |children| ensures TaskDone(rel, m0, children[i], s.mem) {
      var c := children[i];
      assert Task(ok, limit, lo, hi, m0, c);
      TaskSorts(rel, ok, limit, split, children, i, Segment(p, m0, i), Segment(p, s.mem, i));
    }
  }
}
