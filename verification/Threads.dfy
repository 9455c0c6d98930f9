/** `rank_run_tasks` (src/sys/thread.c): workers draw task numbers from one
    atomic counter until it passes the task count.  A run is an interleaving of
    atomic worker steps; each task is a deterministic machine that reads and
    writes only its own segment of the shared memory. */
module Threads {

  /** The tasks: the segment of each, and the machine that it runs there. */
  datatype Program<!L, !T> = Program(
    lo: seq<nat>,
    hi: seq<nat>,
    start: nat -> L,
    halted: (nat, L) -> bool,
    step: (nat, L, seq<T>) -> (L, seq<T>))

  datatype Worker<L> = Fetching | Running(index: nat, local: L) | Exited

  datatype State<L, T> = State(next: nat, workers: seq<Worker<L>>, mem: seq<T>)

  /** Segments lie in memory and do not overlap; a step keeps their length. */
  ghost predicate WellFormed<L(!new), T(!new)>(p: Program<L, T>, size: nat) {
    && |p.lo| == |p.hi|
    && (forall i :: 0 <= i < |p.lo| ==> p.lo[i] <= p.hi[i] <= size)
    && (forall i, j :: 0 <= i < j < |p.lo| ==> p.hi[i] <= p.lo[j] || p.hi[j] <= p.lo[i])
    && (forall i, l, seg :: |p.step(i, l, seg).1| == |seg|)
  }

  function Segment<L, T>(p: Program<L, T>, mem: seq<T>, i: nat): seq<T>
    requires i < |p.lo| == |p.hi| && p.lo[i] <= p.hi[i] <= |mem|
  {
    mem[p.lo[i]..p.hi[i]]
  }

  function Splice<T>(mem: seq<T>, lo: nat, seg: seq<T>): seq<T>
    requires lo + |seg| <= |mem|
  {
    mem[..lo] + seg + mem[lo + |seg|..]
  }

  // ---------- The machine of one worker ----------

  function WorkerStep<L(!new), T(!new)>(p: Program<L, T>, s: State<L, T>, w: nat): State<L, T>
    requires WellFormed(p, |s.mem|) && w < |s.workers|
    requires s.workers[w].Running? ==> s.workers[w].index < |p.lo|
  {
    match s.workers[w]
    case Exited => s
    case Fetching =>
      if s.next >= |p.lo| then State(s.next + 1, s.workers[w := Exited], s.mem)
      else State(s.next + 1, s.workers[w := Running(s.next, p.start(s.next))], s.mem)
    case Running(i, l) =>
      if p.halted(i, l) then State(s.next, s.workers[w := Fetching], s.mem)
      else
        var (l', seg) := p.step(i, l, Segment(p, s.mem, i));
        assert |seg| == |Segment(p, s.mem, i)|;
        State(s.next, s.workers[w := Running(i, l')], Splice(s.mem, p.lo[i], seg))
  }

  /** `n` steps of task `i` alone, from its initial segment. */
  function Iterate<L, T>(p: Program<L, T>, i: nat, seg: seq<T>, n: nat): (L, seq<T>) {
    if n == 0 then (p.start(i), seg)
    else
      var (l, u) := Iterate(p, i, seg, n - 1);
      p.step(i, l, u)
  }

  /** Task `i` run alone has reached `l` and `u`, without halting on the way. */
  ghost predicate Reaches<L, T>(p: Program<L, T>, i: nat, seg: seq<T>, l: L, u: seq<T>, n: nat) {
    && Iterate(p, i, seg, n) == (l, u)
    && forall k :: 0 <= k < n ==> !p.halted(i, Iterate(p, i, seg, k).0)
  }

  /** Task `i`, run alone on `seg`, stops with `u`. */
  ghost predicate Finishes<L(!new), T>(p: Program<L, T>, i: nat, seg: seq<T>, u: seq<T>) {
    exists l, n: nat :: Reaches(p, i, seg, l, u, n) && p.halted(i, l)
  }

  lemma FinishesOnce<L(!new), T>(p: Program<L, T>, i: nat, seg: seq<T>, u: seq<T>, v: seq<T>)
    requires Finishes(p, i, seg, u) && Finishes(p, i, seg, v)
    ensures u == v
  {
    var l, n: nat :| Reaches(p, i, seg, l, u, n) && p.halted(i, l);
    var m, k: nat :| Reaches(p, i, seg, m, v, k) && p.halted(i, m);
    assert Iterate(p, i, seg, n).0 == l && Iterate(p, i, seg, k).0 == m;
    assert n == k;
  }

  // ---------- What every step of every interleaving keeps ----------

  ghost predicate RunningTask<L, T>(s: State<L, T>, i: nat) {
    exists w :: 0 <= w < |s.workers| && s.workers[w].Running? && s.workers[w].index == i
  }

  ghost predicate TaskState<L(!new), T>(p: Program<L, T>, m0: seq<T>, s: State<L, T>, i: nat)
    requires |p.lo| == |p.hi| && i < |p.lo| && p.lo[i] <= p.hi[i] <= |m0| == |s.mem|
  {
    var seg0, seg := Segment(p, m0, i), Segment(p, s.mem, i);
    if i >= s.next then seg == seg0
    else if RunningTask(s, i) then true
    else Finishes(p, i, seg0, seg)
  }

  ghost predicate WorkerState<L(!new), T(!new)>(p: Program<L, T>, m0: seq<T>, s: State<L, T>, w: nat)
    requires WellFormed(p, |m0|) && |s.mem| == |m0| && w < |s.workers|
  {
    match s.workers[w]
    case Exited => s.next >= |p.lo|
    case Fetching => true
    case Running(i, l) =>
      && i < |p.lo| && i < s.next
      && exists n: nat :: Reaches(p, i, Segment(p, m0, i), l, Segment(p, s.mem, i), n)
  }

  ghost predicate Outside<L, T>(p: Program<L, T>, k: nat)
    requires |p.lo| == |p.hi|
  {
    forall i :: 0 <= i < |p.lo| ==> !(p.lo[i] <= k < p.hi[i])
  }

  ghost predicate Invariant<L(!new), T(!new)>(p: Program<L, T>, m0: seq<T>, s: State<L, T>) {
    && WellFormed(p, |m0|) && |s.mem| == |m0|
    && (forall w :: 0 <= w < |s.workers| ==> WorkerState(p, m0, s, w))
    && (forall v, w :: 0 <= v < w < |s.workers| && s.workers[v].Running? && s.workers[w].Running? ==> s.workers[v].index != s.workers[w].index)
    && (forall i :: 0 <= i < |p.lo| ==> TaskState(p, m0, s, i))
    && (forall k :: 0 <= k < |m0| && Outside(p, k) ==> s.mem[k] == m0[k])
  }

  function Initial<L, T>(workers: nat, m0: seq<T>): State<L, T> {
    State(0, seq(workers, _ => Fetching), m0)
  }

  lemma InitialInvariant<L(!new), T(!new)>(p: Program<L, T>, workers: nat, m0: seq<T>)
    requires WellFormed(p, |m0|)
    ensures Invariant(p, m0, Initial(workers, m0))
  {
  }

  lemma SpliceSegments<L(!new), T(!new)>(p: Program<L, T>, mem: seq<T>, i: nat, seg: seq<T>, j: nat)
    requires WellFormed(p, |mem|) && i < |p.lo| && j < |p.lo| && |seg| == p.hi[i] - p.lo[i]
    ensures Segment(p, Splice(mem, p.lo[i], seg), j) == if j == i then seg else Segment(p, mem, j)
  {
  }

  lemma ReachesNext<L(!new), T>(p: Program<L, T>, i: nat, seg0: seq<T>, l: L, u: seq<T>, n: nat)
    requires Reaches(p, i, seg0, l, u, n) && !p.halted(i, l)
    ensures Reaches(p, i, seg0, p.step(i, l, u).0, p.step(i, l, u).1, n + 1)
  {
    forall k | 0 <= k < n + 1 ensures !p.halted(i, Iterate(p, i, seg0, k).0) {
      if k == n {
        assert Iterate(p, i, seg0, n).0 == l;
      }
    }
  }

  /** A worker finds the counter exhausted and leaves. */
  lemma ExitStep<L(!new), T(!new)>(p: Program<L, T>, m0: seq<T>, s: State<L, T>, w: nat)
    requires Invariant(p, m0, s) && w < |s.workers| && s.workers[w].Fetching? && s.next >= |p.lo|
    ensures Invariant(p, m0, WorkerStep(p, s, w))
  {
    var s' := WorkerStep(p, s, w);
    forall i | 0 <= i < |p.lo| ensures TaskState(p, m0, s', i) {
      assert TaskState(p, m0, s, i);
      OthersRun(s, s', w, i);
    }
    forall v | 0 <= v < |s.workers| ensures WorkerState(p, m0, s', v) {
      assert WorkerState(p, m0, s, v);
    }
  }

  /** Replacing a worker that was not running a task leaves the set of running
      tasks alone, but for the task it takes up. */
  lemma OthersRun<L, T>(s: State<L, T>, s': State<L, T>, w: nat, i: nat)
    requires w < |s.workers| == |s'.workers| && s'.workers == s.workers[w := s'.workers[w]]
    requires !(s.workers[w].Running? && s.workers[w].index == i)
    requires !(s'.workers[w].Running? && s'.workers[w].index == i)
    ensures RunningTask(s, i) <==> RunningTask(s', i)
  {
    if RunningTask(s, i) {
      var v :| 0 <= v < |s.workers| && s.workers[v].Running? && s.workers[v].index == i;
      assert s'.workers[v] == s.workers[v];
    }
    if RunningTask(s', i) {
      var v :| 0 <= v < |s'.workers| && s'.workers[v].Running? && s'.workers[v].index == i;
      assert s'.workers[v] == s.workers[v];
    }
  }

  /** A worker draws the next task number. */
  lemma ClaimStep<L(!new), T(!new)>(p: Program<L, T>, m0: seq<T>, s: State<L, T>, w: nat)
    requires Invariant(p, m0, s) && w < |s.workers| && s.workers[w].Fetching? && s.next < |p.lo|
    ensures Invariant(p, m0, WorkerStep(p, s, w))
  {
    var s' := WorkerStep(p, s, w);
    assert s'.workers == s.workers[w := Running(s.next, p.start(s.next))];
    forall v | 0 <= v < |s.workers| && s.workers[v].Running? ensures s.workers[v].index < s.next {
      assert WorkerState(p, m0, s, v);
    }
    forall i | 0 <= i < |p.lo| ensures TaskState(p, m0, s', i) {
      assert TaskState(p, m0, s, i);
      if i == s.next {
        assert s'.workers[w].Running? && s'.workers[w].index == i;
      } else {
        OthersRun(s, s', w, i);
      }
    }
    forall v | 0 <= v < |s.workers| ensures WorkerState(p, m0, s', v) {
      assert WorkerState(p, m0, s, v);
      if v == w {
        assert TaskState(p, m0, s, s.next);
        assert Reaches(p, s.next, Segment(p, m0, s.next), p.start(s.next), Segment(p, s'.mem, s.next), 0);
      }
    }
  }

  /** A worker's task has halted, and the worker goes back for another. */
  lemma FinishStep<L(!new), T(!new)>(p: Program<L, T>, m0: seq<T>, s: State<L, T>, w: nat)
    requires Invariant(p, m0, s) && w < |s.workers| && s.workers[w].Running? && s.workers[w].index < |p.lo|
    requires p.halted(s.workers[w].index, s.workers[w].local)
    ensures Invariant(p, m0, WorkerStep(p, s, w))
  {
    var s' := WorkerStep(p, s, w);
    var t := s.workers[w].index;
    assert s'.workers == s.workers[w := Fetching];
    assert WorkerState(p, m0, s, w);
    var n: nat :| Reaches(p, t, Segment(p, m0, t), s.workers[w].local, Segment(p, s.mem, t), n);
    assert Finishes(p, t, Segment(p, m0, t), Segment(p, s'.mem, t));
    forall i | 0 <= i < |p.lo| ensures TaskState(p, m0, s', i) {
      assert TaskState(p, m0, s, i);
      if i != t {
        OthersRun(s, s', w, i);
      }
    }
    forall v | 0 <= v < |s.workers| ensures WorkerState(p, m0, s', v) {
      assert WorkerState(p, m0, s, v);
    }
  }

  /** A worker advances its task by one step on the task's own segment. */
  lemma ComputeStep<L(!new), T(!new)>(p: Program<L, T>, m0: seq<T>, s: State<L, T>, w: nat)
    requires Invariant(p, m0, s) && w < |s.workers| && s.workers[w].Running? && s.workers[w].index < |p.lo|
    requires !p.halted(s.workers[w].index, s.workers[w].local)
    ensures Invariant(p, m0, WorkerStep(p, s, w))
  {
    var s' := WorkerStep(p, s, w);
    var t, l := s.workers[w].index, s.workers[w].local;
    var seg := Segment(p, s.mem, t);
    assert WorkerState(p, m0, s, w);
    var n: nat :| Reaches(p, t, Segment(p, m0, t), l, seg, n);
    ReachesNext(p, t, Segment(p, m0, t), l, seg, n);
    var (l', u) := p.step(t, l, seg);
    assert |u| == |seg|;
    assert s' == State(s.next, s.workers[w := Running(t, l')], Splice(s.mem, p.lo[t], u));
    ReachesNext(p, t, Segment(p, m0, t), l, seg, n);
    assert Reaches(p, t, Segment(p, m0, t), l', u, n + 1);
    hide Reaches, Finishes;
    forall v | 0 <= v < |s.workers| ensures WorkerState(p, m0, s', v) {
      ComputeWorker(p, m0, s, s', w, u, n + 1, v);
    }
    forall i | 0 <= i < |p.lo| ensures TaskState(p, m0, s', i) {
      ComputeTask(p, m0, s, s', w, u, i);
    }
    forall k | 0 <= k < |m0| && Outside(p, k) ensures s'.mem[k] == m0[k] {
      assert !(p.lo[t] <= k < p.hi[t]);
    }
  }

  /** Task `t` of worker `w` has computed: its segment is now `u`. */
  ghost predicate Computed<L(!new), T(!new)>(p: Program<L, T>, m0: seq<T>, s: State<L, T>, s': State<L, T>, w: nat, u: seq<T>) {
    && Invariant(p, m0, s) && w < |s.workers| == |s'.workers|
    && s.workers[w].Running? && s.workers[w].index < |p.lo|
    && s'.workers[w].Running? && s'.workers[w].index == s.workers[w].index
    && s'.workers == s.workers[w := s'.workers[w]] && s'.next == s.next
    && |u| == p.hi[s.workers[w].index] - p.lo[s.workers[w].index]
    && s'.mem == Splice(s.mem, p.lo[s.workers[w].index], u)
  }

  lemma ComputeWorker<L(!new), T(!new)>(p: Program<L, T>, m0: seq<T>, s: State<L, T>, s': State<L, T>, w: nat, u: seq<T>, n: nat, v: nat)
    requires Computed(p, m0, s, s', w, u) && v < |s.workers|
    requires Reaches(p, s.workers[w].index, Segment(p, m0, s.workers[w].index), s'.workers[w].local, u, n)
    ensures |s'.mem| == |m0| && WorkerState(p, m0, s', v)
  {
    var t := s.workers[w].index;
    assert WorkerState(p, m0, s, v) && WorkerState(p, m0, s, w);
    hide Reaches, Finishes;
    if s.workers[v].Running? {
      SpliceSegments(p, s.mem, t, u, s.workers[v].index);
      if v < w {
        assert s.workers[v].index != s.workers[w].index;
      } else if w < v {
        assert s.workers[w].index != s.workers[v].index;
      }
    }
  }

  lemma ComputeTask<L(!new), T(!new)>(p: Program<L, T>, m0: seq<T>, s: State<L, T>, s': State<L, T>, w: nat, u: seq<T>, i: nat)
    requires Computed(p, m0, s, s', w, u) && i < |p.lo|
    ensures |s'.mem| == |m0| && TaskState(p, m0, s', i)
  {
    var t := s.workers[w].index;
    assert WorkerState(p, m0, s, w) && TaskState(p, m0, s, i);
    hide Reaches, Finishes;
    SpliceSegments(p, s.mem, t, u, i);
    if i == t {
      assert s'.workers[w].index == i;
    } else {
      OthersRun(s, s', w, i);
    }
  }

  // ---------- Whole runs ----------

  /** A schedule says which worker takes each step. */
  ghost function Run<L(!new), T(!new)>(p: Program<L, T>, m0: seq<T>, s: State<L, T>, schedule: seq<nat>): (r: State<L, T>)
    requires Invariant(p, m0, s)
    ensures Invariant(p, m0, r) && |r.workers| == |s.workers|
    decreases |schedule|
  {
    if schedule == [] then s
    else if schedule[0] < |s.workers| then
      StepKeepsInvariant(p, m0, s, schedule[0]);
      Run(p, m0, WorkerStep(p, s, schedule[0]), schedule[1..])
    else Run(p, m0, s, schedule[1..])
  }

  lemma StepKeepsInvariant<L(!new), T(!new)>(p: Program<L, T>, m0: seq<T>, s: State<L, T>, w: nat)
    requires Invariant(p, m0, s) && w < |s.workers|
    ensures s.workers[w].Running? ==> s.workers[w].index < |p.lo|
    ensures Invariant(p, m0, WorkerStep(p, s, w)) && |WorkerStep(p, s, w).workers| == |s.workers|
  {
    assert WorkerState(p, m0, s, w);
    match s.workers[w]
    case Exited =>
    case Fetching =>
      if s.next >= |p.lo| {
        ExitStep(p, m0, s, w);
      } else {
        ClaimStep(p, m0, s, w);
      }
    case Running(i, l) =>
      if p.halted(i, l) {
        FinishStep(p, m0, s, w);
      } else {
        ComputeStep(p, m0, s, w);
      }
  }

  /** The join: every worker has left its loop. */
  ghost predicate Joined<L, T>(s: State<L, T>) {
    |s.workers| >= 1 && forall w :: 0 <= w < |s.workers| ==> s.workers[w].Exited?
  }

  /** When the workers have been joined, every task has run to its end, on the
      segment it found at the start. */
  lemma JoinedMeansFinished<L(!new), T(!new)>(p: Program<L, T>, m0: seq<T>, s: State<L, T>)
    requires Invariant(p, m0, s) && Joined(s)
    ensures s.next >= |p.lo|
    ensures forall i :: 0 <= i < |p.lo| ==> Finishes(p, i, Segment(p, m0, i), Segment(p, s.mem, i))
  {
    assert WorkerState(p, m0, s, 0);
    forall i | 0 <= i < |p.lo| ensures Finishes(p, i, Segment(p, m0, i), Segment(p, s.mem, i)) {
      assert TaskState(p, m0, s, i);
    }
  }

  /** A run of the whole call, from the moment the workers are spawned. */
  ghost function RunFromStart<L(!new), T(!new)>(p: Program<L, T>, m0: seq<T>, workers: nat, schedule: seq<nat>): (r: State<L, T>)
    requires WellFormed(p, |m0|)
    ensures Invariant(p, m0, r)
  {
    InitialInvariant(p, workers, m0);
    Run(p, m0, Initial(workers, m0), schedule)
  }

  /** Two complete runs, whatever their interleavings and numbers of workers,
      leave the same memory; a single worker's run is the sequential one. */
  lemma RunsAgree<L(!new), T(!new)>(p: Program<L, T>, m0: seq<T>, workers1: nat, schedule1: seq<nat>, workers2: nat, schedule2: seq<nat>)
    requires WellFormed(p, |m0|)
    requires Joined(RunFromStart(p, m0, workers1, schedule1)) && Joined(RunFromStart(p, m0, workers2, schedule2))
    ensures RunFromStart(p, m0, workers1, schedule1).mem == RunFromStart(p, m0, workers2, schedule2).mem
  {
    var s, t := RunFromStart(p, m0, workers1, schedule1), RunFromStart(p, m0, workers2, schedule2);
    JoinedMeansFinished(p, m0, s);
    JoinedMeansFinished(p, m0, t);
    hide RunFromStart, Finishes;
    forall k | 0 <= k < |m0| ensures s.mem[k] == t.mem[k] {
      if i :| 0 <= i < |p.lo| && p.lo[i] <= k < p.hi[i] {
        FinishesOnce(p, i, Segment(p, m0, i), Segment(p, s.mem, i), Segment(p, t.mem, i));
        assert Segment(p, s.mem, i)[k - p.lo[i]] == Segment(p, t.mem, i)[k - p.lo[i]];
      } else {
        assert Outside(p, k);
      }
    }
  }

  /** The task numbers drawn during a run, in the order they were drawn. */
  ghost function Claims<L(!new), T(!new)>(p: Program<L, T>, m0: seq<T>, s: State<L, T>, schedule: seq<nat>): seq<nat>
    requires Invariant(p, m0, s)
    decreases |schedule|
  {
    if schedule == [] then []
    else if schedule[0] < |s.workers| then
      StepKeepsInvariant(p, m0, s, schedule[0]);
      (if s.workers[schedule[0]].Fetching? && s.next < |p.lo| then [s.next] else [])
      + Claims(p, m0, WorkerStep(p, s, schedule[0]), schedule[1..])
    else Claims(p, m0, s, schedule[1..])
  }

  function Min(a: nat, b: nat): nat {
    if a < b then a else b
  }

  /** Every task number is drawn once, in increasing order. */
  lemma {:induction false} ClaimedOnce<L(!new), T(!new)>(p: Program<L, T>, m0: seq<T>, s: State<L, T>, schedule: seq<nat>)
    requires Invariant(p, m0, s)
    ensures var n, m := Min(s.next, |p.lo|), Min(Run(p, m0, s, schedule).next, |p.lo|);
      n <= m && Claims(p, m0, s, schedule) == seq(m - n, k => n + k)
    decreases |schedule|
  {
    if schedule != [] {
      if schedule[0] < |s.workers| {
        StepKeepsInvariant(p, m0, s, schedule[0]);
        ClaimedOnce(p, m0, WorkerStep(p, s, schedule[0]), schedule[1..]);
      } else {
        ClaimedOnce(p, m0, s, schedule[1..]);
      }
    }
  }

  /** In a joined run that means every task exactly once. */
  lemma EachTaskOnce<L(!new), T(!new)>(p: Program<L, T>, m0: seq<T>, workers: nat, schedule: seq<nat>)
    requires WellFormed(p, |m0|) && Invariant(p, m0, Initial(workers, m0))
    requires Joined(RunFromStart(p, m0, workers, schedule))
    ensures Claims(p, m0, Initial(workers, m0), schedule) == seq(|p.lo|, i => i)
  {
    hide Run, Claims;
    ClaimedOnce(p, m0, Initial(workers, m0), schedule);
    JoinedMeansFinished(p, m0, RunFromStart(p, m0, workers, schedule));
  }

  // ---------- Every run ends ----------

  /** Task `i`, from its own segment, halts within `cost[i]` steps. */
  ghost predicate Bounded<L(!new), T(!new)>(p: Program<L, T>, m0: seq<T>, cost: seq<nat>)
    requires WellFormed(p, |m0|)
  {
    && |cost| == |p.lo|
    && forall i, l, u, n: nat :: 0 <= i < |p.lo| && Reaches(p, i, Segment(p, m0, i), l, u, n) ==> n <= cost[i]
  }

  /** Steps a worker can still take without drawing another task. */
  ghost function WorkerFuel<L>(w: Worker<L>, n: nat, cost: seq<nat>): nat {
    match w
    case Exited => 0
    case Fetching => 1
    case Running(i, _) => if i < |cost| && n <= cost[i] then cost[i] - n + 2 else 0
  }

  ghost function WorkersFuel<L>(ws: seq<Worker<L>>, ns: seq<nat>, cost: seq<nat>): nat
    requires |ws| == |ns|
  {
    if ws == [] then 0
    else WorkerFuel(ws[|ws| - 1], ns[|ws| - 1], cost) + WorkersFuel(ws[..|ws| - 1], ns[..|ws| - 1], cost)
  }

  /** Steps for the tasks not drawn yet. */
  ghost function TasksFuel(cost: seq<nat>, next: nat): nat
    decreases |cost| - next
  {
    if next >= |cost| then 0 else cost[next] + 2 + TasksFuel(cost, next + 1)
  }

  lemma {:induction false} FuelUpdate<L>(ws: seq<Worker<L>>, ns: seq<nat>, cost: seq<nat>, w: nat, x: Worker<L>, n: nat)
    requires |ws| == |ns| && w < |ws|
    ensures WorkersFuel(ws[w := x], ns[w := n], cost) + WorkerFuel(ws[w], ns[w], cost) == WorkersFuel(ws, ns, cost) + WorkerFuel(x, n, cost)
  {
    var m := |ws| - 1;
    if w < m {
      FuelUpdate(ws[..m], ns[..m], cost, w, x, n);
      assert ws[w := x][..m] == ws[..m][w := x] && ns[w := n][..m] == ns[..m][w := n];
    } else {
      assert ws[w := x][..m] == ws[..m] && ns[w := n][..m] == ns[..m];
    }
  }

  /** `ns` records how many steps each running task has taken. */
  ghost predicate Counted<L(!new), T(!new)>(p: Program<L, T>, m0: seq<T>, s: State<L, T>, ns: seq<nat>) {
    && Invariant(p, m0, s) && |ns| == |s.workers|
    && forall w :: 0 <= w < |ns| ==> CountedWorker(p, m0, s, w, ns[w])
  }

  ghost predicate CountedWorker<L(!new), T(!new)>(p: Program<L, T>, m0: seq<T>, s: State<L, T>, w: nat, n: nat)
    requires Invariant(p, m0, s) && w < |s.workers|
  {
    s.workers[w].Running? ==>
      (var i := s.workers[w].index;
       i < |p.lo| && Reaches(p, i, Segment(p, m0, i), s.workers[w].local, Segment(p, s.mem, i), n))
  }

  /** A step of a worker that has not left uses up fuel. */
  lemma StepUsesFuel<L(!new), T(!new)>(p: Program<L, T>, m0: seq<T>, s: State<L, T>, ns: seq<nat>, w: nat, cost: seq<nat>) returns (ns': seq<nat>)
    requires Counted(p, m0, s, ns) && w < |s.workers| && !s.workers[w].Exited? && Bounded(p, m0, cost)
    requires s.workers[w].Running? ==> s.workers[w].index < |p.lo|
    ensures Counted(p, m0, WorkerStep(p, s, w), ns')
    ensures WorkersFuel(WorkerStep(p, s, w).workers, ns', cost) + TasksFuel(cost, WorkerStep(p, s, w).next) < WorkersFuel(s.workers, ns, cost) + TasksFuel(cost, s.next)
  {
    var s' := WorkerStep(p, s, w);
    StepKeepsInvariant(p, m0, s, w);
    assert CountedWorker(p, m0, s, w, ns[w]);
    var n := if s.workers[w].Running? && s'.workers[w].Running? then ns[w] + 1 else 0;
    ns' := ns[w := n];
    hide Invariant;
    if s.workers[w].Running? {
      var i, l := s.workers[w].index, s.workers[w].local;
      assert ns[w] <= cost[i];
      if s'.workers[w].Running? {
        ReachesNext(p, i, Segment(p, m0, i), l, Segment(p, s.mem, i), ns[w]);
        SpliceSegments(p, s.mem, i, p.step(i, l, Segment(p, s.mem, i)).1, i);
        assert n <= cost[i];
      }
    }
    CountedAfter(p, m0, s, ns, w, n);
    assert s'.workers == s.workers[w := s'.workers[w]];
    FuelUpdate(s.workers, ns, cost, w, s'.workers[w], n);
  }

  lemma CountedAfter<L(!new), T(!new)>(p: Program<L, T>, m0: seq<T>, s: State<L, T>, ns: seq<nat>, w: nat, n: nat)
    requires Counted(p, m0, s, ns) && w < |s.workers| && !s.workers[w].Exited?
    requires s.workers[w].Running? ==> s.workers[w].index < |p.lo|
    requires Invariant(p, m0, WorkerStep(p, s, w))
    requires n == if s.workers[w].Running? && WorkerStep(p, s, w).workers[w].Running? then ns[w] + 1 else 0
    ensures Counted(p, m0, WorkerStep(p, s, w), ns[w := n])
  {
    StepKeepsInvariant(p, m0, s, w);
    var s' := WorkerStep(p, s, w);
    hide Invariant, CountedWorker;
    var ns' := ns[w := n];
    forall v | 0 <= v < |ns'| ensures CountedWorker(p, m0, s', v, ns'[v]) {
      if v == w {
        CountedSelf(p, m0, s, w, ns[w]);
      } else {
        CountedOther(p, m0, s, w, v, ns[w], ns[v]);
      }
    }
  }

  lemma CountedSelf<L(!new), T(!new)>(p: Program<L, T>, m0: seq<T>, s: State<L, T>, w: nat, k: nat)
    requires Invariant(p, m0, s) && w < |s.workers| && !s.workers[w].Exited? && CountedWorker(p, m0, s, w, k)
    requires s.workers[w].Running? ==> s.workers[w].index < |p.lo|
    requires Invariant(p, m0, WorkerStep(p, s, w))
    ensures CountedWorker(p, m0, WorkerStep(p, s, w), w, if s.workers[w].Running? && WorkerStep(p, s, w).workers[w].Running? then k + 1 else 0)
  {
    var s' := WorkerStep(p, s, w);
    if s.workers[w].Fetching? {
      if s.next < |p.lo| {
        assert TaskState(p, m0, s, s.next);
        assert Reaches(p, s.next, Segment(p, m0, s.next), p.start(s.next), Segment(p, s'.mem, s.next), 0);
      }
    } else if s'.workers[w].Running? {
      var i, l := s.workers[w].index, s.workers[w].local;
      ReachesNext(p, i, Segment(p, m0, i), l, Segment(p, s.mem, i), k);
      SpliceSegments(p, s.mem, i, p.step(i, l, Segment(p, s.mem, i)).1, i);
    }
  }

  lemma CountedOther<L(!new), T(!new)>(p: Program<L, T>, m0: seq<T>, s: State<L, T>, w: nat, v: nat, k: nat, n: nat)
    requires Invariant(p, m0, s) && w < |s.workers| && v < |s.workers| && v != w
    requires CountedWorker(p, m0, s, w, k) && CountedWorker(p, m0, s, v, n)
    requires s.workers[w].Running? ==> s.workers[w].index < |p.lo|
    requires Invariant(p, m0, WorkerStep(p, s, w))
    ensures CountedWorker(p, m0, WorkerStep(p, s, w), v, n)
  {
    if s.workers[w].Running? && !p.halted(s.workers[w].index, s.workers[w].local) && s.workers[v].Running? {
      var i, l := s.workers[w].index, s.workers[w].local;
      assert s.workers[v].index != i by {
        if v < w {
          assert s.workers[v].index != s.workers[w].index;
        } else {
          assert s.workers[w].index != s.workers[v].index;
        }
      }
      SpliceSegments(p, s.mem, i, p.step(i, l, Segment(p, s.mem, i)).1, s.workers[v].index);
    }
  }

  /** Every scheduled worker is one that has not left yet. */
  ghost predicate Live<L(!new), T(!new)>(p: Program<L, T>, m0: seq<T>, s: State<L, T>, schedule: seq<nat>)
    requires Invariant(p, m0, s)
    decreases |schedule|
  {
    schedule != [] ==>
      && schedule[0] < |s.workers| && !s.workers[schedule[0]].Exited?
      && (StepKeepsInvariant(p, m0, s, schedule[0]); Live(p, m0, WorkerStep(p, s, schedule[0]), schedule[1..]))
  }

  lemma {:induction false} LiveRunsEnd<L(!new), T(!new)>(p: Program<L, T>, m0: seq<T>, s: State<L, T>, ns: seq<nat>, cost: seq<nat>, schedule: seq<nat>)
    requires Counted(p, m0, s, ns) && Bounded(p, m0, cost) && Live(p, m0, s, schedule)
    ensures |schedule| <= WorkersFuel(s.workers, ns, cost) + TasksFuel(cost, s.next)
    decreases |schedule|
  {
    if schedule != [] {
      StepKeepsInvariant(p, m0, s, schedule[0]);
      var ns' := StepUsesFuel(p, m0, s, ns, schedule[0], cost);
      LiveRunsEnd(p, m0, WorkerStep(p, s, schedule[0]), ns', cost, schedule[1..]);
    }
  }

  lemma {:induction false} FetchingFuel<L>(ws: seq<Worker<L>>, ns: seq<nat>, cost: seq<nat>)
    requires |ws| == |ns| && forall w :: 0 <= w < |ws| ==> ws[w].Fetching?
    ensures WorkersFuel(ws, ns, cost) == |ws|
  {
    if ws != [] {
      FetchingFuel(ws[..|ws| - 1], ns[..|ws| - 1], cost);
    }
  }

  /** Whatever the interleaving, the workers are all done after at most one exit
      step each, two steps of bookkeeping per task, and the tasks' own steps. */
  lemma EveryRunEnds<L(!new), T(!new)>(p: Program<L, T>, m0: seq<T>, workers: nat, cost: seq<nat>, schedule: seq<nat>)
    requires WellFormed(p, |m0|) && Invariant(p, m0, Initial(workers, m0)) && Bounded(p, m0, cost)
    requires Live(p, m0, Initial(workers, m0), schedule)
    ensures |schedule| <= workers + TasksFuel(cost, 0)
  {
    var s: State<L, T> := Initial(workers, m0);
    var ns := seq(workers, _ => 0);
    FetchingFuel(s.workers, ns, cost);
    assert Counted(p, m0, s, ns);
    LiveRunsEnd(p, m0, s, ns, cost, schedule);
  }

  // ---------- The call ----------

  const MAX_WORKERS := 64

  /** What the call does not decide: how many of the workers it asks for can be
      started, and who takes which step. */
  datatype Scheduler = Scheduler(spawned: nat, pick: nat -> nat)

  /** Threads asked for, the least number of lines worth it, and the scheduler. */
  datatype Parallelism = Parallelism(requested: nat, minLines: nat, world: Scheduler)

  /** `radix_parallel_threads`. */
  function ThreadsFor(par: Parallelism, lines: nat): nat {
    if par.requested <= 1 || lines < par.minLines then 1 else par.requested
  }

  /** The workers of a call: the caller, and those it could start. */
  function WorkerCount(tasks: nat, threads: nat, spawned: nat): (n: nat)
    ensures 1 <= n <= spawned + 1 && n <= 64
    ensures tasks >= 1 && threads >= 1 ==> n <= tasks && n <= threads
    ensures n == 1 || n == spawned + 1 || n == tasks || n == threads || n == 64
  {
    var want := Min(Min(threads, MAX_WORKERS), tasks);
    1 + if want == 0 then 0 else Min(spawned, want - 1)
  }

  /** The first worker from `from` on, going round, that has not left. */
  method NextLive<L>(workers: seq<Worker<L>>, from: nat) returns (w: nat)
    requires from < |workers|
    ensures w <= |workers|
    ensures w < |workers| ==> !workers[w].Exited?
    ensures w == |workers| ==> forall v :: 0 <= v < |workers| ==> workers[v].Exited?
  {
    w := from;
    while w < |workers| && workers[w].Exited?
      invariant from <= w <= |workers|
      invariant forall v :: from <= v < w ==> workers[v].Exited?
    {
      w := w + 1;
    }
    if w < |workers| {
      return;
    }
    w := 0;
    while w < from && workers[w].Exited?
      invariant 0 <= w <= from
      invariant forall v :: 0 <= v < w ==> workers[v].Exited?
    {
      w := w + 1;
    }
    if w == from {
      w := |workers|;
    }
  }

  lemma {:induction false} RunSnoc<L(!new), T(!new)>(p: Program<L, T>, m0: seq<T>, s: State<L, T>, schedule: seq<nat>, w: nat)
    requires Invariant(p, m0, s) && w < |s.workers|
    ensures var r := Run(p, m0, s, schedule);
      (r.workers[w].Running? ==> r.workers[w].index < |p.lo|) && Run(p, m0, s, schedule + [w]) == WorkerStep(p, r, w)
    decreases |schedule|
  {
    var all := schedule + [w];
    StepKeepsInvariant(p, m0, Run(p, m0, s, schedule), w);
    if schedule == [] {
      assert all[1..] == [];
    } else {
      assert all[0] == schedule[0] && all[1..] == schedule[1..] + [w];
      if schedule[0] < |s.workers| {
        StepKeepsInvariant(p, m0, s, schedule[0]);
        RunSnoc(p, m0, WorkerStep(p, s, schedule[0]), schedule[1..], w);
      } else {
        RunSnoc(p, m0, s, schedule[1..], w);
      }
    }
  }

  lemma StartCounted<L(!new), T(!new)>(p: Program<L, T>, m0: seq<T>, n: nat) returns (ns: seq<nat>)
    requires WellFormed(p, |m0|)
    ensures Counted(p, m0, Initial(n, m0), ns) && RunFromStart(p, m0, n, []) == Initial(n, m0)
  {
    ns := seq(n, _ => 0);
    InitialInvariant(p, n, m0);
  }

  lemma AllExited<L(!new), T(!new)>(p: Program<L, T>, m0: seq<T>, s: State<L, T>)
    requires |s.workers| >= 1 && forall w :: 0 <= w < |s.workers| ==> s.workers[w].Exited?
    ensures Joined(s)
  {
  }

  lemma CountedMeans<L(!new), T(!new)>(p: Program<L, T>, m0: seq<T>, s: State<L, T>, ns: seq<nat>, w: nat)
    requires Counted(p, m0, s, ns) && w < |s.workers|
    ensures |ns| == |s.workers| && Invariant(p, m0, s) && WellFormed(p, |s.mem|)
    ensures s.workers[w].Running? ==> s.workers[w].index < |p.lo|
  {
    StepKeepsInvariant(p, m0, s, w);
  }

  /** One step of one worker, in a run from the start. */
  lemma OneMore<L(!new), T(!new)>(p: Program<L, T>, m0: seq<T>, n: nat, schedule: seq<nat>, w: nat)
    requires WellFormed(p, |m0|) && w < n
    ensures var r := RunFromStart(p, m0, n, schedule);
      && |r.workers| == n && (r.workers[w].Running? ==> r.workers[w].index < |p.lo|)
      && RunFromStart(p, m0, n, schedule + [w]) == WorkerStep(p, r, w)
  {
    InitialInvariant(p, n, m0);
    RunSnoc(p, m0, Initial(n, m0), schedule, w);
  }

  /** So many workers may join and leave `mem`. */
  ghost predicate Outcome<L(!new), T(!new)>(p: Program<L, T>, m0: seq<T>, workers: nat, mem: seq<T>)
    requires WellFormed(p, |m0|)
  {
    exists schedule :: Joined(RunFromStart(p, m0, workers, schedule)) && mem == RunFromStart(p, m0, workers, schedule).mem
  }

  lemma OutcomeWhen<L(!new), T(!new)>(p: Program<L, T>, m0: seq<T>, workers: nat, schedule: seq<nat>)
    requires WellFormed(p, |m0|) && Joined(RunFromStart(p, m0, workers, schedule))
    ensures Outcome(p, m0, workers, RunFromStart(p, m0, workers, schedule).mem)
  {
  }

  lemma OutcomeMeans<L(!new), T(!new)>(p: Program<L, T>, m0: seq<T>, workers: nat, mem: seq<T>) returns (schedule: seq<nat>)
    requires WellFormed(p, |m0|) && Outcome(p, m0, workers, mem)
    ensures Joined(RunFromStart(p, m0, workers, schedule)) && mem == RunFromStart(p, m0, workers, schedule).mem
  {
    schedule :| Joined(RunFromStart(p, m0, workers, schedule)) && mem == RunFromStart(p, m0, workers, schedule).mem;
  }

  /** `rank_run_tasks`: workers step, in whatever order, until all have left. */
  method RunTasks<L(!new), T(!new)>(p: Program<L, T>, m0: seq<T>, threads: nat, world: Scheduler, ghost cost: seq<nat>)
    returns (mem: seq<T>)
    requires WellFormed(p, |m0|) && Bounded(p, m0, cost)
    ensures Outcome(p, m0, WorkerCount(|p.lo|, threads, world.spawned), mem)
  {
    hide *;
    var n := WorkerCount(|p.lo|, threads, world.spawned);
    var s := Initial(n, m0);
    ghost var schedule: seq<nat> := [];
    ghost var ns := StartCounted(p, m0, n);
    InitialIs<L, T>(n, m0);
    var k := 0;
    while true
      invariant n >= 1 && |s.workers| == n && s == RunFromStart(p, m0, n, schedule) && Counted(p, m0, s, ns) && |ns| == n
      decreases WorkersFuel(s.workers, ns, cost) + TasksFuel(cost, s.next)
    {
      var w := NextLive(s.workers, world.pick(k) % n);
      if w == n {
        AllExited(p, m0, s);
        OutcomeWhen(p, m0, n, schedule);
        return s.mem;
      }
      CountedMeans(p, m0, s, ns, w);
      OneMore(p, m0, n, schedule, w);
      ns := StepUsesFuel(p, m0, s, ns, w, cost);
      s := WorkerStep(p, s, w);
      schedule := schedule + [w];
      OneMore(p, m0, n, schedule, w);
      CountedMeans(p, m0, s, ns, w);
      k := k + 1;
    }
  }

  lemma InitialIs<L, T>(n: nat, m0: seq<T>)
    ensures var s: State<L, T> := Initial(n, m0); |s.workers| == n && s.mem == m0
  {
  }
}
