/** The persisted rows of populate jobs against the keys in memory, over whole runs and restarts. */
module DeferredRows {
  import opened Options
  import opened Paths
  import opened Pipeline
  import opened Protocol

  predicate Live(s: State, ts: nat) { ts >= Cutoff(s.now, s.ttlMinutes) }

  /** A row deletion that has been decided but not yet made. */
  ghost predicate CleanupPending(s: State, p: Path) {
    || (s.dispatcher.Expiring? && p in s.dispatcher.paths)
    || exists w :: w in s.workers && s.workers[w].phase.Cleaning? && s.workers[w].job.path == p && s.workers[w].job.kind == Populate
  }

  ghost predicate Accounted(s: State) {
    forall p :: p in s.deferred && Live(s, s.deferred[p]) ==> (p, Populate) in s.pipe.known || CleanupPending(s, p)
  }

  lemma PendingKept(s: State, s': State, p: Path)
    requires CleanupPending(s, p)
    requires s.dispatcher.Expiring? && p in s.dispatcher.paths ==> s'.dispatcher.Expiring? && p in s'.dispatcher.paths
    requires forall w :: w in s.workers && s.workers[w].phase.Cleaning? && s.workers[w].job.path == p && s.workers[w].job.kind == Populate
               ==> w in s'.workers && s'.workers[w] == s.workers[w]
    ensures CleanupPending(s', p)
  {
  }

  lemma ExpiredKeysPending(s: State, p: Path)
    requires s.dispatcher.Idle? && (p, Populate) in s.pipe.known && (p, Populate) !in AfterExpire(s).pipe.known
    ensures CleanupPending(AfterExpire(s), p)
  {
    var q, n := s.pipe.queue, ExpiredCount(s.pipe.queue, Cutoff(s.now, s.ttlMinutes));
    assert (p, Populate) in KeysOf(q[..n]);
    var j :| j in q[..n] && KeyOf(j) == (p, Populate);
    assert p in PopulatePaths(q[..n]);
  }

  lemma FinishedKeyPending(s: State, w: nat)
    requires w in s.workers && s.workers[w].job.kind == Populate
    ensures CleanupPending(FinishWorker(s, w), s.workers[w].job.path)
  {
    assert FinishWorker(s, w).workers[w].phase == Cleaning;
  }

  /** A key that leaves memory other than by a restart leaves a deletion to be made. */
  lemma LeavingKeyPends(s: State, step: Step, p: Path)
    requires Enabled(s, step) && !step.Restart? && (p, Populate) in s.pipe.known
    ensures (p, Populate) in Apply(s, step).pipe.known || CleanupPending(Apply(s, step), p)
  {
    var s' := Apply(s, step);
    if (p, Populate) !in s'.pipe.known {
      match step
      case Expire => ExpiredKeysPending(s, p);
      case SkipCached(w) => FinishedKeyPending(s, w);
      case Finish(w) => FinishedKeyPending(s, w);
    }
  }

  /** A deletion stays due until it is made. */
  lemma PendingUntilMade(s: State, step: Step, p: Path)
    requires Enabled(s, step) && !step.Restart? && s.nextWorker !in s.workers
    requires CleanupPending(s, p) && p in Apply(s, step).deferred
    ensures CleanupPending(Apply(s, step), p)
  {
    PendingKept(s, Apply(s, step), p);
  }

  lemma StepAccountedAt(s: State, step: Step, p: Path)
    requires Accounted(s) && Enabled(s, step) && s.nextWorker !in s.workers
    requires p in Apply(s, step).deferred && Live(Apply(s, step), Apply(s, step).deferred[p])
    ensures (p, Populate) in Apply(s, step).pipe.known || CleanupPending(Apply(s, step), p)
  {
    if step.Restart? {
      RehydratedShape(step.loaded);
    } else if (p, Populate) in s.pipe.known {
      LeavingKeyPends(s, step, p);
    } else if CleanupPending(s, p) {
      PendingUntilMade(s, step, p);
    }
  }

  lemma StepAccounted(s: State, step: Step)
    requires Accounted(s) && Enabled(s, step) && s.nextWorker !in s.workers
    ensures Accounted(Apply(s, step))
  {
    forall p | p in Apply(s, step).deferred && Live(Apply(s, step), Apply(s, step).deferred[p])
      ensures (p, Populate) in Apply(s, step).pipe.known || CleanupPending(Apply(s, step), p)
    {
      StepAccountedAt(s, step, p);
    }
  }

  /** With finishing and expiry split into their two real steps: in every state of every run, each
      row young enough to be loaded belongs to a known populate key or is about to be deleted. */
  lemma {:induction false} RunAccounted(ss: seq<State>, steps: seq<Step>, k: nat)
    requires IsRun(ss, steps) && k < |ss|
    ensures Accounted(ss[k])
  {
    if k > 0 {
      RunAccounted(ss, steps, k - 1);
      RunExclusive(ss, steps, k - 1);
      assert StepAt(ss, steps, k - 1);
      StepAccounted(ss[k - 1], steps[k - 1]);
    }
  }

  // ---------------------------------------------------------------- when a known key loses its row

  ghost predicate Backed(s: State) {
    forall p :: (p, Populate) in s.pipe.known ==> p in s.deferred
  }

  /** A delayed deletion that hits the row of a job admitted meanwhile. */
  predicate CleansKnown(s: State, step: Step) {
    || (step.Exit? && step.w in s.workers && s.workers[step.w].job.kind == Populate && (s.workers[step.w].job.path, Populate) in s.pipe.known)
    || (step.DropExpiredRow? && s.dispatcher.Expiring? && s.dispatcher.paths != [] && (s.dispatcher.paths[0], Populate) in s.pipe.known)
  }

  /** Every known populate key keeps a row to restart from, until a step cleans up a key that is
      known again; that step, and no other, leaves a key without its row. */
  lemma RowLostIff(s: State, step: Step)
    requires Backed(s) && Enabled(s, step) && OneJobPerKey(s)
    ensures Backed(Apply(s, step)) <==> !CleansKnown(s, step)
  {
    match step
    case Promote(w) => assert KeyOf(s.workers[w].job) in WorkedKeys(s.workers);
    case Restart(time, loaded) => RehydratedShape(loaded);
    case Exit(w) => assert CleansKnown(s, step) ==> s.workers[w].job.path !in Apply(s, step).deferred;
    case DropExpiredRow => assert CleansKnown(s, step) ==> s.dispatcher.paths[0] !in Apply(s, step).deferred;
    case _ =>
  }

  /** Over a whole run: every known populate key has its row in every state if and only if no step
      ever cleans up a key that is known again. */
  lemma RunBackedIff(ss: seq<State>, steps: seq<Step>)
    requires IsRun(ss, steps)
    ensures (forall k :: 0 <= k < |ss| ==> Backed(ss[k])) <==> (forall k :: 0 <= k < |steps| ==> !CleansKnown(ss[k], steps[k]))
  {
    if forall k :: 0 <= k < |ss| ==> Backed(ss[k]) {
      forall k | 0 <= k < |steps| ensures !CleansKnown(ss[k], steps[k]) { BackedStepIff(ss, steps, k); }
    }
    if forall k :: 0 <= k < |steps| ==> !CleansKnown(ss[k], steps[k]) {
      forall k | 0 <= k < |ss| ensures Backed(ss[k]) { BackedSoFar(ss, steps, k); }
    }
  }

  lemma BackedStepIff(ss: seq<State>, steps: seq<Step>, k: nat)
    requires IsRun(ss, steps) && k < |steps| && Backed(ss[k])
    ensures Backed(ss[k + 1]) <==> !CleansKnown(ss[k], steps[k])
  {
    RunExclusive(ss, steps, k);
    assert StepAt(ss, steps, k);
    RowLostIff(ss[k], steps[k]);
  }

  lemma {:induction false} BackedSoFar(ss: seq<State>, steps: seq<Step>, k: nat)
    requires IsRun(ss, steps) && k < |ss| && forall j :: 0 <= j < |steps| ==> !CleansKnown(ss[j], steps[j])
    ensures Backed(ss[k])
  {
    if k > 0 {
      BackedSoFar(ss, steps, k - 1);
      BackedStepIff(ss, steps, k - 1);
    }
  }

  const RACER: Path := ["a"]
  const RACE: seq<Step> := [Submit(RACER, Populate, false), Pop(true), Grant, SkipCached(0), Submit(RACER, Populate, false), Exit(0)]

  const RACE_KEY: Key := (RACER, Populate)
  const RACE_JOB: Job := Job(RACER, Populate, 0, 0)
  const AGAIN_JOB: Job := Job(RACER, Populate, 0, 1)

  /** The states of that run, field by field. */
  function RaceState(k: nat): State
    requires k <= 6
  {
    var queue := if k == 1 then [RACE_JOB] else if k >= 5 then [AGAIN_JOB] else [];
    var known: map<Key, Option<nat>> := if k in {1, 2, 3, 5, 6} then map[RACE_KEY := None] else map[];
    var tickets := if k == 0 then 0 else if k < 5 then 1 else 2;
    State(1, 0, 0, Pipe(queue, known, [], tickets),
          if k == 2 then Holding(RACE_JOB) else Idle,
          if k == 3 then map[0 := Worker(RACE_JOB, Starting)] else if k in {4, 5} then map[0 := Worker(RACE_JOB, Cleaning)] else map[],
          if k < 3 then 0 else 1,
          if k in {1, 2, 3, 4, 5} then map[RACER := 0] else map[],
          if k == 0 then [] else if k < 5 then [RACE_JOB] else [RACE_JOB, AGAIN_JOB],
          if k < 2 then [] else [Dequeue(RACE_JOB, true)], [])
  }

  lemma RaceStarts(k: nat)
    requires k < 3
    ensures Enabled(RaceState(k), RACE[k]) && RaceState(k + 1) == Apply(RaceState(k), RACE[k])
  {
    if k == 1 { assert RemoveAt([RACE_JOB], 0) == []; }
    if k == 2 { assert CopyWorkers(RaceState(2)) == {}; }
  }

  lemma RaceEnds(k: nat)
    requires 3 <= k < 6
    ensures Enabled(RaceState(k), RACE[k]) && RaceState(k + 1) == Apply(RaceState(k), RACE[k])
  {
  }

  /** A path submitted again while its finished worker has yet to delete the row loses the row. */
  lemma ResubmissionRace()
    ensures exists ss :: IsRun(ss, RACE) && !Backed(ss[|RACE|])
  {
    var ss := seq(7, k requires 0 <= k < 7 => RaceState(k));
    forall k | 0 <= k < 6 ensures StepAt(ss, RACE, k) { if k < 3 { RaceStarts(k); } else { RaceEnds(k); } }
    assert RACE_KEY in ss[6].pipe.known && RACER !in ss[6].deferred;
    assert IsRun(ss, RACE);
  }

  // ---------------------------------------------------------------- both halves in one step

  function PathSet(paths: seq<Path>): set<Path> { set p | p in paths }

  /** Finishing and expiry with their row deletions done at once. */
  datatype Move = Plain(step: Step) | Sweep | Complete(w: nat)

  function DropRows(s: State, paths: seq<Path>): State
    decreases |paths|
  {
    if paths == [] then s else DropRows(Apply(s, DropExpiredRow), paths[1..])
  }

  ghost predicate MoveEnabled(s: State, m: Move) {
    match m
    case Plain(step) => Enabled(s, step) && !step.Expire? && !step.DropExpiredRow? && !step.SkipCached? && !step.Finish? && !step.Exit?
    case Sweep => Enabled(s, Expire)
    case Complete(w) => Enabled(s, SkipCached(w)) || Enabled(s, Finish(w))
  }

  function AfterMove(s: State, m: Move): State {
    match m
    case Plain(step) => Apply(s, step)
    case Sweep =>
      var e := Apply(s, Expire);
      DropRows(e, if e.dispatcher.Expiring? then e.dispatcher.paths else [])
    case Complete(w) => Apply(FinishWorker(s, w), Exit(w))
  }

  lemma {:induction false} DropRowsEffect(s: State, paths: seq<Path>)
    requires s.dispatcher == ExpiringRest(paths)
    ensures DropRows(s, paths) == s.(deferred := s.deferred - PathSet(paths), dispatcher := Idle)
    decreases |paths|
  {
    if paths == [] {
      assert s.deferred - PathSet(paths) == s.deferred;
    } else {
      DropRowsEffect(Apply(s, DropExpiredRow), paths[1..]);
      assert PathSet(paths) == {paths[0]} + PathSet(paths[1..]);
      assert s.deferred - {paths[0]} - PathSet(paths[1..]) == s.deferred - PathSet(paths);
    }
  }

  /** The jobs a state still owes a result. */
  ghost predicate Owed(s: State, j: Job) {
    || j in s.pipe.queue
    || (s.dispatcher.Holding? && s.dispatcher.job == j)
    || exists w :: w in s.workers && Unfinished(s.workers[w]) && s.workers[w].job == j
  }

  ghost predicate NothingHalfDone(s: State) {
    !s.dispatcher.Expiring? && forall w :: w in s.workers ==> Unfinished(s.workers[w])
  }

  ghost predicate OwedHaveRows(s: State) {
    forall j :: Owed(s, j) && j.kind == Populate ==> j.path in s.deferred && s.deferred[j.path] == j.ts
  }

  ghost predicate LiveRowsKnown(s: State) {
    forall p :: p in s.deferred && Live(s, s.deferred[p]) ==> (p, Populate) in s.pipe.known
  }

  ghost predicate RowsMatchKeys(s: State) {
    Exclusive(s) && NothingHalfDone(s) && OwedHaveRows(s) && LiveRowsKnown(s)
  }

  lemma OwedIsKnown(s: State, j: Job)
    requires OneJobPerKey(s) && Owed(s, j)
    ensures KeyOf(j) in s.pipe.known
  {
  }

  lemma KnownIsOwed(s: State, key: Key)
    requires OneJobPerKey(s) && key in s.pipe.known
    ensures exists j :: Owed(s, j) && KeyOf(j) == key
  {
  }

  /** Only an admitted submission adds to what is owed. */
  lemma OwedBefore(s: State, step: Step, j: Job)
    requires Enabled(s, step) && !step.Restart? && Owed(Apply(s, step), j)
    ensures Owed(s, j) || (step.Submit? && Admits(s.pipe, step.path, step.kind, step.cached)
                           && j == Job(step.path, step.kind, s.now, s.pipe.nextTicket))
  {
  }

  lemma PlainOwed(s: State, step: Step)
    requires OneJobPerKey(s) && OwedHaveRows(s) && MoveEnabled(s, Plain(step)) && !step.Restart?
    ensures OwedHaveRows(Apply(s, step))
  {
    var s' := Apply(s, step);
    forall j | Owed(s', j) && j.kind == Populate ensures j.path in s'.deferred && s'.deferred[j.path] == j.ts {
      OwedBefore(s, step, j);
      if Owed(s, j) { OwedIsKnown(s, j); }
    }
  }

  lemma PlainLive(s: State, step: Step)
    requires LiveRowsKnown(s) && MoveEnabled(s, Plain(step)) && !step.Restart?
    ensures LiveRowsKnown(Apply(s, step))
  {
  }

  lemma RestartRows(s: State, time: nat, loaded: seq<(Path, nat)>)
    requires Enabled(s, Restart(time, loaded))
    ensures OwedHaveRows(Apply(s, Restart(time, loaded))) && LiveRowsKnown(Apply(s, Restart(time, loaded)))
  {
    var s' := Apply(s, Restart(time, loaded));
    RehydratedShape(loaded);
    forall j | Owed(s', j) ensures j.path in s'.deferred && s'.deferred[j.path] == j.ts {
      assert j in s'.pipe.queue;
    }
  }

  lemma PlainHalfDone(s: State, step: Step)
    requires NothingHalfDone(s) && MoveEnabled(s, Plain(step))
    ensures NothingHalfDone(Apply(s, step))
  {
  }

  lemma PlainRows(s: State, step: Step)
    requires OneJobPerKey(s) && OwedHaveRows(s) && LiveRowsKnown(s) && MoveEnabled(s, Plain(step))
    ensures OwedHaveRows(Apply(s, step)) && LiveRowsKnown(Apply(s, step))
  {
    if step.Restart? { RestartRows(s, step.time, step.loaded); }
    else { PlainOwed(s, step); PlainLive(s, step); }
  }

  lemma PlainKeepsRows(s: State, step: Step)
    requires RowsMatchKeys(s) && MoveEnabled(s, Plain(step))
    ensures RowsMatchKeys(Apply(s, step))
  {
    StepExclusive(s, step);
    PlainHalfDone(s, step);
    PlainRows(s, step);
  }

  lemma SweptPaths(q: seq<Job>, p: Path)
    ensures p in PathSet(PopulatePaths(q)) <==> (p, Populate) in KeysOf(q)
  {
  }

  lemma SweepRows(s: State, s': State)
    requires OneJobPerKey(AfterExpire(s)) && s.dispatcher.Idle? && OwedHaveRows(s) && LiveRowsKnown(s)
    requires var n := ExpiredCount(s.pipe.queue, Cutoff(s.now, s.ttlMinutes));
      s' == AfterExpire(s).(deferred := s.deferred - PathSet(PopulatePaths(s.pipe.queue[..n])), dispatcher := Idle)
    ensures OwedHaveRows(s') && LiveRowsKnown(s')
  {
    var e, gone := AfterExpire(s), s.pipe.queue[..ExpiredCount(s.pipe.queue, Cutoff(s.now, s.ttlMinutes))];
    forall j | Owed(s', j) && j.kind == Populate ensures j.path in s'.deferred && s'.deferred[j.path] == j.ts {
      assert Owed(e, j) && Owed(s, j);
      OwedIsKnown(e, j);
      SweptPaths(gone, j.path);
    }
    forall p | p in s'.deferred && Live(s', s'.deferred[p]) ensures (p, Populate) in s'.pipe.known {
      SweptPaths(gone, p);
    }
  }

  lemma SweepKeepsRows(s: State)
    requires RowsMatchKeys(s) && s.dispatcher.Idle? && s.ttlMinutes != 0
    ensures RowsMatchKeys(AfterMove(s, Sweep))
  {
    var e, s' := AfterExpire(s), AfterMove(s, Sweep);
    DropRowsEffect(e, PopulatePaths(s.pipe.queue[..ExpiredCount(s.pipe.queue, Cutoff(s.now, s.ttlMinutes))]));
    StepExclusive(s, Expire);
    SweepRows(s, s');
    assert HeldKeys(s'.dispatcher) == HeldKeys(e.dispatcher);
    SameWorkersPhased(e, s');
    KeptControls(e, s');
  }

  lemma CompleteRows(s: State, w: nat)
    requires OneJobPerKey(s) && OneJobPerKey(FinishWorker(s, w)) && OwedHaveRows(s) && LiveRowsKnown(s)
    requires w in s.workers && Unfinished(s.workers[w])
    ensures OwedHaveRows(AfterMove(s, Complete(w))) && LiveRowsKnown(AfterMove(s, Complete(w)))
  {
    var f, s', job := FinishWorker(s, w), AfterMove(s, Complete(w)), s.workers[w].job;
    forall j | Owed(s', j) && j.kind == Populate ensures j.path in s'.deferred && s'.deferred[j.path] == j.ts {
      OwedBefore(f, Exit(w), j);
      OwedIsKnown(f, j);
      OwedUnlessFinished(s, w, j);
    }
  }

  lemma OwedUnlessFinished(s: State, w: nat, j: Job)
    requires w in s.workers && Owed(FinishWorker(s, w), j)
    ensures Owed(s, j)
  {
  }

  lemma CompleteKeepsRows(s: State, w: nat)
    requires RowsMatchKeys(s) && MoveEnabled(s, Complete(w))
    ensures RowsMatchKeys(AfterMove(s, Complete(w)))
  {
    var step := if Enabled(s, SkipCached(w)) then SkipCached(w) else Finish(w);
    StepExclusive(s, step);
    StepExclusive(FinishWorker(s, w), Exit(w));
    CompleteRows(s, w);
  }

  lemma MoveKeepsRows(s: State, m: Move)
    requires RowsMatchKeys(s) && MoveEnabled(s, m)
    ensures RowsMatchKeys(AfterMove(s, m))
  {
    match m
    case Plain(step) => PlainKeepsRows(s, step);
    case Sweep => if s.ttlMinutes != 0 { SweepKeepsRows(s); }
    case Complete(w) => CompleteKeepsRows(s, w);
  }

  ghost predicate IsMoveRun(ss: seq<State>, ms: seq<Move>) {
    && |ss| == |ms| + 1
    && ss[0] == Init(ss[0].permits, ss[0].ttlMinutes, ss[0].now)
    && forall k :: 0 <= k < |ms| ==> MoveAt(ss, ms, k)
  }

  ghost predicate MoveAt(ss: seq<State>, ms: seq<Move>, k: nat)
    requires |ss| == |ms| + 1 && k < |ms|
  {
    MoveEnabled(ss[k], ms[k]) && ss[k + 1] == AfterMove(ss[k], ms[k])
  }

  /** With finishing and expiry each taken as one step, rows and populate keys coincide: every job
      still owed has its row with its own timestamp, and every loadable row has its key. */
  lemma {:induction false} MoveRunKeepsRows(ss: seq<State>, ms: seq<Move>, k: nat)
    requires IsMoveRun(ss, ms) && k < |ss|
    ensures RowsMatchKeys(ss[k])
  {
    if k == 0 {
      InitExclusive(ss[0]);
    } else {
      MoveRunKeepsRows(ss, ms, k - 1);
      assert MoveAt(ss, ms, k - 1);
      MoveKeepsRows(ss[k - 1], ms[k - 1]);
    }
  }

  /** `r` is the requeued form of the owed job `j`. */
  predicate Requeues(r: Job, j: Job) {
    j.kind == Populate && r.kind == Populate && r.path == j.path && r.ts == j.ts
  }

  lemma RequeuedOnlyOwed(s: State, time: nat, loaded: seq<(Path, nat)>, i: nat)
    requires OneJobPerKey(s) && OwedHaveRows(s) && LiveRowsKnown(s) && time >= s.now
    requires IsLoad(s.deferred, Cutoff(time, s.ttlMinutes), loaded) && i < |loaded|
    ensures exists j :: Owed(s, j) && j.ts >= Cutoff(time, s.ttlMinutes) && j.kind == Populate && j.path == loaded[i].0 && j.ts == loaded[i].1
  {
    KnownIsOwed(s, (loaded[i].0, Populate));
  }

  lemma OwedIsRequeued(s: State, time: nat, loaded: seq<(Path, nat)>, j: Job)
    requires OwedHaveRows(s) && IsLoad(s.deferred, Cutoff(time, s.ttlMinutes), loaded)
    requires Owed(s, j) && j.kind == Populate && j.ts >= Cutoff(time, s.ttlMinutes)
    ensures exists i :: 0 <= i < |loaded| && j.path == loaded[i].0 && j.ts == loaded[i].1
  {
  }

  lemma RestartRequeuesYoung(ss: seq<State>, ms: seq<Move>, k: nat, time: nat, loaded: seq<(Path, nat)>)
    requires IsMoveRun(ss, ms) && k < |ss| && Enabled(ss[k], Restart(time, loaded))
    ensures var q, cutoff := Apply(ss[k], Restart(time, loaded)).pipe.queue, Cutoff(time, ss[k].ttlMinutes);
      && DistinctKeys(q)
      && (forall r :: r in q ==> exists j :: Owed(ss[k], j) && j.ts >= cutoff && Requeues(r, j))
      && (forall j :: Owed(ss[k], j) && j.kind == Populate && j.ts >= cutoff ==> exists r :: r in q && Requeues(r, j))
  {
    MoveRunKeepsRows(ss, ms, k);
    var s, q := ss[k], Rehydrated(loaded).queue;
    RestartKeys(s, time, loaded);
    RehydratedShape(loaded);
    forall r | r in q ensures exists j :: Owed(s, j) && j.ts >= Cutoff(time, s.ttlMinutes) && Requeues(r, j) {
      var i :| 0 <= i < |q| && q[i] == r;
      RequeuedOnlyOwed(s, time, loaded, i);
    }
    forall j | Owed(s, j) && j.kind == Populate && j.ts >= Cutoff(time, s.ttlMinutes)
      ensures exists r :: r in q && Requeues(r, j)
    {
      OwedIsRequeued(s, time, loaded, j);
      var i :| 0 <= i < |loaded| && j.path == loaded[i].0 && j.ts == loaded[i].1;
      assert q[i] in q && Requeues(q[i], j);
    }
  }

  /** A restart at any point of such a run requeues each unfinished populate path whose row is
      young enough, once, with its old timestamp, and requeues nothing else. */
  lemma RestartRequeuesOwed(ss: seq<State>, ms: seq<Move>, k: nat, time: nat, loaded: seq<(Path, nat)>)
    requires IsMoveRun(ss, ms) && k < |ss| && Enabled(ss[k], Restart(time, loaded))
    ensures var q := Apply(ss[k], Restart(time, loaded)).pipe.queue;
      && DistinctKeys(q)
      && (forall r :: r in q ==> exists j :: OwedAndYoung(ss[k], j, time) && Requeues(r, j))
      && (forall j :: OwedAndYoung(ss[k], j, time) && j.kind == Populate ==> exists r :: r in q && Requeues(r, j))
  {
    RestartRequeuesYoung(ss, ms, k, time, loaded);
    var q := Apply(ss[k], Restart(time, loaded)).pipe.queue;
    forall r | r in q ensures exists j :: OwedAndYoung(ss[k], j, time) && Requeues(r, j) {
      var j :| Owed(ss[k], j) && j.ts >= Cutoff(time, ss[k].ttlMinutes) && Requeues(r, j);
      assert OwedAndYoung(ss[k], j, time);
    }
  }

  /** Owed, and submitted at most the time-to-live, in minutes of 60 seconds, before `time`. */
  ghost predicate OwedAndYoung(s: State, j: Job, time: nat) {
    Owed(s, j) && j.ts + s.ttlMinutes * 60 >= time
  }
}
