/** The copy pipeline as a step system: submissions, the dispatcher, the workers, expiry, aborts and
    restarts interleave freely; each step is one critical section or one table write. */
module Protocol {
  import opened Options
  import opened Paths
  import opened Pipeline

  datatype Phase = Starting | Copying(control: nat) | Validating | Cleaning

  datatype Worker = Worker(job: Job, phase: Phase)

  /** The dispatcher's own progress: the rows of expired jobs it still has to delete, or the copy
      job it has popped and holds until a permit is free. */
  datatype Dispatcher = Idle | Expiring(paths: seq<Path>) | Holding(job: Job)

  datatype Dequeue = Dequeue(job: Job, copyAllowed: bool)

  datatype State = State(
    permits: nat,
    ttlMinutes: nat,
    now: nat,
    pipe: Pipe,
    dispatcher: Dispatcher,
    workers: map<nat, Worker>,
    nextWorker: nat,
    deferred: map<Path, nat>,
    submitted: seq<Job>,
    dequeued: seq<Dequeue>,
    lapsed: seq<Job>)

  datatype Step =
    | Tick(time: nat)
    | Submit(path: Path, kind: Kind, cached: bool)
    | MarkAbort(path: Path)
    | Expire
    | DropExpiredRow
    | Pop(copyAllowed: bool)
    | Grant
    | SkipCached(w: nat)
    | Promote(w: nat)
    | Finish(w: nat)
    | Exit(w: nat)
    | Restart(time: nat, loaded: seq<(Path, nat)>)

  function Init(permits: nat, ttlMinutes: nat, now: nat): State {
    State(permits, ttlMinutes, now, EMPTY_PIPE, Idle, map[], 0, map[], [], [], [])
  }

  function CopyWorkers(s: State): set<nat> {
    set w | w in s.workers && s.workers[w].job.kind != Validate
  }

  predicate Unfinished(w: Worker) { !w.phase.Cleaning? }

  /** Rows a process started at `time` loads, each once. */
  ghost predicate IsLoad(rows: map<Path, nat>, cutoff: nat, loaded: seq<(Path, nat)>) {
    && DistinctPaths(loaded)
    && (forall i :: 0 <= i < |loaded| ==> loaded[i].0 in rows && rows[loaded[i].0] == loaded[i].1 >= cutoff)
    && (forall p :: p in rows && rows[p] >= cutoff ==> exists i :: 0 <= i < |loaded| && loaded[i].0 == p)
  }

  ghost predicate Enabled(s: State, step: Step) {
    match step
    case Tick(time) => time >= s.now
    case Submit(_, _, _) => true
    case MarkAbort(_) => true
    case Expire => s.dispatcher.Idle?
    case DropExpiredRow => s.dispatcher.Expiring? && s.dispatcher.paths != []
    case Pop(_) => s.dispatcher.Idle?
    case Grant => s.dispatcher.Holding? && |CopyWorkers(s)| < s.permits
    case SkipCached(w) => w in s.workers && s.workers[w].phase.Starting? && s.workers[w].job.kind == Populate
    case Promote(w) => w in s.workers && s.workers[w].phase.Starting?
    case Finish(w) => w in s.workers && (s.workers[w].phase.Copying? || s.workers[w].phase.Validating?)
    case Exit(w) => w in s.workers && s.workers[w].phase.Cleaning?
    case Restart(time, loaded) => time >= s.now && IsLoad(s.deferred, Cutoff(time, s.ttlMinutes), loaded)
  }

  function Apply(s: State, step: Step): State {
    match step
    case Tick(time) => s.(now := time)
    case Submit(path, kind, cached) => AfterSubmit(s, path, kind, cached)
    case MarkAbort(path) => s.(pipe := AbortMarked(s.pipe, path))
    case Expire => if s.ttlMinutes == 0 then s else AfterExpire(s)
    case DropExpiredRow =>
      if s.dispatcher.Expiring? && s.dispatcher.paths != [] then
        s.(deferred := s.deferred - {s.dispatcher.paths[0]}, dispatcher := ExpiringRest(s.dispatcher.paths[1..]))
      else s
    case Pop(copyAllowed) => AfterPop(s, copyAllowed)
    case Grant =>
      if s.dispatcher.Holding? then
        s.(dispatcher := Idle, workers := s.workers[s.nextWorker := Worker(s.dispatcher.job, Starting)],
           nextWorker := s.nextWorker + 1)
      else s
    case SkipCached(w) => FinishWorker(s, w)
    case Promote(w) =>
      if w in s.workers then
        s.(pipe := Promoted(s.pipe, KeyOf(s.workers[w].job)),
           workers := s.workers[w := s.workers[w].(phase := Copying(|s.pipe.aborted|))])
      else s
    case Finish(w) => FinishWorker(s, w)
    case Exit(w) =>
      if w in s.workers then
        s.(workers := s.workers - {w},
           deferred := if s.workers[w].job.kind == Populate then s.deferred - {s.workers[w].job.path} else s.deferred)
      else s
    case Restart(time, loaded) =>
      var pipe := Rehydrated(loaded);
      State(s.permits, s.ttlMinutes, time, pipe, Idle, map[], 0, s.deferred, pipe.queue, [], [])
  }

  function AfterSubmit(s: State, path: Path, kind: Kind, cached: bool): State {
    if !Admits(s.pipe, path, kind, cached) then s
    else
      s.(pipe := Submitted(s.pipe, path, kind, cached, s.now),
         submitted := s.submitted + [Job(path, kind, s.now, s.pipe.nextTicket)],
         deferred := if kind == Populate then s.deferred[path := s.now] else s.deferred)
  }

  function ExpiringRest(paths: seq<Path>): Dispatcher {
    if paths == [] then Idle else Expiring(paths)
  }

  function AfterExpire(s: State): State {
    var cutoff := Cutoff(s.now, s.ttlMinutes);
    var gone := s.pipe.queue[..ExpiredCount(s.pipe.queue, cutoff)];
    s.(pipe := Expired(s.pipe, cutoff), dispatcher := ExpiringRest(PopulatePaths(gone)), lapsed := s.lapsed + gone)
  }

  function AfterPop(s: State, copyAllowed: bool): State {
    var i := PopIndex(s.pipe.queue, copyAllowed);
    if i == |s.pipe.queue| then s
    else
      var job := s.pipe.queue[i];
      var s' := s.(pipe := Popped(s.pipe, i), dequeued := s.dequeued + [Dequeue(job, copyAllowed)]);
      if job.kind == Validate then
        s'.(workers := s.workers[s.nextWorker := Worker(job, Validating)], nextWorker := s.nextWorker + 1)
      else s'.(dispatcher := Holding(job))
  }

  function FinishWorker(s: State, w: nat): State {
    if w in s.workers then
      s.(pipe := FinishedKey(s.pipe, KeyOf(s.workers[w].job)),
         workers := s.workers[w := s.workers[w].(phase := Cleaning)])
    else s
  }

  /** The states of a run and the steps between them. */
  ghost predicate IsRun(ss: seq<State>, steps: seq<Step>) {
    && |ss| == |steps| + 1
    && ss[0] == Init(ss[0].permits, ss[0].ttlMinutes, ss[0].now)
    && forall k :: 0 <= k < |steps| ==> StepAt(ss, steps, k)
  }

  ghost predicate StepAt(ss: seq<State>, steps: seq<Step>, k: nat)
    requires |ss| == |steps| + 1 && k < |steps|
  {
    Enabled(ss[k], steps[k]) && ss[k + 1] == Apply(ss[k], steps[k])
  }

  // ---------------------------------------------------------------- exclusivity

  ghost predicate DistinctKeys(q: seq<Job>) {
    forall i, j :: 0 <= i < j < |q| ==> KeyOf(q[i]) != KeyOf(q[j])
  }

  ghost predicate DistinctWorkers(ws: map<nat, Worker>) {
    forall v, w :: v in ws && w in ws && v != w && Unfinished(ws[v]) && Unfinished(ws[w]) ==> KeyOf(ws[v].job) != KeyOf(ws[w].job)
  }

  ghost function HeldKeys(d: Dispatcher): set<Key> {
    if d.Holding? then {KeyOf(d.job)} else {}
  }

  ghost function WorkedKeys(ws: map<nat, Worker>): set<Key> {
    set w | w in ws && Unfinished(ws[w]) :: KeyOf(ws[w].job)
  }

  /** The known keys are the disjoint union of the queued, the held and the worked ones, and each
      of the three has one job for each of its keys. */
  ghost predicate OneJobPerKey(s: State) {
    && DistinctKeys(s.pipe.queue)
    && DistinctWorkers(s.workers)
    && KeysOf(s.pipe.queue) !! HeldKeys(s.dispatcher)
    && KeysOf(s.pipe.queue) !! WorkedKeys(s.workers)
    && HeldKeys(s.dispatcher) !! WorkedKeys(s.workers)
    && s.pipe.known.Keys == KeysOf(s.pipe.queue) + HeldKeys(s.dispatcher) + WorkedKeys(s.workers)
  }

  ghost predicate PhaseFitsKind(w: Worker) {
    match w.phase
    case Starting => w.job.kind != Validate
    case Copying(_) => w.job.kind != Validate
    case Validating => w.job.kind == Validate
    case Cleaning => true
  }

  /** At most `permits` copy workers run; what the dispatcher holds is one further copy job. */
  ghost predicate WellPhased(s: State) {
    && (s.dispatcher.Holding? ==> s.dispatcher.job.kind != Validate)
    && (forall w :: w in s.workers ==> w < s.nextWorker && PhaseFitsKind(s.workers[w]))
    && |CopyWorkers(s)| <= s.permits
  }

  /** A promoted worker's control is the one its key maps to, and no one else's. */
  ghost predicate OwnControls(s: State) {
    && (forall w :: w in s.workers && s.workers[w].phase.Copying? ==>
          && s.workers[w].phase.control < |s.pipe.aborted|
          && ControlOf(s.pipe, KeyOf(s.workers[w].job)) == Some(s.workers[w].phase.control))
    && (forall key :: key in s.pipe.known && s.pipe.known[key].Some? ==> Controlled(s.workers, key, s.pipe.known[key].value))
    && (forall v, w :: v in s.workers && w in s.workers && s.workers[v].phase.Copying? && s.workers[v].phase == s.workers[w].phase ==> v == w)
  }

  ghost predicate Controlled(ws: map<nat, Worker>, key: Key, c: nat) {
    exists w :: w in ws && ws[w].phase == Copying(c) && KeyOf(ws[w].job) == key
  }

  ghost predicate Exclusive(s: State) {
    OneJobPerKey(s) && WellPhased(s) && OwnControls(s)
  }

  // Key sets under the queue and worker-table updates.

  lemma DropKeys(q: seq<Job>, n: nat)
    requires n <= |q| && DistinctKeys(q)
    ensures DistinctKeys(q[n..]) && KeysOf(q[n..]) == KeysOf(q) - KeysOf(q[..n])
    ensures KeysOf(q[..n]) <= KeysOf(q)
  {
  }

  lemma RemoveKey(q: seq<Job>, i: nat)
    requires i < |q| && DistinctKeys(q)
    ensures DistinctKeys(RemoveAt(q, i)) && KeysOf(RemoveAt(q, i)) == KeysOf(q) - {KeyOf(q[i])}
    ensures KeyOf(q[i]) in KeysOf(q)
  {
  }

  lemma AddWorker(ws: map<nat, Worker>, w: nat, x: Worker)
    requires w !in ws && Unfinished(x) && DistinctWorkers(ws) && KeyOf(x.job) !in WorkedKeys(ws)
    ensures DistinctWorkers(ws[w := x]) && WorkedKeys(ws[w := x]) == WorkedKeys(ws) + {KeyOf(x.job)}
  {
    var ws' := ws[w := x];
    assert forall v :: v in ws ==> v in ws' && ws'[v] == ws[v];
    assert w in ws' && ws'[w] == x;
  }

  lemma RephaseWorker(ws: map<nat, Worker>, w: nat, phase: Phase)
    requires w in ws && Unfinished(ws[w]) && DistinctWorkers(ws)
    ensures var ws' := ws[w := ws[w].(phase := phase)];
      && DistinctWorkers(ws')
      && WorkedKeys(ws') == if phase.Cleaning? then WorkedKeys(ws) - {KeyOf(ws[w].job)} else WorkedKeys(ws)
    ensures KeyOf(ws[w].job) in WorkedKeys(ws)
  {
    var ws' := ws[w := ws[w].(phase := phase)];
    assert forall v :: v in ws && v != w ==> v in ws' && ws'[v] == ws[v];
    assert w in ws' && ws'[w].phase == phase;
  }

  lemma DropWorker(ws: map<nat, Worker>, w: nat)
    requires w in ws && !Unfinished(ws[w]) && DistinctWorkers(ws)
    ensures DistinctWorkers(ws - {w}) && WorkedKeys(ws - {w}) == WorkedKeys(ws)
  {
    assert forall v :: v in ws && v != w ==> v in ws - {w} && (ws - {w})[v] == ws[v];
  }

  lemma StillControlled(ws: map<nat, Worker>, ws': map<nat, Worker>, key: Key, c: nat)
    requires Controlled(ws, key, c)
    requires forall w :: w in ws && ws[w].phase == Copying(c) && KeyOf(ws[w].job) == key ==> w in ws' && ws'[w] == ws[w]
    ensures Controlled(ws', key, c)
  {
  }

  // Preservation of the three parts, step by step.

  lemma SubmitKeys(s: State, path: Path, kind: Kind, cached: bool)
    requires OneJobPerKey(s)
    ensures OneJobPerKey(AfterSubmit(s, path, kind, cached))
  {
    if Admits(s.pipe, path, kind, cached) {
      KeysOfAppend(s.pipe.queue, Job(path, kind, s.now, s.pipe.nextTicket));
      assert forall j :: j in s.pipe.queue ==> KeyOf(j) in KeysOf(s.pipe.queue);
    }
  }

  lemma ExpireKeys(s: State)
    requires OneJobPerKey(s) && s.dispatcher.Idle?
    ensures OneJobPerKey(AfterExpire(s))
  {
    DropKeys(s.pipe.queue, ExpiredCount(s.pipe.queue, Cutoff(s.now, s.ttlMinutes)));
  }

  lemma PopKeys(s: State, copyAllowed: bool)
    requires OneJobPerKey(s) && s.nextWorker !in s.workers && s.dispatcher.Idle?
    ensures OneJobPerKey(AfterPop(s, copyAllowed))
  {
    var q, i := s.pipe.queue, PopIndex(s.pipe.queue, copyAllowed);
    if i < |q| {
      RemoveKey(q, i);
      if q[i].kind == Validate { AddWorker(s.workers, s.nextWorker, Worker(q[i], Validating)); }
    }
  }

  lemma GrantKeys(s: State)
    requires OneJobPerKey(s) && s.nextWorker !in s.workers && s.dispatcher.Holding?
    ensures OneJobPerKey(Apply(s, Grant))
  {
    AddWorker(s.workers, s.nextWorker, Worker(s.dispatcher.job, Starting));
  }

  lemma PromoteKeys(s: State, w: nat)
    requires OneJobPerKey(s) && Enabled(s, Promote(w))
    ensures OneJobPerKey(Apply(s, Promote(w)))
  {
    RephaseWorker(s.workers, w, Copying(|s.pipe.aborted|));
  }

  lemma FinishKeys(s: State, w: nat)
    requires OneJobPerKey(s) && w in s.workers && Unfinished(s.workers[w])
    ensures OneJobPerKey(FinishWorker(s, w))
  {
    RephaseWorker(s.workers, w, Cleaning);
  }

  lemma RehydratedKeys(loaded: seq<(Path, nat)>)
    requires DistinctPaths(loaded)
    ensures DistinctKeys(Rehydrated(loaded).queue) && Rehydrated(loaded).known.Keys == KeysOf(Rehydrated(loaded).queue)
  {
    RehydratedShape(loaded);
    var r := Rehydrated(loaded);
    forall key | key in r.known ensures key in KeysOf(r.queue) {
      var i :| 0 <= i < |loaded| && key == (loaded[i].0, Populate);
      assert r.queue[i] in r.queue && KeyOf(r.queue[i]) == key;
    }
  }

  lemma RestartKeys(s: State, time: nat, loaded: seq<(Path, nat)>)
    requires DistinctPaths(loaded)
    ensures OneJobPerKey(Apply(s, Restart(time, loaded)))
  {
    RehydratedKeys(loaded);
    assert HeldKeys(Idle) == {} && WorkedKeys(map[]) == {};
  }

  lemma StepKeys(s: State, step: Step)
    requires OneJobPerKey(s) && WellPhased(s) && Enabled(s, step)
    ensures OneJobPerKey(Apply(s, step))
  {
    match step
    case Tick(_) =>
    case Submit(path, kind, cached) => SubmitKeys(s, path, kind, cached);
    case MarkAbort(_) =>
    case Expire => if s.ttlMinutes != 0 { ExpireKeys(s); }
    case DropExpiredRow => assert HeldKeys(Apply(s, step).dispatcher) == HeldKeys(s.dispatcher);
    case Pop(copyAllowed) => PopKeys(s, copyAllowed);
    case Grant => GrantKeys(s);
    case SkipCached(w) => FinishKeys(s, w);
    case Promote(w) => PromoteKeys(s, w);
    case Finish(w) => FinishKeys(s, w);
    case Exit(w) => DropWorker(s.workers, w);
    case Restart(time, loaded) => RestartKeys(s, time, loaded);
  }

  lemma PopPhased(s: State, copyAllowed: bool)
    requires WellPhased(s)
    ensures WellPhased(AfterPop(s, copyAllowed))
  {
    assert CopyWorkers(AfterPop(s, copyAllowed)) == CopyWorkers(s);
  }

  lemma GrantPhased(s: State)
    requires WellPhased(s) && Enabled(s, Grant)
    ensures WellPhased(Apply(s, Grant))
  {
    assert CopyWorkers(Apply(s, Grant)) == CopyWorkers(s) + {s.nextWorker};
  }

  lemma RephasePhased(s: State, s': State, w: nat, phase: Phase)
    requires WellPhased(s) && w in s.workers && s'.workers == s.workers[w := s.workers[w].(phase := phase)]
    requires PhaseFitsKind(s.workers[w].(phase := phase))
    requires s'.nextWorker == s.nextWorker && s'.permits == s.permits && s'.dispatcher == s.dispatcher
    ensures WellPhased(s')
  {
    assert CopyWorkers(s') == CopyWorkers(s);
  }

  lemma ExitPhased(s: State, w: nat)
    requires WellPhased(s) && w in s.workers
    ensures WellPhased(Apply(s, Exit(w)))
  {
    SubsetSize(CopyWorkers(Apply(s, Exit(w))), CopyWorkers(s));
  }

  lemma SameWorkersPhased(s: State, s': State)
    requires WellPhased(s) && s'.workers == s.workers && s'.nextWorker == s.nextWorker && s'.permits == s.permits
    requires s'.dispatcher.Holding? ==> s'.dispatcher == s.dispatcher
    ensures WellPhased(s')
  {
  }

  lemma StepPhased(s: State, step: Step)
    requires WellPhased(s) && Enabled(s, step)
    ensures WellPhased(Apply(s, step))
  {
    var s' := Apply(s, step);
    match step
    case Pop(copyAllowed) => PopPhased(s, copyAllowed);
    case Grant => GrantPhased(s);
    case SkipCached(w) => RephasePhased(s, s', w, Cleaning);
    case Promote(w) => RephasePhased(s, s', w, Copying(|s.pipe.aborted|));
    case Finish(w) => RephasePhased(s, s', w, Cleaning);
    case Exit(w) => ExitPhased(s, w);
    case Restart(_, _) => assert CopyWorkers(s') == {};
    case _ => SameWorkersPhased(s, s');
  }

  lemma KeptControls(s: State, s': State)
    requires OwnControls(s)
    requires |s.pipe.aborted| <= |s'.pipe.aborted|
    requires forall key :: key in s'.pipe.known && s'.pipe.known[key].Some? ==> key in s.pipe.known && s.pipe.known[key] == s'.pipe.known[key]
    requires forall w :: w in s'.workers && s'.workers[w].phase.Copying? ==>
               w in s.workers && s.workers[w] == s'.workers[w] && ControlOf(s'.pipe, KeyOf(s.workers[w].job)) == ControlOf(s.pipe, KeyOf(s.workers[w].job))
    requires forall w :: w in s.workers && s.workers[w].phase.Copying? && KeyOf(s.workers[w].job) in s'.pipe.known
               ==> w in s'.workers && s'.workers[w] == s.workers[w]
    ensures OwnControls(s')
  {
  }

  lemma ExpireControls(s: State)
    requires Exclusive(s) && s.dispatcher.Idle?
    ensures OwnControls(AfterExpire(s))
  {
    var q, n := s.pipe.queue, ExpiredCount(s.pipe.queue, Cutoff(s.now, s.ttlMinutes));
    DropKeys(q, n);
    assert forall w :: w in s.workers && s.workers[w].phase.Copying? ==> KeyOf(s.workers[w].job) in WorkedKeys(s.workers);
    KeptControls(s, AfterExpire(s));
  }

  lemma PromotedControlled(s: State, w: nat, k: Key)
    requires OwnControls(s) && Enabled(s, Promote(w))
    requires var s' := Apply(s, Promote(w)); k in s'.pipe.known && s'.pipe.known[k].Some?
    ensures var s' := Apply(s, Promote(w)); Controlled(s'.workers, k, s'.pipe.known[k].value)
  {
    var s' := Apply(s, Promote(w));
    if k == KeyOf(s.workers[w].job) { assert s'.workers[w].phase == Copying(|s.pipe.aborted|); }
    else { StillControlled(s.workers, s'.workers, k, s.pipe.known[k].value); }
  }

  lemma PromoteControls(s: State, w: nat)
    requires OwnControls(s) && DistinctWorkers(s.workers) && Enabled(s, Promote(w))
    ensures OwnControls(Apply(s, Promote(w)))
  {
    var s' := Apply(s, Promote(w));
    assert forall v :: v in s'.workers && v != w ==> v in s.workers && s'.workers[v] == s.workers[v];
    assert forall v :: v in s.workers && s.workers[v].phase.Copying? ==> KeyOf(s.workers[v].job) != KeyOf(s.workers[w].job) && v != w;
    forall k | k in s'.pipe.known && s'.pipe.known[k].Some? ensures Controlled(s'.workers, k, s'.pipe.known[k].value) {
      PromotedControlled(s, w, k);
    }
  }

  lemma FinishControls(s: State, w: nat)
    requires Exclusive(s) && w in s.workers && Unfinished(s.workers[w])
    ensures OwnControls(FinishWorker(s, w))
  {
    assert forall v :: v in s.workers && v != w && s.workers[v].phase.Copying? ==> KeyOf(s.workers[v].job) != KeyOf(s.workers[w].job);
    KeptControls(s, FinishWorker(s, w));
  }

  lemma RestartControls(s: State, time: nat, loaded: seq<(Path, nat)>)
    requires DistinctPaths(loaded)
    ensures OwnControls(Apply(s, Restart(time, loaded)))
  {
    RehydratedShape(loaded);
  }

  lemma PopControls(s: State, copyAllowed: bool)
    requires OwnControls(s) && s.nextWorker !in s.workers
    ensures OwnControls(AfterPop(s, copyAllowed))
  {
    KeptControls(s, AfterPop(s, copyAllowed));
  }

  lemma SubmitControls(s: State, path: Path, kind: Kind, cached: bool)
    requires OneJobPerKey(s) && OwnControls(s)
    ensures OwnControls(AfterSubmit(s, path, kind, cached))
  {
  }

  lemma WorkerControls(s: State, step: Step)
    requires OwnControls(s) && s.nextWorker !in s.workers && Enabled(s, step) && (step.Grant? || step.Exit?)
    ensures OwnControls(Apply(s, step))
  {
    KeptControls(s, Apply(s, step));
  }

  lemma StepControls(s: State, step: Step)
    requires Exclusive(s) && Enabled(s, step)
    ensures OwnControls(Apply(s, step))
  {
    match step
    case Tick(_) => KeptControls(s, Apply(s, step));
    case Submit(path, kind, cached) => SubmitControls(s, path, kind, cached);
    case MarkAbort(_) => KeptControls(s, Apply(s, step));
    case Expire => if s.ttlMinutes != 0 { ExpireControls(s); }
    case DropExpiredRow => KeptControls(s, Apply(s, step));
    case Pop(copyAllowed) => PopControls(s, copyAllowed);
    case Grant => WorkerControls(s, step);
    case SkipCached(w) => FinishControls(s, w);
    case Promote(w) => PromoteControls(s, w);
    case Finish(w) => FinishControls(s, w);
    case Exit(w) => WorkerControls(s, step);
    case Restart(time, loaded) => RestartControls(s, time, loaded);
  }

  lemma {:induction false} StepExclusive(s: State, step: Step)
    requires Exclusive(s) && Enabled(s, step)
    ensures Exclusive(Apply(s, step))
  {
    StepKeys(s, step);
    StepPhased(s, step);
    StepControls(s, step);
  }

  lemma {:induction false} SubsetSize<T>(a: set<T>, b: set<T>)
    requires a <= b
    ensures |a| <= |b|
  {
    if a != {} {
      var x :| x in a;
      SubsetSize(a - {x}, b - {x});
    }
  }

  lemma InitExclusive(s: State)
    requires s == Init(s.permits, s.ttlMinutes, s.now)
    ensures Exclusive(s)
  {
  }

  /** In every state of every run: the known keys are exactly the disjoint union of queued, held and
      worked keys, each with one job; no more copy workers than permits; each copy owns its control. */
  lemma {:induction false} RunExclusive(ss: seq<State>, steps: seq<Step>, k: nat)
    requires IsRun(ss, steps) && k < |ss|
    ensures Exclusive(ss[k])
    ensures ss[k].permits == ss[0].permits && ss[k].ttlMinutes == ss[0].ttlMinutes
  {
    if k == 0 {
      InitExclusive(ss[0]);
    } else {
      RunExclusive(ss, steps, k - 1);
      assert StepAt(ss, steps, k - 1);
      StepExclusive(ss[k - 1], steps[k - 1]);
    }
  }
}
