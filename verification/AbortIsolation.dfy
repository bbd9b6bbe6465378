/** What an abort signal reaches: the copies of its own path that are in flight, and nothing else. */
module AbortIsolation {
  import opened Paths
  import opened Pipeline
  import opened Protocol

  predicate IsCopying(s: State, w: nat) {
    w in s.workers && s.workers[w].phase.Copying? && s.workers[w].phase.control < |s.pipe.aborted|
  }

  function AbortFlag(s: State, w: nat): bool
    requires IsCopying(s, w)
  {
    s.pipe.aborted[s.workers[w].phase.control]
  }

  /** One step raises the flag of a copy in flight exactly when it is an abort of that copy's path. */
  lemma FlagRaisedIff(s: State, step: Step, w: nat)
    requires OwnControls(s) && Enabled(s, step) && w in s.workers && s.workers[w].phase.Copying? && PhaseFitsKind(s.workers[w])
    requires w in Apply(s, step).workers && Apply(s, step).workers[w] == s.workers[w] && !step.Restart?
    ensures IsCopying(s, w) && IsCopying(Apply(s, step), w)
    ensures AbortFlag(Apply(s, step), w) <==> AbortFlag(s, w) || step == MarkAbort(s.workers[w].job.path)
  {
    if step.MarkAbort? && step.path != s.workers[w].job.path {
      OthersSpared(s, step.path, w);
    }
  }

  /** An abort of one path leaves the control of every copy of another path alone. */
  lemma OthersSpared(s: State, path: Path, w: nat)
    requires OwnControls(s) && IsCopying(s, w) && s.workers[w].job.path != path
    ensures AbortMarked(s.pipe, path).aborted[s.workers[w].phase.control] == AbortFlag(s, w)
  {
  }

  /** Before promotion there is nothing to signal: an abort then changes nothing at all. */
  lemma EarlyAbortIsLost(s: State, path: Path)
    requires OwnControls(s)
    requires forall w :: w in s.workers && s.workers[w].phase.Copying? ==> s.workers[w].job.path != path
    ensures Apply(s, MarkAbort(path)) == s
  {
  }

  /** Promotion installs a control of its own, not yet aborted, and keeps the job. */
  lemma PromotionStartsClear(s: State, w: nat)
    requires Enabled(s, Promote(w))
    ensures var s' := Apply(s, Promote(w));
      IsCopying(s', w) && !AbortFlag(s', w) && s'.workers[w].job == s.workers[w].job
  {
  }

  /** What the watcher does about a changed path: nothing unless it is cached; else it aborts, and only
      then asks for a validation. */
  function ChangeDispatched(s: State, path: Path, cached: bool): State {
    if cached then Apply(Apply(s, MarkAbort(path)), Submit(path, Validate, true)) else s
  }

  /** Whether or not the new validation is admitted, one is then known, and every copy of that path in
      flight has its flag up; other copies are spared. A path not cached is left alone, copies of it
      included. */
  lemma AbortThenValidate(s: State, path: Path, cached: bool, w: nat)
    requires OwnControls(s) && IsCopying(s, w) && s.workers[w].job.kind != Validate
    ensures var after := ChangeDispatched(s, path, cached);
      && after.workers == s.workers && IsCopying(after, w)
      && (AbortFlag(after, w) <==> AbortFlag(s, w) || (cached && s.workers[w].job.path == path))
      && (cached ==> (path, Validate) in after.pipe.known)
      && (!cached ==> after == s)
  {
    if s.workers[w].job.path != path { OthersSpared(s, path, w); }
  }

  predicate AbortsBetween(steps: seq<Step>, i: nat, j: nat, path: Path) {
    exists k :: i < k < j && k < |steps| && steps[k] == MarkAbort(path)
  }

  lemma AbortsBetweenStep(steps: seq<Step>, i: nat, j: nat, path: Path)
    requires i < j < |steps|
    ensures AbortsBetween(steps, i, j + 1, path) <==> AbortsBetween(steps, i, j, path) || steps[j] == MarkAbort(path)
  {
  }

  /** From state `i + 1` to state `j`, through no restart, worker `w` is the copying worker `x`. */
  ghost predicate KeepsCopying(ss: seq<State>, steps: seq<Step>, i: nat, j: nat, w: nat, x: Worker)
    requires i < j < |ss| && |ss| == |steps| + 1
  {
    && (forall k :: i < k <= j ==> w in ss[k].workers && ss[k].workers[w] == x)
    && (forall k :: i < k < j ==> !steps[k].Restart?)
  }

  /** From its promotion on, for as long as it copies, a worker's flag is up exactly when its path
      was aborted since that promotion: earlier aborts and aborts of other paths do not count. */
  lemma {:induction false} AbortedSincePromotionIff(ss: seq<State>, steps: seq<Step>, i: nat, j: nat, w: nat, x: Worker)
    requires IsRun(ss, steps) && i < j < |ss| && steps[i] == Promote(w) && KeepsCopying(ss, steps, i, j, w, x)
    ensures w in ss[i].workers && ss[i].workers[w].job == x.job && x.phase.Copying? && IsCopying(ss[j], w)
    ensures AbortFlag(ss[j], w) <==> AbortsBetween(steps, i, j, x.job.path)
  {
    if j == i + 1 {
      PromotedInto(ss, steps, i, w, x);
    } else {
      AbortedSincePromotionIff(ss, steps, i, j - 1, w, x);
      FlagRaisedAt(ss, steps, j - 1, w, x);
      AbortsBetweenStep(steps, i, j - 1, x.job.path);
    }
  }

  lemma PromotedInto(ss: seq<State>, steps: seq<Step>, k: nat, w: nat, x: Worker)
    requires IsRun(ss, steps) && k < |steps| && steps[k] == Promote(w) && w in ss[k + 1].workers && ss[k + 1].workers[w] == x
    ensures w in ss[k].workers && ss[k].workers[w].job == x.job && x.phase.Copying?
    ensures IsCopying(ss[k + 1], w) && !AbortFlag(ss[k + 1], w)
  {
    assert StepAt(ss, steps, k);
    PromotionStartsClear(ss[k], w);
  }

  lemma FlagRaisedAt(ss: seq<State>, steps: seq<Step>, k: nat, w: nat, x: Worker)
    requires IsRun(ss, steps) && k < |steps| && !steps[k].Restart? && x.phase.Copying?
    requires w in ss[k].workers && ss[k].workers[w] == x && w in ss[k + 1].workers && ss[k + 1].workers[w] == x
    ensures IsCopying(ss[k], w) && IsCopying(ss[k + 1], w)
    ensures AbortFlag(ss[k + 1], w) <==> AbortFlag(ss[k], w) || steps[k] == MarkAbort(x.job.path)
  {
    RunExclusive(ss, steps, k);
    assert StepAt(ss, steps, k);
    FlagRaisedIff(ss[k], steps[k], w);
  }
}
