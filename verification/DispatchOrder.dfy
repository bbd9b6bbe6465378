/** What becomes of submitted jobs over whole runs: the order in which they are dequeued, that none
    is lost or doubled, and that expiry takes exactly the old ones. */
module DispatchOrder {
  import opened Paths
  import opened Pipeline
  import opened Protocol

  function JobsOf(ds: seq<Dequeue>): seq<Job> {
    if ds == [] then [] else JobsOf(ds[..|ds| - 1]) + [ds[|ds| - 1].job]
  }

  ghost predicate TicketsRise(q: seq<Job>) {
    forall i, j :: 0 <= i < j < |q| ==> q[i].ticket < q[j].ticket
  }

  /** Jobs of one kind leave in submission order, whichever way they leave. */
  ghost predicate LeftBefore(gone: seq<Job>, q: seq<Job>) {
    forall j, k :: j in gone && k in q && j.kind == k.kind ==> j.ticket < k.ticket
  }

  ghost predicate DequeuedInOrder(ds: seq<Dequeue>) {
    forall a, b :: 0 <= a < b < |ds| && ds[a].job.kind == ds[b].job.kind ==> ds[a].job.ticket < ds[b].job.ticket
  }

  ghost predicate WindowRespected(ds: seq<Dequeue>) {
    forall a :: 0 <= a < |ds| ==> ds[a].copyAllowed || ds[a].job.kind == Validate
  }

  ghost predicate Numbered(s: State) {
    |s.submitted| == s.pipe.nextTicket && forall t :: 0 <= t < |s.submitted| ==> s.submitted[t].ticket == t
  }

  ghost predicate Conserved(s: State) {
    multiset(s.submitted) == multiset(s.pipe.queue) + multiset(JobsOf(s.dequeued)) + multiset(s.lapsed)
  }

  ghost predicate InOrder(q: seq<Job>, ds: seq<Dequeue>, lapsed: seq<Job>) {
    && TicketsRise(q)
    && LeftBefore(JobsOf(ds), q)
    && LeftBefore(lapsed, q)
    && DequeuedInOrder(ds)
    && WindowRespected(ds)
  }

  ghost predicate Orderly(s: State) {
    Numbered(s) && Conserved(s) && InOrder(s.pipe.queue, s.dequeued, s.lapsed)
  }

  lemma {:induction false} JobsOfMembers(ds: seq<Dequeue>)
    ensures |JobsOf(ds)| == |ds|
    ensures forall i :: 0 <= i < |ds| ==> JobsOf(ds)[i] == ds[i].job
  {
    if ds != [] { JobsOfMembers(ds[..|ds| - 1]); }
  }

  lemma SubmittedMembers(s: State, j: Job)
    requires Numbered(s) && Conserved(s) && j in s.pipe.queue
    ensures j.ticket < s.pipe.nextTicket
  {
    assert j in multiset(s.pipe.queue);
    assert j in multiset(s.submitted);
  }

  lemma GoneMembers(s: State, j: Job)
    requires Numbered(s) && Conserved(s) && (j in JobsOf(s.dequeued) || j in s.lapsed)
    ensures j.ticket < s.pipe.nextTicket
  {
    assert j in multiset(JobsOf(s.dequeued)) || j in multiset(s.lapsed);
    assert j in multiset(s.submitted);
  }

  lemma AppendInOrder(q: seq<Job>, ds: seq<Dequeue>, lapsed: seq<Job>, job: Job)
    requires InOrder(q, ds, lapsed)
    requires forall j :: j in q || j in JobsOf(ds) || j in lapsed ==> j.ticket < job.ticket
    ensures InOrder(q + [job], ds, lapsed)
  {
  }

  lemma SubmitOrderly(s: State, path: Path, kind: Kind, cached: bool)
    requires Orderly(s)
    ensures Orderly(AfterSubmit(s, path, kind, cached))
  {
    if Admits(s.pipe, path, kind, cached) {
      forall j | j in s.pipe.queue ensures j.ticket < s.pipe.nextTicket { SubmittedMembers(s, j); }
      forall j | j in JobsOf(s.dequeued) || j in s.lapsed ensures j.ticket < s.pipe.nextTicket { GoneMembers(s, j); }
      AppendInOrder(s.pipe.queue, s.dequeued, s.lapsed, Job(path, kind, s.now, s.pipe.nextTicket));
    }
  }

  lemma LeftBeforeAppend(a: seq<Job>, b: seq<Job>, q: seq<Job>)
    requires LeftBefore(a, q) && LeftBefore(b, q)
    ensures LeftBefore(a + b, q)
  {
  }

  lemma LeftBeforeFewer(gone: seq<Job>, q: seq<Job>, r: seq<Job>)
    requires LeftBefore(gone, q) && forall j :: j in r ==> j in q
    ensures LeftBefore(gone, r)
  {
  }

  lemma FrontLeavesBefore(q: seq<Job>, n: nat)
    requires n <= |q| && TicketsRise(q)
    ensures TicketsRise(q[n..]) && LeftBefore(q[..n], q[n..])
    ensures multiset(q) == multiset(q[..n]) + multiset(q[n..])
  {
    assert q == q[..n] + q[n..];
  }

  lemma PoppedLeavesBefore(q: seq<Job>, i: nat)
    requires i < |q| && TicketsRise(q) && forall k :: 0 <= k < i ==> q[k].kind != q[i].kind
    ensures TicketsRise(RemoveAt(q, i)) && LeftBefore([q[i]], RemoveAt(q, i))
    ensures forall j :: j in RemoveAt(q, i) ==> j in q
  {
  }

  lemma ExpireOrderly(s: State)
    requires Orderly(s)
    ensures Orderly(AfterExpire(s))
  {
    var q, n := s.pipe.queue, ExpiredCount(s.pipe.queue, Cutoff(s.now, s.ttlMinutes));
    FrontLeavesBefore(q, n);
    LeftBeforeFewer(JobsOf(s.dequeued), q, q[n..]);
    LeftBeforeFewer(s.lapsed, q, q[n..]);
    LeftBeforeAppend(s.lapsed, q[..n], q[n..]);
  }

  lemma DequeuedAppend(ds: seq<Dequeue>, d: Dequeue)
    requires DequeuedInOrder(ds) && WindowRespected(ds) && LeftBefore(JobsOf(ds), [d.job])
    requires d.copyAllowed || d.job.kind == Validate
    ensures DequeuedInOrder(ds + [d]) && WindowRespected(ds + [d]) && JobsOf(ds + [d]) == JobsOf(ds) + [d.job]
  {
    JobsOfMembers(ds);
    assert (ds + [d])[..|ds|] == ds;
    assert forall a :: 0 <= a < |ds| ==> ds[a].job in JobsOf(ds);
  }

  lemma PopInOrder(q: seq<Job>, ds: seq<Dequeue>, lapsed: seq<Job>, i: nat, copyAllowed: bool)
    requires i < |q| && InOrder(q, ds, lapsed) && forall k :: 0 <= k < i ==> q[k].kind != q[i].kind
    requires copyAllowed || q[i].kind == Validate
    ensures InOrder(RemoveAt(q, i), ds + [Dequeue(q[i], copyAllowed)], lapsed)
    ensures JobsOf(ds + [Dequeue(q[i], copyAllowed)]) == JobsOf(ds) + [q[i]]
  {
    var r := RemoveAt(q, i);
    PoppedLeavesBefore(q, i);
    LeftBeforeFewer(JobsOf(ds), q, [q[i]]);
    LeftBeforeFewer(JobsOf(ds), q, r);
    LeftBeforeFewer(lapsed, q, r);
    DequeuedAppend(ds, Dequeue(q[i], copyAllowed));
    LeftBeforeAppend(JobsOf(ds), [q[i]], r);
  }

  lemma PopConserves(submitted: seq<Job>, q: seq<Job>, dequeued: seq<Job>, lapsed: seq<Job>, i: nat)
    requires i < |q| && multiset(submitted) == multiset(q) + multiset(dequeued) + multiset(lapsed)
    ensures multiset(submitted) == multiset(RemoveAt(q, i)) + multiset(dequeued + [q[i]]) + multiset(lapsed)
  {
    RemoveAtMultiset(q, i);
  }

  /** What a dequeue does to the books, whichever kind of job it takes. */
  lemma PopBooks(s: State, copyAllowed: bool)
    requires PopIndex(s.pipe.queue, copyAllowed) < |s.pipe.queue|
    ensures var q, i, s' := s.pipe.queue, PopIndex(s.pipe.queue, copyAllowed), AfterPop(s, copyAllowed);
      && s'.pipe.queue == RemoveAt(q, i) && s'.dequeued == s.dequeued + [Dequeue(q[i], copyAllowed)]
      && s'.lapsed == s.lapsed && s'.submitted == s.submitted && s'.pipe.nextTicket == s.pipe.nextTicket
  {
  }

  lemma BooksOrderly(s: State, s': State, i: nat, copyAllowed: bool)
    requires Orderly(s) && i < |s.pipe.queue| && forall k :: 0 <= k < i ==> s.pipe.queue[k].kind != s.pipe.queue[i].kind
    requires copyAllowed || s.pipe.queue[i].kind == Validate
    requires s'.pipe.queue == RemoveAt(s.pipe.queue, i) && s'.dequeued == s.dequeued + [Dequeue(s.pipe.queue[i], copyAllowed)]
    requires s'.lapsed == s.lapsed && s'.submitted == s.submitted && s'.pipe.nextTicket == s.pipe.nextTicket
    ensures Orderly(s')
  {
    PopInOrder(s.pipe.queue, s.dequeued, s.lapsed, i, copyAllowed);
    PopConserves(s.submitted, s.pipe.queue, JobsOf(s.dequeued), s.lapsed, i);
  }

  lemma PopOrderly(s: State, copyAllowed: bool)
    requires Orderly(s)
    ensures Orderly(AfterPop(s, copyAllowed))
  {
    var i := PopIndex(s.pipe.queue, copyAllowed);
    if i < |s.pipe.queue| {
      PopBooks(s, copyAllowed);
      BooksOrderly(s, AfterPop(s, copyAllowed), i, copyAllowed);
    }
  }

  lemma RestartOrderly(s: State, time: nat, loaded: seq<(Path, nat)>)
    requires DistinctPaths(loaded)
    ensures Orderly(Apply(s, Restart(time, loaded)))
  {
    RehydratedShape(loaded);
  }

  lemma StepOrderly(s: State, step: Step)
    requires Orderly(s) && Enabled(s, step)
    ensures Orderly(Apply(s, step))
  {
    match step
    case Submit(path, kind, cached) => SubmitOrderly(s, path, kind, cached);
    case Expire => if s.ttlMinutes != 0 { ExpireOrderly(s); }
    case Pop(copyAllowed) => PopOrderly(s, copyAllowed);
    case Restart(time, loaded) => RestartOrderly(s, time, loaded);
    case _ =>
  }

  lemma {:induction false} RunOrderly(ss: seq<State>, steps: seq<Step>, k: nat)
    requires IsRun(ss, steps) && k < |ss|
    ensures Orderly(ss[k])
  {
    if k > 0 {
      RunOrderly(ss, steps, k - 1);
      assert StepAt(ss, steps, k - 1);
      StepOrderly(ss[k - 1], steps[k - 1]);
    }
  }

  function Count(q: seq<Job>, j: Job): nat { multiset(q)[j] }

  /** In every state of every run each submitted job is in exactly one place, once: still queued,
      dequeued, or expired; each kind is dequeued in submission order, and copies only when allowed. */
  lemma EveryJobOnce(ss: seq<State>, steps: seq<Step>, k: nat)
    requires IsRun(ss, steps) && k < |ss|
    ensures var s := ss[k];
      && (forall j :: j in s.submitted ==> Count(s.pipe.queue, j) + Count(JobsOf(s.dequeued), j) + Count(s.lapsed, j) == 1)
      && (forall j :: j in s.pipe.queue || j in JobsOf(s.dequeued) || j in s.lapsed ==> j in s.submitted)
      && DequeuedInOrder(s.dequeued) && WindowRespected(s.dequeued)
  {
    RunOrderly(ss, steps, k);
    var s := ss[k];
    forall j | j in s.submitted
      ensures Count(s.pipe.queue, j) + Count(JobsOf(s.dequeued), j) + Count(s.lapsed, j) == 1
    {
      var t :| 0 <= t < |s.submitted| && s.submitted[t] == j;
      DistinctCount(s.submitted, t);
    }
    forall j | j in s.pipe.queue || j in JobsOf(s.dequeued) || j in s.lapsed ensures j in s.submitted {
      assert j in multiset(s.pipe.queue) || j in multiset(JobsOf(s.dequeued)) || j in multiset(s.lapsed);
      assert j in multiset(s.submitted);
    }
  }

  lemma DistinctCount(q: seq<Job>, t: nat)
    requires t < |q| && forall i :: 0 <= i < |q| ==> q[i].ticket == i
    ensures multiset(q)[q[t]] == 1
  {
    RemoveAtMultiset(q, t);
    var r := RemoveAt(q, t);
    assert forall k :: 0 <= k < |r| ==> r[k] == if k < t then q[k] else q[k + 1];
    assert q[t] !in r;
  }

  // ---------------------------------------------------------------- expiry over whole runs

  /** Restarts that load the deferred rows oldest first. */
  ghost predicate OldestFirst(loaded: seq<(Path, nat)>) {
    forall i, j :: 0 <= i < j < |loaded| ==> loaded[i].1 <= loaded[j].1
  }

  ghost predicate RestartsOldestFirst(steps: seq<Step>) {
    forall k :: 0 <= k < |steps| && steps[k].Restart? ==> OldestFirst(steps[k].loaded)
  }

  ghost predicate Timely(s: State) {
    && SortedByTs(s.pipe.queue)
    && (forall j :: j in s.pipe.queue ==> j.ts <= s.now)
    && (forall p :: p in s.deferred ==> s.deferred[p] <= s.now)
  }

  lemma PopTimely(s: State, copyAllowed: bool)
    requires Timely(s)
    ensures Timely(AfterPop(s, copyAllowed))
  {
  }

  lemma RestartTimely(s: State, time: nat, loaded: seq<(Path, nat)>)
    requires Timely(s) && Enabled(s, Restart(time, loaded)) && OldestFirst(loaded)
    ensures Timely(Apply(s, Restart(time, loaded)))
  {
    RehydratedShape(loaded);
  }

  lemma StepTimely(s: State, step: Step)
    requires Timely(s) && Enabled(s, step) && (step.Restart? ==> OldestFirst(step.loaded))
    ensures Timely(Apply(s, step))
  {
    match step
    case Pop(copyAllowed) => PopTimely(s, copyAllowed);
    case Restart(time, loaded) => RestartTimely(s, time, loaded);
    case _ =>
  }

  lemma {:induction false} RunTimely(ss: seq<State>, steps: seq<Step>, k: nat)
    requires IsRun(ss, steps) && RestartsOldestFirst(steps) && k < |ss|
    ensures Timely(ss[k])
  {
    if k > 0 {
      RunTimely(ss, steps, k - 1);
      assert StepAt(ss, steps, k - 1);
      StepTimely(ss[k - 1], steps[k - 1]);
    }
  }

  lemma LoadedOrder(s: State, time: nat, loaded: seq<(Path, nat)>)
    requires DistinctPaths(loaded)
    ensures SortedByTs(Apply(s, Restart(time, loaded)).pipe.queue) <==> OldestFirst(loaded)
  {
    RehydratedShape(loaded);
    var q := Apply(s, Restart(time, loaded)).pipe.queue;
    if SortedByTs(q) {
      forall i, j | 0 <= i < j < |loaded| ensures loaded[i].1 <= loaded[j].1 { assert q[i].ts <= q[j].ts; }
    }
  }

  /** Over a whole run: the queue is in timestamp order in every state if and only if every restart
      loads its rows oldest first. */
  lemma RunSortedIff(ss: seq<State>, steps: seq<Step>)
    requires IsRun(ss, steps)
    ensures (forall k :: 0 <= k < |ss| ==> SortedByTs(ss[k].pipe.queue)) <==> RestartsOldestFirst(steps)
  {
    if RestartsOldestFirst(steps) {
      forall k | 0 <= k < |ss| ensures SortedByTs(ss[k].pipe.queue) { RunTimely(ss, steps, k); }
    }
    if forall k :: 0 <= k < |ss| ==> SortedByTs(ss[k].pipe.queue) {
      forall k | 0 <= k < |steps| && steps[k].Restart? ensures OldestFirst(steps[k].loaded) {
        assert StepAt(ss, steps, k);
        LoadedOrder(ss[k], steps[k].time, steps[k].loaded);
      }
    }
  }

  /** Wherever a sweep happens in a run, it removes exactly the jobs older than the cutoff, drops
      exactly their keys, and keeps the others in order. */
  lemma SweepIsFilter(ss: seq<State>, steps: seq<Step>, k: nat)
    requires IsRun(ss, steps) && RestartsOldestFirst(steps) && k < |steps|
    requires steps[k].Expire? && ss[k].ttlMinutes != 0
    ensures var cutoff := Cutoff(ss[k].now, ss[k].ttlMinutes);
      && ss[k + 1].pipe.queue == Unexpired(ss[k].pipe.queue, cutoff)
      && forall key :: key in ss[k + 1].pipe.known <==>
           key in ss[k].pipe.known && !exists j :: j in ss[k].pipe.queue && KeyOf(j) == key && j.ts < cutoff
  {
    RunTimely(ss, steps, k);
    RunExclusive(ss, steps, k);
    assert StepAt(ss, steps, k);
    var q, cutoff := ss[k].pipe.queue, Cutoff(ss[k].now, ss[k].ttlMinutes);
    var n := ExpiredCount(q, cutoff);
    SortedExpiryIsFilter(q, cutoff);
    forall j | j in q && j.ts < cutoff ensures KeyOf(j) in KeysOf(q[..n]) {
      var i :| 0 <= i < |q| && q[i] == j;
      assert i < n;
      assert j in q[..n];
    }
    forall key | key in KeysOf(q[..n]) ensures exists j :: j in q && KeyOf(j) == key && j.ts < cutoff {
      var i :| 0 <= i < n && KeyOf(q[i]) == key;
      assert q[i] in q;
    }
  }

  /** In seconds: what such a sweep leaves queued are the jobs at most `ttlMinutes` minutes old. */
  lemma SweepByAge(ss: seq<State>, steps: seq<Step>, k: nat)
    requires IsRun(ss, steps) && RestartsOldestFirst(steps) && k < |steps|
    requires steps[k].Expire? && ss[k].ttlMinutes != 0
    ensures forall j :: j in ss[k + 1].pipe.queue <==> j in ss[k].pipe.queue && j.ts + ss[k].ttlMinutes * 60 >= ss[k].now
  {
    SweepIsFilter(ss, steps, k);
    UnexpiredMembers(ss[k].pipe.queue, Cutoff(ss[k].now, ss[k].ttlMinutes));
  }
}
