/** Exactly where the coherence guarantee ends: the number of copy permits, names shared with working
    files, and recovered rows, each with the run that shows it and as an equivalence. */
module CoherenceLimits {
  import opened Options
  import opened Paths
  import opened Pipeline
  import opened Protocol
  import opened CacheRows
  import opened Backing
  import opened Coherence
  import Runs

  /** Recovered rows are outside the guarantee: adopting a file and backfilling its row makes the
      check answer fresh whatever the file holds. */
  lemma BackfillTrustsAnything(s: Sys, p: Path)
    requires p in s.w.disk && p !in s.w.rows && Live(s.w, p).Some? && Live(s.w, p).value.mtime != ZERO_STAMP && !IsNonMedia(p)
    ensures var a := EventApplied(s, Adopt(p));
      && EventEnabled(a, Backfill(p, |Hist(s.w, p)| - 1, s.w.present[p]))
      && var b := EventApplied(a, Backfill(p, |Hist(s.w, p)| - 1, s.w.present[p]));
        && CheckRow(a.w.rows[p].row, Live(a.w, p)).NeedsBackfill?
        && CheckRow(b.w.rows[p].row, Live(b.w, p)).Fresh?
        && b.w.disk == s.w.disk && Hist(b.w, p) == Hist(s.w, p)
  {
  }

  /** A cached file whose own name is another path's working name is overwritten while its row still
      answers fresh. */
  lemma WorkingNameHazard(s: Sys, id: nat, q: Path)
    requires CopyEnabled(s, CreatePartial(id)) && q == PartialOf(PathOf(s, id))
    requires q in s.w.rows && CheckRow(s.w.rows[q].row, Live(s.w, q)).Fresh?
    ensures var s' := EventApplied(s, CreatePartial(id));
      q in s'.w.rows && CheckRow(s'.w.rows[q].row, Live(s'.w, q)).Fresh? && q in s'.w.disk && s'.w.disk[q] == []
  {
  }

  // ---------------------------------------------------------------- runs, event by event

  ghost predicate Fires(s: Sys, e: Event, t: Sys) {
    EventEnabled(s, e) && t == EventApplied(s, e)
  }

  ghost predicate Leads(s: Sys, es: seq<Event>, t: Sys) {
    Runs.LeadsBy(Fires, s, es, t)
  }

  lemma Then(s: Sys, es: seq<Event>, t: Sys, e: Event, u: Sys)
    requires Leads(s, es, t) && Fires(t, e, u)
    ensures Leads(s, es + [e], u)
  {
    Runs.LeadsSnoc(Fires, s, es, t, e, u);
  }

  lemma Onward(s: Sys, es: seq<Event>, t: Sys, fs: seq<Event>, u: Sys)
    requires Leads(s, es, t) && Leads(t, fs, u)
    ensures Leads(s, es + fs, u)
  {
    Runs.LeadsAppend(Fires, s, es, t, fs, u);
  }

  /** What leads somewhere is a run, state by state. */
  lemma {:induction false} LeadsIsRun(s: Sys, es: seq<Event>, t: Sys) returns (ss: seq<Sys>)
    requires Leads(s, es, t)
    ensures |ss| == |es| + 1 && ss[0] == s && ss[|es|] == t && forall k :: 0 <= k < |es| ==> EventAt(ss, es, k)
    decreases |es|
  {
    if es == [] {
      ss := [s];
    } else {
      var m :| Fires(s, es[0], m) && Leads(m, es[1..], t);
      var rest := LeadsIsRun(m, es[1..], t);
      ss := [s] + rest;
      forall k | 0 <= k < |es| ensures EventAt(ss, es, k) {
        if k > 0 {
          assert EventAt(rest, es[1..], k - 1);
          assert ss[k] == rest[k - 1] && ss[k + 1] == rest[k] && es[k] == es[1..][k - 1];
        }
      }
    }
  }

  function Empty(permits: nat, ttlMinutes: nat, now: nat): Sys {
    Sys(Init(permits, ttlMinutes, now), EMPTY_WORLD)
  }

  // ---------------------------------------------------------------- one copy, alone

  /** Worker `b` has just opened version `k` of its path, which a single read takes in. */
  ghost predicate JustOpened(s: Sys, b: nat, k: nat) {
    && CopyingWorker(s, b) && !Aborted(s, b) && IsFilePath(PathOf(s, b))
    && Shows(s.w, PathOf(s, b), k) && Live(s.w, PathOf(s, b)).value.mtime != ZERO_STAMP
    && b in s.w.copies && s.w.copies[b] == Opened(k, Live(s.w, PathOf(s, b)).value)
    && 0 < |Hist(s.w, PathOf(s, b))[k].bytes| <= CHUNK
  }

  /** The world once that copy, run alone, has passed its check. */
  ghost function CheckedWorld(s: Sys, b: nat, k: nat): World
    requires JustOpened(s, b, k)
  {
    var p := PathOf(s, b);
    var bytes, live := Hist(s.w, p)[k].bytes, Live(s.w, p).value;
    s.w.(disk := s.w.disk[PartialOf(p) := bytes], copies := s.w.copies[b := Checked(k, live, bytes, live, true)])
  }

  lemma ReadsWhole(s: Sys, b: nat, k: nat) returns (s1: Sys, s2: Sys)
    requires JustOpened(s, b, k)
    ensures var p := PathOf(s, b);
      var bytes, live := Hist(s.w, p)[k].bytes, Live(s.w, p).value;
      && Fires(s, CreatePartial(b), s1) && Fires(s1, Read(b, bytes), s2) && s2.p == s.p
      && s2.w == s.w.(disk := s.w.disk[PartialOf(p) := bytes], copies := s.w.copies[b := Reading(k, live, bytes)])
  {
    var bytes := Hist(s.w, PathOf(s, b))[k].bytes;
    s1 := EventApplied(s, CreatePartial(b));
    assert bytes[0..0 + |bytes|] == bytes && [] + bytes == bytes;
    s2 := EventApplied(s1, Read(b, bytes));
  }

  lemma EndsAndChecks(s: Sys, b: nat) returns (s1: Sys, s2: Sys)
    requires CopyingWorker(s, b) && !Aborted(s, b) && IsFilePath(PathOf(s, b)) && b in s.w.copies && s.w.copies[b].Reading?
    requires var c, p := s.w.copies[b], PathOf(s, b);
      Live(s.w, p) == Some(c.first) && Shows(s.w, p, c.ver) && c.data == Hist(s.w, p)[c.ver].bytes
    ensures Fires(s, EndOfFile(b), s1) && Fires(s1, Check(b), s2) && s2.p == s.p
    ensures var c := s.w.copies[b]; s2.w == s.w.(copies := s.w.copies[b := Checked(c.ver, c.first, c.data, c.first, true)])
  {
    s1 := EventApplied(s, EndOfFile(b));
    s2 := EventApplied(s1, Check(b));
  }

  lemma CopiesAlone(s: Sys, b: nat, k: nat) returns (es: seq<Event>, t: Sys)
    requires JustOpened(s, b, k)
    ensures Leads(s, es, t) && t == Sys(s.p, CheckedWorld(s, b, k))
  {
    var bytes := Hist(s.w, PathOf(s, b))[k].bytes;
    var s1, s2 := ReadsWhole(s, b, k);
    var s3, s4 := EndsAndChecks(s2, b);
    Then(s, [], s, CreatePartial(b), s1);
    Then(s, [] + [CreatePartial(b)], s1, Read(b, bytes), s2);
    es := [] + [CreatePartial(b)] + [Read(b, bytes)];
    Then(s, es, s2, EndOfFile(b), s3);
    Then(s, es + [EndOfFile(b)], s3, Check(b), s4);
    es, t := es + [EndOfFile(b)] + [Check(b)], s4;
  }

  /** And once it has installed its file. */
  lemma InstallsAlone(s: Sys, b: nat, k: nat) returns (es: seq<Event>, t: Sys)
    requires JustOpened(s, b, k)
    ensures Leads(s, es, t) && t.p == s.p
    ensures t.w.hist == s.w.hist && t.w.present == s.w.present && t.w.rows == s.w.rows && t.w.refreshers == s.w.refreshers
    ensures var p := PathOf(s, b);
      var bytes, live := Hist(s.w, p)[k].bytes, Live(s.w, p).value;
      p in t.w.disk && t.w.disk[p] == bytes && t.w.copies == s.w.copies[b := Installed(k, live, bytes, live, true)]
  {
    var fs, m := CopiesAlone(s, b, k);
    t := EventApplied(m, Install(b));
    Then(s, fs, m, Install(b), t);
    es := fs + [Install(b)];
  }

  // ---------------------------------------------------------------- starting a copy

  predicate SameClock(s: State, t: State) { t.now == s.now && t.ttlMinutes == s.ttlMinutes }

  /** An idle pipeline queues a job and hands it to the dispatcher. */
  lemma QueuesAndPops(s: State, path: Path, kind: Kind) returns (h: State)
    requires s.pipe.queue == [] && s.dispatcher.Idle? && (path, kind) !in s.pipe.known && kind != Validate
    ensures Enabled(Apply(s, Submit(path, kind, false)), Pop(true))
    ensures h == Apply(Apply(s, Submit(path, kind, false)), Pop(true))
    ensures h.pipe.queue == [] && h.dispatcher == Holding(Job(path, kind, s.now, s.pipe.nextTicket))
    ensures h.pipe.known == s.pipe.known[(path, kind) := None] && h.pipe.aborted == s.pipe.aborted
    ensures h.workers == s.workers && h.nextWorker == s.nextWorker && h.permits == s.permits && SameClock(s, h)
    ensures h.deferred == if kind == Populate then s.deferred[path := s.now] else s.deferred
  {
    var q := Apply(s, Submit(path, kind, false));
    assert q.pipe.queue == [Job(path, kind, s.now, s.pipe.nextTicket)];
    h := Apply(q, Pop(true));
    assert RemoveAt(q.pipe.queue, 0) == [];
  }

  lemma GrantsAndPromotes(h: State) returns (t: State)
    requires h.dispatcher.Holding? && |CopyWorkers(h)| < h.permits
    ensures Enabled(h, Grant) && Enabled(Apply(h, Grant), Promote(h.nextWorker))
    ensures t == Apply(Apply(h, Grant), Promote(h.nextWorker))
    ensures t.pipe.queue == h.pipe.queue && t.dispatcher.Idle? && t.permits == h.permits && t.nextWorker == h.nextWorker + 1
    ensures t.pipe.known == h.pipe.known[KeyOf(h.dispatcher.job) := Some(|h.pipe.aborted|)] && t.pipe.aborted == h.pipe.aborted + [false]
    ensures t.deferred == h.deferred && SameClock(h, t)
    ensures t.workers == h.workers[h.nextWorker := Worker(h.dispatcher.job, Copying(|h.pipe.aborted|))]
  {
    t := Apply(Apply(h, Grant), Promote(h.nextWorker));
  }

  lemma LeadsTwoSteps(s: Sys, a: Step, b: Step) returns (es: seq<Event>, t: Sys)
    requires Enabled(s.p, a) && !a.Finish? && !a.Restart? && !b.Finish? && !b.Restart? && Enabled(Apply(s.p, a), b)
    ensures Leads(s, es, t) && t == Sys(Apply(Apply(s.p, a), b), s.w)
  {
    var s1 := Sys(Apply(s.p, a), s.w);
    t := Sys(Apply(s1.p, b), s.w);
    FiresInternal(s, a);
    FiresInternal(s1, b);
    Then(s, [], s, Internal(a), s1);
    Then(s, [] + [Internal(a)], s1, Internal(b), t);
    es := [] + [Internal(a)] + [Internal(b)];
  }

  lemma FiresInternal(s: Sys, step: Step)
    requires Enabled(s.p, step) && !step.Finish? && !step.Restart?
    ensures Fires(s, Internal(step), Sys(Apply(s.p, step), s.w))
  {
  }

  lemma OpensSource(v: Sys, n: nat, path: Path) returns (t: Sys)
    requires CopyingWorker(v, n) && PathOf(v, n) == path && IsFilePath(path) && n !in v.w.copies && Live(v.w, path).Some?
    ensures Fires(v, OpenSource(n), t) && t.p == v.p
    ensures t.w == v.w.(copies := v.w.copies[n := Opened(|Hist(v.w, path)| - 1, Live(v.w, path).value)])
  {
    t := EventApplied(v, OpenSource(n));
  }

  lemma QueuedAndHeld(s: Sys, path: Path, kind: Kind) returns (es: seq<Event>, u: Sys)
    requires s.p.pipe.queue == [] && s.p.dispatcher.Idle? && (path, kind) !in s.p.pipe.known && kind != Validate
    ensures Leads(s, es, u) && u.w == s.w
    ensures u.p.pipe.queue == [] && u.p.dispatcher == Holding(Job(path, kind, s.p.now, s.p.pipe.nextTicket))
    ensures u.p.pipe.known == s.p.pipe.known[(path, kind) := None] && u.p.pipe.aborted == s.p.pipe.aborted
    ensures u.p.workers == s.p.workers && u.p.nextWorker == s.p.nextWorker && u.p.permits == s.p.permits && SameClock(s.p, u.p)
    ensures u.p.deferred == if kind == Populate then s.p.deferred[path := s.p.now] else s.p.deferred
  {
    var h := QueuesAndPops(s.p, path, kind);
    es, u := LeadsTwoSteps(s, Submit(path, kind, false), Pop(true));
  }

  lemma GrantedAndPromoted(u: Sys) returns (es: seq<Event>, v: Sys)
    requires u.p.dispatcher.Holding? && |CopyWorkers(u.p)| < u.p.permits
    ensures Leads(u, es, v) && v.w == u.w
    ensures v.p.pipe.queue == u.p.pipe.queue && v.p.dispatcher.Idle? && v.p.permits == u.p.permits && v.p.nextWorker == u.p.nextWorker + 1
    ensures v.p.pipe.known == u.p.pipe.known[KeyOf(u.p.dispatcher.job) := Some(|u.p.pipe.aborted|)] && v.p.pipe.aborted == u.p.pipe.aborted + [false]
    ensures v.p.deferred == u.p.deferred && SameClock(u.p, v.p)
    ensures v.p.workers == u.p.workers[u.p.nextWorker := Worker(u.p.dispatcher.job, Copying(|u.p.pipe.aborted|))]
  {
    var g := GrantsAndPromotes(u.p);
    es, v := LeadsTwoSteps(u, Grant, Promote(u.p.nextWorker));
  }

  /** An idle pipeline takes a path from submission to an opened source. */
  lemma StartsCopy(s: Sys, path: Path, kind: Kind) returns (es: seq<Event>, t: Sys)
    requires s.p.pipe.queue == [] && s.p.dispatcher.Idle? && (path, kind) !in s.p.pipe.known && kind != Validate
    requires |CopyWorkers(s.p)| < s.p.permits && s.p.nextWorker !in s.w.copies && Live(s.w, path).Some? && IsFilePath(path)
    ensures Leads(s, es, t)
    ensures t.p.pipe.queue == [] && t.p.dispatcher.Idle? && t.p.permits == s.p.permits
    ensures t.p.pipe.known == s.p.pipe.known[(path, kind) := Some(|s.p.pipe.aborted|)] && t.p.pipe.aborted == s.p.pipe.aborted + [false]
    ensures t.p.nextWorker == s.p.nextWorker + 1 && SameClock(s.p, t.p)
    ensures t.p.deferred == if kind == Populate then s.p.deferred[path := s.p.now] else s.p.deferred
    ensures t.p.workers == s.p.workers[s.p.nextWorker := Worker(Job(path, kind, s.p.now, s.p.pipe.nextTicket), Copying(|s.p.pipe.aborted|))]
    ensures t.w == s.w.(copies := s.w.copies[s.p.nextWorker := Opened(|Hist(s.w, path)| - 1, Live(s.w, path).value)])
  {
    var es1, u := QueuedAndHeld(s, path, kind);
    assert CopyWorkers(u.p) == CopyWorkers(s.p);
    var es2, v := GrantedAndPromoted(u);
    Onward(s, es1, u, es2, v);
    t := OpensSource(v, s.p.nextWorker, path);
    Then(s, es1 + es2, v, OpenSource(s.p.nextWorker), t);
    es := es1 + es2 + [OpenSource(s.p.nextWorker)];
  }

  /** A path appears with its first version and an idle pipeline starts to copy it. */
  lemma AppearsAndStarts(s: Sys, path: Path, kind: Kind, v: Version, attrs: Attrs) returns (es: seq<Event>, t: Sys)
    requires s.p.pipe.queue == [] && s.p.dispatcher.Idle? && (path, kind) !in s.p.pipe.known && kind != Validate
    requires |CopyWorkers(s.p)| < s.p.permits && s.p.nextWorker !in s.w.copies && path !in s.w.hist && v.mtime != ZERO_STAMP && IsFilePath(path)
    ensures Leads(s, es, t)
    ensures t.p.pipe.queue == [] && t.p.dispatcher.Idle? && t.p.permits == s.p.permits && SameClock(s.p, t.p)
    ensures t.p.pipe.known == s.p.pipe.known[(path, kind) := Some(|s.p.pipe.aborted|)] && t.p.pipe.aborted == s.p.pipe.aborted + [false]
    ensures t.p.nextWorker == s.p.nextWorker + 1
    ensures t.p.deferred == if kind == Populate then s.p.deferred[path := s.p.now] else s.p.deferred
    ensures t.p.workers == s.p.workers[s.p.nextWorker := Worker(Job(path, kind, s.p.now, s.p.pipe.nextTicket), Copying(|s.p.pipe.aborted|))]
    ensures t.w == s.w.(hist := s.w.hist[path := [v]], present := s.w.present[path := attrs],
                        copies := s.w.copies[s.p.nextWorker := Opened(0, StatOf(v, attrs))])
  {
    var s1 := EventApplied(s, Change(path, v, attrs));
    assert Hist(s1.w, path) == [] + [v] == [v];
    Then(s, [], s, Change(path, v, attrs), s1);
    var es1, t' := StartsCopy(s1, path, kind);
    t := t';
    Onward(s, [] + [Change(path, v, attrs)], s1, es1, t);
    es := [] + [Change(path, v, attrs)] + es1;
  }

  /** One permit brings a path from nowhere to a copied file with its row, and the copy to an end. */
  lemma CopiesToTheEnd(permits: nat, ttlMinutes: nat, now: nat, q: Path, v: Version, attrs: Attrs) returns (es: seq<Event>, t: Sys)
    requires permits >= 1 && IsFilePath(q) && v.mtime != ZERO_STAMP && 0 < |v.bytes| <= CHUNK
    ensures Leads(Empty(permits, ttlMinutes, now), es, t)
    ensures t.p.pipe.queue == [] && t.p.pipe.known == map[] && t.p.dispatcher.Idle? && t.p.workers == map[] && t.p.permits == permits
    ensures t.w.copies == map[] && t.w.hist == map[q := [v]] && t.w.present == map[q := attrs]
    ensures t.w.rows == map[q := Tracked(CachedRow(StatOf(v, attrs), now), Some(0))] && q in t.w.disk && t.w.disk[q] == v.bytes
  {
    var s0 := Empty(permits, ttlMinutes, now);
    assert CopyWorkers(s0.p) == {};
    var es1, s1 := AppearsAndStarts(s0, q, Populate, v, attrs);
    var es2, s2 := InstallsAlone(s1, 0, 0);
    Onward(s0, es1, s1, es2, s2);
    var s3 := Marks(s2, 0);
    Then(s0, es1 + es2, s2, Mark(0), s3);
    var es3, t' := Ends(s3, 0);
    t := t';
    Onward(s0, es1 + es2 + [Mark(0)], s3, es3, t);
    es := es1 + es2 + [Mark(0)] + es3;
  }

  lemma Ends(s: Sys, b: nat) returns (es: seq<Event>, t: Sys)
    requires CopyingWorker(s, b) && b in s.w.copies && s.w.copies[b].Done?
    ensures Leads(s, es, t) && t.w == s.w.(copies := s.w.copies - {b})
    ensures t.p.pipe == FinishedKey(s.p.pipe, KeyOf(s.p.workers[b].job)) && t.p.workers == s.p.workers - {b}
    ensures t.p.dispatcher == s.p.dispatcher && t.p.permits == s.p.permits && t.p.nextWorker == s.p.nextWorker
  {
    var m := EventApplied(s, Internal(Finish(b)));
    t := EventApplied(m, Internal(Exit(b)));
    Then(s, [], s, Internal(Finish(b)), m);
    Then(s, [] + [Internal(Finish(b))], m, Internal(Exit(b)), t);
    es := [] + [Internal(Finish(b))] + [Internal(Exit(b))];
  }

  lemma Marks(s: Sys, b: nat) returns (t: Sys)
    requires CopyingWorker(s, b) && IsFilePath(PathOf(s, b)) && b in s.w.copies && s.w.copies[b].Installed?
    ensures Fires(s, Mark(b), t) && t.p == s.p
    ensures var c, p := s.w.copies[b], PathOf(s, b);
      t.w == s.w.(rows := s.w.rows[p := Tracked(CachedRow(c.meta, s.p.now), Some(c.ver))], copies := s.w.copies[b := Done])
  {
    t := EventApplied(s, Mark(b));
  }

  // ---------------------------------------------------------------- more than one permit

  /** Two workers that have just opened the same path, as two permits allow. */
  ghost predicate TwoOpen(s: Sys, a: nat, b: nat, k: nat) {
    a != b && CopyingWorker(s, a) && a in s.w.copies && s.w.copies[a].Opened? && JustOpened(s, b, k) && PathOf(s, a) == PathOf(s, b)
  }

  /** The other copy truncates the shared working file; the first installs it regardless. */
  lemma TruncatedAndInstalled(t: Sys, a: nat, b: nat) returns (es: seq<Event>, u: Sys)
    requires a != b && CopyingWorker(t, a) && CopyingWorker(t, b) && PathOf(t, a) == PathOf(t, b) && IsFilePath(PathOf(t, b))
    requires a in t.w.copies && t.w.copies[a].Opened? && b in t.w.copies && t.w.copies[b].Checked?
    ensures Leads(t, es, u)
    ensures u.w.hist == t.w.hist && u.w.present == t.w.present
    ensures var p := PathOf(t, b);
      && p in u.w.disk && u.w.disk[p] == []
      && p in u.w.rows && u.w.rows[p].origin == Some(t.w.copies[b].ver) && u.w.rows[p].row == CachedRow(t.w.copies[b].meta, t.p.now)
  {
    var u1 := EventApplied(t, CreatePartial(a));
    Then(t, [], t, CreatePartial(a), u1);
    var u2 := InstallsEmpty(u1, b);
    Then(t, [] + [CreatePartial(a)], u1, Install(b), u2);
    u := EventApplied(u2, Mark(b));
    Then(t, [] + [CreatePartial(a)] + [Install(b)], u2, Mark(b), u);
    es := [] + [CreatePartial(a)] + [Install(b)] + [Mark(b)];
  }

  lemma InstallsEmpty(t: Sys, b: nat) returns (u: Sys)
    requires CopyingWorker(t, b) && IsFilePath(PathOf(t, b)) && b in t.w.copies && t.w.copies[b].Checked?
    requires PartialOf(PathOf(t, b)) in t.w.disk && t.w.disk[PartialOf(PathOf(t, b))] == []
    ensures Fires(t, Install(b), u) && u.p == t.p
    ensures PathOf(t, b) in u.w.disk && u.w.disk[PathOf(t, b)] == []
    ensures b in u.w.copies && u.w.copies[b].Installed? && u.w.copies[b].ver == t.w.copies[b].ver && u.w.copies[b].meta == t.w.copies[b].meta
    ensures u.w.hist == t.w.hist && u.w.present == t.w.present
  {
    u := EventApplied(t, Install(b));
  }

  /** Two copies of one path share one working file: one truncates what the other has checked, and an
      empty file is installed under a row that answers fresh. */
  lemma TwoPermitsTear(s: Sys, a: nat, b: nat, k: nat) returns (es: seq<Event>, u: Sys)
    requires TwoOpen(s, a, b, k)
    ensures Leads(s, es, u)
    ensures var p := PathOf(s, b);
      && p in u.w.rows && u.w.rows[p].origin == Some(k) && CheckRow(u.w.rows[p].row, Live(u.w, p)).Fresh?
      && p in u.w.disk && k < |Hist(u.w, p)| && Shows(u.w, p, k) && u.w.disk[p] != Hist(u.w, p)[k].bytes
  {
    var es1, t := CopiesAlone(s, b, k);
    var es2, u' := TruncatedAndInstalled(t, a, b);
    u := u';
    Onward(s, es1, t, es2, u);
    es := es1 + es2;
  }

  /** A cached path changes, so that its row checks stale, and a replacing copy opens it. */
  lemma StaleAndReplacing(s: Sys, path: Path, w: Version, attrs: Attrs) returns (es: seq<Event>, t: Sys)
    requires s.p.pipe.queue == [] && s.p.dispatcher.Idle? && s.p.pipe.known == map[] && s.p.workers == map[] && s.p.permits >= 1
    requires IsFilePath(path) && s.w.copies == map[] && path in s.w.rows && s.w.rows[path].row.mtime != ZERO_STAMP
    requires w.mtime != ZERO_STAMP && forall i :: 0 <= i < |Hist(s.w, path)| ==> Hist(s.w, path)[i].mtime != w.mtime
    requires s.w.rows[path].row.mtime != w.mtime
    ensures Leads(s, es, t)
    ensures CheckRow(s.w.rows[path].row, Live(t.w, path)).Stale?
    ensures t.p.pipe.queue == [] && t.p.dispatcher.Idle? && t.p.permits == s.p.permits && t.p.nextWorker == s.p.nextWorker + 1
    ensures t.p.pipe.known.Keys == {(path, Replace)} && CopyWorkers(t.p) == {s.p.nextWorker}
    ensures Hist(t.w, path) == Hist(s.w, path) + [w] && Live(t.w, path) == Some(StatOf(w, attrs))
    ensures t.w.copies == map[s.p.nextWorker := Opened(|Hist(s.w, path)|, StatOf(w, attrs))]
    ensures CopyingWorker(t, s.p.nextWorker) && PathOf(t, s.p.nextWorker) == path
  {
    var m := EventApplied(s, Change(path, w, attrs));
    assert Hist(m.w, path) == Hist(s.w, path) + [w];
    Then(s, [], s, Change(path, w, attrs), m);
    assert CopyWorkers(m.p) == {};
    var es1, t' := StartsCopy(m, path, Replace);
    t := t';
    Onward(s, [] + [Change(path, w, attrs)], m, es1, t);
    es := [] + [Change(path, w, attrs)] + es1;
  }

  /** The old file and its row are evicted meanwhile, and the path is submitted as uncached. */
  lemma EvictedAndPopulating(s: Sys, path: Path, a: nat) returns (es: seq<Event>, t: Sys)
    requires s.p.pipe.queue == [] && s.p.dispatcher.Idle? && s.p.pipe.known.Keys == {(path, Replace)} && s.p.permits >= 2
    requires CopyWorkers(s.p) == {a} && s.p.nextWorker == a + 1 && CopyingWorker(s, a) && PathOf(s, a) == path && IsFilePath(path)
    requires Live(s.w, path).Some? && s.w.copies.Keys == {a} && s.w.copies[a].Opened?
    ensures Leads(s, es, t)
    ensures t.w.hist == s.w.hist && t.w.present == s.w.present
    ensures t.w.copies == s.w.copies[a + 1 := Opened(|Hist(s.w, path)| - 1, Live(s.w, path).value)]
    ensures CopyingWorker(t, a) && PathOf(t, a) == path && CopyingWorker(t, a + 1) && PathOf(t, a + 1) == path && !Aborted(t, a + 1)
  {
    var m := EventApplied(s, DeleteFile(path));
    var n := EventApplied(m, DeleteRow(path));
    Then(s, [], s, DeleteFile(path), m);
    Then(s, [] + [DeleteFile(path)], m, DeleteRow(path), n);
    var es1, t' := StartsCopy(n, path, Populate);
    t := t';
    Onward(s, [] + [DeleteFile(path)] + [DeleteRow(path)], n, es1, t);
    es := [] + [DeleteFile(path)] + [DeleteRow(path)] + es1;
  }

  /** And any number of permits above one lets a populate and a replace of one path get that far
      together: a cached file goes stale, and is evicted while its replacement is under way. */
  lemma TwoPermitsReachTear(permits: nat, ttlMinutes: nat, now: nat, path: Path, v: Version, w: Version, attrs: Attrs)
    returns (es: seq<Event>, s: Sys, a: nat)
    requires permits >= 2 && IsFilePath(path) && v.mtime != ZERO_STAMP && 0 < |v.bytes| <= CHUNK
    requires w.mtime != ZERO_STAMP && w.mtime != v.mtime && 0 < |w.bytes| <= CHUNK
    ensures Leads(Empty(permits, ttlMinutes, now), es, s) && TwoOpen(s, a, a + 1, 1) && PathOf(s, a + 1) == path
  {
    var s0 := Empty(permits, ttlMinutes, now);
    var es1, s1 := CopiesToTheEnd(permits, ttlMinutes, now, path, v, attrs);
    var es2, s2 := StaleAndReplacing(s1, path, w, attrs);
    Onward(s0, es1, s1, es2, s2);
    a := s1.p.nextWorker;
    var es3, s3 := EvictedAndPopulating(s2, path, a);
    Onward(s0, es1 + es2, s2, es3, s3);
    es, s := es1 + es2 + es3, s3;
  }

  lemma ManyPermitsBreak(permits: nat, ttlMinutes: nat, now: nat, path: Path) returns (es: seq<Event>, u: Sys)
    requires permits >= 2 && IsFilePath(path)
    ensures Leads(Empty(permits, ttlMinutes, now), es, u) && !EqualIfFresh(u.w, path)
  {
    var es1, s, a := TwoPermitsReachTear(permits, ttlMinutes, now, path, Version(Stamp(1, 0), [7]), Version(Stamp(2, 0), [8]), NO_ATTRS);
    var es2, u' := TwoPermitsTear(s, a, a + 1, 1);
    u := u';
    Onward(Empty(permits, ttlMinutes, now), es1, s, es2, u);
    es := es1 + es2;
  }

  // ---------------------------------------------------------------- working names

  /** The file whose copies use the working name `q`. */
  function WorksUnder(q: Path): (p: Path)
    requires IsFilePath(q) && HasPartialExtension(q)
    ensures PartialOf(p) == q && p != q && IsFilePath(p)
  {
    var last := q[|q| - 1];
    var stem := last[..|last| - |PARTIAL_SUFFIX|];
    assert stem + PARTIAL_SUFFIX == last && 0 < |stem| < |last|;
    var p := q[..|q| - 1] + [stem];
    assert PartialOf(p) == q && p[|q| - 1] != last;
    p
  }

  /** A file that has been copied under a working name is overwritten by the next copy that works
      under it, while its row still answers fresh. */
  lemma WorkingNameBreaks(permits: nat, ttlMinutes: nat, now: nat, q: Path) returns (es: seq<Event>, u: Sys)
    requires permits >= 1 && IsFilePath(q) && HasPartialExtension(q)
    ensures Leads(Empty(permits, ttlMinutes, now), es, u) && !EqualIfFresh(u.w, q)
  {
    var s0, v, p := Empty(permits, ttlMinutes, now), Version(Stamp(1, 0), [7]), WorksUnder(q);
    var es1, s1 := CopiesToTheEnd(permits, ttlMinutes, now, q, v, NO_ATTRS);
    assert CopyWorkers(s1.p) == {};
    var id := s1.p.nextWorker;
    var es2, s2 := AppearsAndStarts(s1, p, Populate, v, NO_ATTRS);
    Onward(s0, es1, s1, es2, s2);
    WorkingNameHazard(s2, id, q);
    u := EventApplied(s2, CreatePartial(id));
    Then(s0, es1 + es2, s2, CreatePartial(id), u);
    es := es1 + es2 + [CreatePartial(id)];
  }

  // ---------------------------------------------------------------- recovered rows

  /** A copy is cut off by a restart between its install and its row. */
  lemma CutOffBeforeMark(permits: nat, ttlMinutes: nat, now: nat, p: Path, v: Version, attrs: Attrs) returns (es: seq<Event>, t: Sys)
    requires permits >= 1 && IsFilePath(p) && v.mtime != ZERO_STAMP && 0 < |v.bytes| <= CHUNK
    ensures Leads(Empty(permits, ttlMinutes, now), es, t)
    ensures t.w.hist == map[p := [v]] && t.w.present == map[p := attrs] && t.w.rows == map[]
    ensures p in t.w.disk && t.w.disk[p] == v.bytes
  {
    var s0 := Empty(permits, ttlMinutes, now);
    assert CopyWorkers(s0.p) == {};
    var es1, s1 := AppearsAndStarts(s0, p, Populate, v, attrs);
    var es2, s2 := InstallsAlone(s1, 0, 0);
    Onward(s0, es1, s1, es2, s2);
    var loaded: seq<(Path, nat)> := [(p, now)];
    var restart := Internal(Restart(now, loaded));
    assert s2.p.deferred == map[p := now] && loaded[0].0 == p;
    t := EventApplied(s2, restart);
    Then(s0, es1 + es2, s2, restart, t);
    es := es1 + es2 + [restart];
  }

  /** The file then found without a row may be older than what the path shows by now: adopted and
      backfilled, it answers fresh with other bytes. */
  lemma RecoveredRowLies(permits: nat, ttlMinutes: nat, now: nat, p: Path, v: Version, w: Version, attrs: Attrs)
    returns (es: seq<Event>, u: Sys)
    requires permits >= 1 && IsFilePath(p) && !IsNonMedia(p) && v.mtime != ZERO_STAMP && 0 < |v.bytes| <= CHUNK
    requires w.mtime != ZERO_STAMP && w.mtime != v.mtime
    ensures Leads(Empty(permits, ttlMinutes, now), es, u)
    ensures p in u.w.rows && CheckRow(u.w.rows[p].row, Live(u.w, p)).Fresh?
    ensures p in u.w.disk && u.w.disk[p] == v.bytes && Hist(u.w, p) == [v, w]
  {
    var s0 := Empty(permits, ttlMinutes, now);
    var es1, s1 := CutOffBeforeMark(permits, ttlMinutes, now, p, v, attrs);
    var s2 := EventApplied(s1, Change(p, w, attrs));
    Then(s0, es1, s1, Change(p, w, attrs), s2);
    assert Hist(s2.w, p) == [v, w];
    var es2, t := AdoptsAndBackfills(s2, p);
    u := t;
    Onward(s0, es1 + [Change(p, w, attrs)], s2, es2, u);
    es := es1 + [Change(p, w, attrs)] + es2;
  }

  lemma AdoptsAndBackfills(s: Sys, p: Path) returns (es: seq<Event>, u: Sys)
    requires p in s.w.disk && p !in s.w.rows && Live(s.w, p).Some? && Live(s.w, p).value.mtime != ZERO_STAMP && !IsNonMedia(p)
    ensures Leads(s, es, u)
    ensures p in u.w.rows && CheckRow(u.w.rows[p].row, Live(u.w, p)).Fresh? && u.w.disk == s.w.disk && Hist(u.w, p) == Hist(s.w, p)
  {
    BackfillTrustsAnything(s, p);
    var m, backfill := EventApplied(s, Adopt(p)), Backfill(p, |Hist(s.w, p)| - 1, s.w.present[p]);
    u := EventApplied(m, backfill);
    Then(s, [], s, Adopt(p), m);
    Then(s, [] + [Adopt(p)], m, backfill, u);
    es := [] + [Adopt(p)] + [backfill];
  }

  // ---------------------------------------------------------------- no permit

  lemma CopyEventNeedsPermit(s: Sys, e: Event)
    requires WellPhased(s.p) && IsCopyEvent(e) && CopyEnabled(s, e)
    ensures s.p.permits > 0
  {
    assert e.id in CopyWorkers(s.p);
  }

  predicate NothingThere(w: World) { w.disk.Keys == {} }

  lemma NoCopyEvent(s: Sys, e: Event)
    requires WellPhased(s.p) && s.p.permits == 0 && NothingThere(s.w) && EventEnabled(s, e)
    ensures NothingThere(EventApplied(s, e).w)
  {
    if IsCopyEvent(e) { CopyEventNeedsPermit(s, e); }
  }

  lemma NoCopyAt(ss: seq<Sys>, es: seq<Event>, k: nat)
    requires IsSysRun(ss, es) && ss[0].p.permits == 0 && k < |es| && NothingThere(ss[k].w)
    ensures NothingThere(ss[k + 1].w)
  {
    RunKeepsExclusive(ss, es, k);
    assert EventAt(ss, es, k);
    NoCopyEvent(ss[k], es[k]);
  }

  /** Without permits nothing is ever copied. */
  lemma {:induction false} NothingCopied(ss: seq<Sys>, es: seq<Event>, k: nat)
    requires IsSysRun(ss, es) && ss[0].p.permits == 0 && k < |ss|
    ensures NothingThere(ss[k].w)
  {
    if k > 0 {
      NothingCopied(ss, es, k - 1);
      NoCopyAt(ss, es, k - 1);
    }
  }

  // ---------------------------------------------------------------- the exact conditions

  /** Every run with that configuration keeps the guarantee for `p`. */
  ghost predicate AlwaysKept(permits: nat, ttlMinutes: nat, now: nat, p: Path) {
    forall ss: seq<Sys>, es: seq<Event>, k: nat :: IsSysRun(ss, es) && ss[0] == Empty(permits, ttlMinutes, now) && k < |ss| ==> EqualIfFresh(ss[k].w, p)
  }

  lemma BrokenByRun(permits: nat, ttlMinutes: nat, now: nat, p: Path, es: seq<Event>, u: Sys)
    requires Leads(Empty(permits, ttlMinutes, now), es, u) && !EqualIfFresh(u.w, p)
    ensures !AlwaysKept(permits, ttlMinutes, now, p)
  {
    var ss := LeadsIsRun(Empty(permits, ttlMinutes, now), es, u);
    assert IsSysRun(ss, es) && ss[|es|] == u;
  }

  /** For every number of permits and every file: a fresh answer always means equal bytes if and only
      if there is no permit, or one and the path is not a working name. */
  lemma GuaranteeIff(permits: nat, ttlMinutes: nat, now: nat, p: Path)
    requires IsFilePath(p)
    ensures AlwaysKept(permits, ttlMinutes, now, p) <==> permits == 0 || (permits == 1 && !HasPartialExtension(p))
  {
    if permits >= 2 {
      var es, u := ManyPermitsBreak(permits, ttlMinutes, now, p);
      BrokenByRun(permits, ttlMinutes, now, p, es, u);
    } else if permits == 1 && HasPartialExtension(p) {
      var es, u := WorkingNameBreaks(permits, ttlMinutes, now, p);
      BrokenByRun(permits, ttlMinutes, now, p, es, u);
    } else {
      forall ss: seq<Sys>, es: seq<Event>, k: nat | IsSysRun(ss, es) && ss[0] == Empty(permits, ttlMinutes, now) && k < |ss|
        ensures EqualIfFresh(ss[k].w, p)
      {
        if permits == 0 { NothingCopied(ss, es, k); } else { FreshMeansEqualBytes(ss, es, k, p); }
      }
    }
  }

  /** The number of permits decides whether ordinary names are safe. */
  lemma PermitsDecide(permits: nat, ttlMinutes: nat, now: nat)
    ensures (forall p :: IsFilePath(p) && !HasPartialExtension(p) ==> AlwaysKept(permits, ttlMinutes, now, p)) <==> permits <= 1
  {
    forall p | IsFilePath(p)
      ensures AlwaysKept(permits, ttlMinutes, now, p) <==> permits == 0 || (permits == 1 && !HasPartialExtension(p))
    {
      GuaranteeIff(permits, ttlMinutes, now, p);
    }
    assert IsFilePath(["a"]) && !HasPartialExtension(["a"]);
  }

  /** With one permit the name decides. */
  lemma NameDecides(ttlMinutes: nat, now: nat, p: Path)
    requires IsFilePath(p)
    ensures AlwaysKept(1, ttlMinutes, now, p) <==> !HasPartialExtension(p)
  {
    GuaranteeIff(1, ttlMinutes, now, p);
  }

  // ---------------------------------------------------------------- rows of any origin

  /** The same without regard to where the row comes from. */
  ghost predicate EqualForAnyRow(w: World, p: Path) {
    p in w.rows && CheckRow(w.rows[p].row, Live(w, p)).Fresh? && p in w.disk ==>
      Hist(w, p) != [] && w.disk[p] == Hist(w, p)[|Hist(w, p)| - 1].bytes
  }

  ghost predicate KeptForAnyRow(permits: nat, ttlMinutes: nat, now: nat, p: Path) {
    forall ss: seq<Sys>, es: seq<Event>, k: nat :: IsSysRun(ss, es) && ss[0] == Empty(permits, ttlMinutes, now) && k < |ss| ==> EqualForAnyRow(ss[k].w, p)
  }

  lemma BrokenForSomeRow(permits: nat, ttlMinutes: nat, now: nat, p: Path, es: seq<Event>, u: Sys)
    requires Leads(Empty(permits, ttlMinutes, now), es, u) && !EqualForAnyRow(u.w, p)
    ensures !KeptForAnyRow(permits, ttlMinutes, now, p)
  {
    var ss := LeadsIsRun(Empty(permits, ttlMinutes, now), es, u);
    assert IsSysRun(ss, es) && ss[|es|] == u;
  }

  /** Every row of `p`, and every refresh of it that is due, goes back to a copy. */
  predicate AllFromCopies(w: World, p: Path) {
    && (p in w.rows ==> w.rows[p].origin.Some?)
    && (forall id :: id in w.refreshers && w.refreshers[id].Matched? && w.refreshers[id].path == p ==> w.refreshers[id].trusted)
  }

  lemma StaysFromCopies(s: Sys, e: Event, p: Path)
    requires IsNonMedia(p) && AllFromCopies(s.w, p) && EventEnabled(s, e)
    ensures AllFromCopies(EventApplied(s, e).w, p)
  {
  }

  /** A file that start-up leaves out never has a row that does not come from a copy. */
  lemma {:induction false} NeverRecovered(ss: seq<Sys>, es: seq<Event>, k: nat, p: Path)
    requires IsSysRun(ss, es) && k < |ss| && IsNonMedia(p)
    ensures AllFromCopies(ss[k].w, p)
  {
    if k > 0 {
      NeverRecovered(ss, es, k - 1, p);
      assert EventAt(ss, es, k - 1);
      StaysFromCopies(ss[k - 1], es[k - 1], p);
    }
  }

  ghost predicate RealTimes(w: World) {
    forall p, i :: 0 <= i < |Hist(w, p)| ==> Hist(w, p)[i].mtime != ZERO_STAMP
  }

  lemma TimesStayReal(s: Sys, e: Event)
    requires RealTimes(s.w) && EventEnabled(s, e)
    ensures RealTimes(EventApplied(s, e).w)
  {
    var w := EventApplied(s, e).w;
    if e.Change? {
      assert Hist(w, e.path) == Hist(s.w, e.path) + [e.version];
      assert forall p :: p != e.path ==> Hist(w, p) == Hist(s.w, p);
    } else {
      assert w.hist == s.w.hist;
      assert forall p :: Hist(w, p) == Hist(s.w, p);
    }
  }

  lemma {:induction false} TimesAreReal(ss: seq<Sys>, es: seq<Event>, k: nat)
    requires IsSysRun(ss, es) && k < |ss|
    ensures RealTimes(ss[k].w)
  {
    if k > 0 {
      TimesAreReal(ss, es, k - 1);
      assert EventAt(ss, es, k - 1);
      TimesStayReal(ss[k - 1], es[k - 1]);
    }
  }

  /** With at most one permit the check never asks for a backfill of such a file: the guard of that
      event leaves nothing out. */
  lemma NeverNeedsBackfill(ss: seq<Sys>, es: seq<Event>, k: nat, p: Path)
    requires IsSysRun(ss, es) && ss[0].p.permits <= 1 && k < |ss| && IsNonMedia(p) && p in ss[k].w.rows
    ensures !CheckRow(ss[k].w.rows[p].row, Live(ss[k].w, p)).NeedsBackfill?
  {
    RunCoherent(ss, es, k);
    NeverRecovered(ss, es, k, p);
    TimesAreReal(ss, es, k);
    assert RowOk(ss[k].w, p);
  }

  /** Counting recovered and backfilled rows in, a file is safe if and only if nothing can be copied,
      or there is one permit and it is one that start-up leaves out but no copy works under. */
  lemma OriginDecides(permits: nat, ttlMinutes: nat, now: nat, p: Path)
    requires IsFilePath(p)
    ensures KeptForAnyRow(permits, ttlMinutes, now, p) <==> permits == 0 || (permits == 1 && IsNonMedia(p) && !HasPartialExtension(p))
  {
    if permits == 0 || (permits == 1 && IsNonMedia(p) && !HasPartialExtension(p)) {
      forall ss: seq<Sys>, es: seq<Event>, k: nat | IsSysRun(ss, es) && ss[0] == Empty(permits, ttlMinutes, now) && k < |ss|
        ensures EqualForAnyRow(ss[k].w, p)
      {
        if permits == 0 {
          NothingCopied(ss, es, k);
        } else {
          NeverRecovered(ss, es, k, p);
          FreshMeansEqualBytes(ss, es, k, p);
        }
      }
    } else if permits >= 2 {
      var es, u := ManyPermitsBreak(permits, ttlMinutes, now, p);
      BrokenForSomeRow(permits, ttlMinutes, now, p, es, u);
    } else if HasPartialExtension(p) {
      var es, u := WorkingNameBreaks(permits, ttlMinutes, now, p);
      BrokenForSomeRow(permits, ttlMinutes, now, p, es, u);
    } else {
      var es, u := RecoveredRowLies(permits, ttlMinutes, now, p, Version(Stamp(1, 0), [7]), Version(Stamp(2, 0), []), NO_ATTRS);
      BrokenForSomeRow(permits, ttlMinutes, now, p, es, u);
    }
  }
}
