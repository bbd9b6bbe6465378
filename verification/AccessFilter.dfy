/** The gate between file accesses and the presets: an opened file waits until it has been open long
    enough, or until closing it shows that it was read in full; and the byte budget that bounds what
    one access may pull in. */
module AccessFilter {
  import opened Paths

  datatype EventKind = Miss | Hit | Close(bytesRead: nat)

  datatype AccessEvent = AccessEvent(path: Path, kind: EventKind)

  /** An access with the size the backing store reports for its path when it is handled (0 when it
      has none), or a tick of the timer. */
  datatype Input =
    | Access(event: AccessEvent, fileSize: nat, at: nat)
    | Tick(at: nat)

  datatype Config = Config(minAccess: nat, minFileSizeMb: nat)

  const MIB := 1_048_576

  /** `since` is the number of the input that started the wait; it only serves to tell waits apart. */
  datatype PendingEntry = PendingEntry(event: AccessEvent, insertedAt: nat, openHandles: nat, totalBytesRead: nat, since: nat)

  type Pending = map<Path, PendingEntry>

  /** A finished wait: begun by input `since`, ended by input `end`. */
  datatype Ended = Ended(path: Path, event: AccessEvent, since: nat, end: nat, promoted: bool)

  predicate AcceptedOpen(cfg: Config, input: Input) {
    input.Access? && !input.event.kind.Close? && (cfg.minFileSizeMb > 0 ==> input.fileSize >= cfg.minFileSizeMb * MIB)
  }

  /** An open that counts towards a wait of `path`. */
  predicate GatedOpen(cfg: Config, input: Input, path: Path) {
    AcceptedOpen(cfg, input) && cfg.minAccess > 0 && input.event.path == path
  }

  predicate CloseOf(input: Input, path: Path) {
    input.Access? && input.event.kind.Close? && input.event.path == path
  }

  // ---------------------------------------------------------------- one input

  function Closed(e: PendingEntry, bytes: nat): PendingEntry {
    e.(openHandles := if e.openHandles == 0 then 0 else e.openHandles - 1, totalBytesRead := e.totalBytesRead + bytes)
  }

  function AfterAccess(pending: Pending, cfg: Config, input: Input, i: nat): Pending
    requires input.Access?
  {
    var path := input.event.path;
    if input.event.kind.Close? then
      if path !in pending then pending
      else
        var e := Closed(pending[path], input.event.kind.bytesRead);
        if e.openHandles == 0 then pending - {path} else pending[path := e]
    else if AcceptedOpen(cfg, input) && cfg.minAccess > 0 then
      if path in pending then pending[path := pending[path].(openHandles := pending[path].openHandles + 1)]
      else pending[path := PendingEntry(input.event, input.at, 1, 0, i)]
    else pending
  }

  function DuePaths(pending: Pending, cfg: Config, now: nat): set<Path> {
    set p | p in pending && cfg.minAccess > 0 && pending[p].insertedAt + cfg.minAccess <= now
  }

  function After(pending: Pending, cfg: Config, input: Input, i: nat): Pending {
    if input.Tick? then pending - DuePaths(pending, cfg, input.at) else AfterAccess(pending, cfg, input, i)
  }

  function PromotedAtTick(path: Path, e: PendingEntry, i: nat): Ended {
    Ended(path, e.event, e.since, i, true)
  }

  function EndedBy(pending: Pending, cfg: Config, input: Input, i: nat): set<Ended> {
    if input.Tick? then
      set p | p in pending && p in DuePaths(pending, cfg, input.at) :: PromotedAtTick(p, pending[p], i)
    else
      var path := input.event.path;
      if !input.event.kind.Close? || path !in pending then {}
      else
        var e := Closed(pending[path], input.event.kind.bytesRead);
        if e.openHandles > 0 then {}
        else {Ended(path, e.event, e.since, i, input.fileSize > 0 && e.totalBytesRead >= input.fileSize)}
  }

  /** Events handed on at once: closes of paths that do not wait, and every accepted open when there
      is no gate. */
  predicate Forwarded(pending: Pending, cfg: Config, input: Input) {
    && input.Access?
    && if input.event.kind.Close? then input.event.path !in pending else AcceptedOpen(cfg, input) && cfg.minAccess == 0
  }

  // ---------------------------------------------------------------- whole runs

  function PendingAfter(inputs: seq<Input>, cfg: Config, n: nat): Pending
    requires n <= |inputs|
  {
    if n == 0 then map[] else After(PendingAfter(inputs, cfg, n - 1), cfg, inputs[n - 1], n - 1)
  }

  function EndedAfter(inputs: seq<Input>, cfg: Config, n: nat): set<Ended>
    requires n <= |inputs|
  {
    if n == 0 then {}
    else EndedAfter(inputs, cfg, n - 1) + EndedBy(PendingAfter(inputs, cfg, n - 1), cfg, inputs[n - 1], n - 1)
  }

  /** Accepted opens of `path` among inputs `a` to `b - 1`. */
  function OpensIn(inputs: seq<Input>, cfg: Config, path: Path, a: nat, b: nat): nat
    requires a <= b <= |inputs|
  {
    if a == b then 0 else OpensIn(inputs, cfg, path, a, b - 1) + (if GatedOpen(cfg, inputs[b - 1], path) then 1 else 0)
  }

  function ClosesIn(inputs: seq<Input>, path: Path, a: nat, b: nat): nat
    requires a <= b <= |inputs|
  {
    if a == b then 0 else ClosesIn(inputs, path, a, b - 1) + (if CloseOf(inputs[b - 1], path) then 1 else 0)
  }

  /** The bytes those closes report. */
  function BytesIn(inputs: seq<Input>, path: Path, a: nat, b: nat): nat
    requires a <= b <= |inputs|
  {
    if a == b then 0
    else BytesIn(inputs, path, a, b - 1) + (if CloseOf(inputs[b - 1], path) then inputs[b - 1].event.kind.bytesRead else 0)
  }

  /** Handles left open before input `b` by the opens and closes of `path` from input `a` on. */
  function HandlesAt(inputs: seq<Input>, cfg: Config, path: Path, a: nat, b: nat): int
    requires a < b <= |inputs|
  {
    1 + OpensIn(inputs, cfg, path, a + 1, b) - ClosesIn(inputs, path, a + 1, b)
  }

  predicate DueTick(inputs: seq<Input>, cfg: Config, a: nat, j: nat)
    requires a < |inputs| && j < |inputs|
  {
    inputs[j].Tick? && inputs[j].at >= inputs[a].at + cfg.minAccess
  }

  /** A wait begun by input `a` is still on before input `b`: a handle was open all along and no tick
      was due. */
  ghost predicate StillWaits(inputs: seq<Input>, cfg: Config, path: Path, a: nat, b: nat)
    requires a < b <= |inputs|
  {
    && GatedOpen(cfg, inputs[a], path)
    && (forall m :: a < m <= b ==> HandlesAt(inputs, cfg, path, a, m) > 0)
    && (forall j :: a < j < b ==> !DueTick(inputs, cfg, a, j))
  }

  ghost predicate EntryOk(inputs: seq<Input>, cfg: Config, n: nat, path: Path, e: PendingEntry)
    requires n <= |inputs|
  {
    && e.since < n && StillWaits(inputs, cfg, path, e.since, n)
    && e.event == inputs[e.since].event && e.insertedAt == inputs[e.since].at
    && e.openHandles == HandlesAt(inputs, cfg, path, e.since, n)
    && e.totalBytesRead == BytesIn(inputs, path, e.since + 1, n)
  }

  /** The wait was on until input `d.end`, which is either the first tick due, and then it promotes,
      or the close of the last handle, and then it promotes exactly when the closes of the wait
      cover the file. */
  ghost predicate EndedOk(inputs: seq<Input>, cfg: Config, n: nat, d: Ended)
    requires n <= |inputs|
  {
    && d.since < d.end < n && StillWaits(inputs, cfg, d.path, d.since, d.end)
    && d.event == inputs[d.since].event
    && if inputs[d.end].Tick? then DueTick(inputs, cfg, d.since, d.end) && d.promoted
       else
         && CloseOf(inputs[d.end], d.path) && HandlesAt(inputs, cfg, d.path, d.since, d.end + 1) == 0
         && (d.promoted <==> inputs[d.end].fileSize > 0 && BytesIn(inputs, d.path, d.since + 1, d.end + 1) >= inputs[d.end].fileSize)
  }

  predicate Covers(d: Ended, path: Path, i: nat) {
    d.path == path && d.since <= i < d.end
  }

  ghost predicate EntriesOk(inputs: seq<Input>, cfg: Config, n: nat, pending: Pending)
    requires n <= |inputs|
  {
    forall p :: p in pending ==> EntryOk(inputs, cfg, n, p, pending[p])
  }

  ghost predicate LogOk(inputs: seq<Input>, cfg: Config, n: nat, log: set<Ended>)
    requires n <= |inputs|
  {
    forall d :: d in log ==> EndedOk(inputs, cfg, n, d)
  }

  /** Waits of one path never overlap. */
  ghost predicate Apart(pending: Pending, log: set<Ended>) {
    && (forall d, e :: d in log && e in log && d.path == e.path && d != e ==> d.end < e.since || e.end < d.since)
    && (forall d :: d in log && d.path in pending ==> d.end < pending[d.path].since)
  }

  ghost predicate IsCovered(pending: Pending, log: set<Ended>, path: Path, i: nat) {
    (path in pending && pending[path].since <= i) || exists d :: d in log && Covers(d, path, i)
  }

  ghost predicate AllCovered(inputs: seq<Input>, cfg: Config, n: nat, pending: Pending, log: set<Ended>)
    requires n <= |inputs|
  {
    forall i, path :: 0 <= i < n && GatedOpen(cfg, inputs[i], path) ==> IsCovered(pending, log, path, i)
  }

  lemma LogStays(inputs: seq<Input>, cfg: Config, n: nat, log: set<Ended>)
    requires n < |inputs| && LogOk(inputs, cfg, n, log)
    ensures LogOk(inputs, cfg, n + 1, log)
  {
  }

  lemma {:induction false} WaitContinues(inputs: seq<Input>, cfg: Config, path: Path, a: nat, n: nat)
    requires a < n < |inputs| && StillWaits(inputs, cfg, path, a, n) && !DueTick(inputs, cfg, a, n)
    requires HandlesAt(inputs, cfg, path, a, n + 1) > 0
    ensures StillWaits(inputs, cfg, path, a, n + 1)
  {
  }

  lemma {:induction false} AccessEntries(inputs: seq<Input>, cfg: Config, n: nat, pending: Pending)
    requires n < |inputs| && inputs[n].Access? && EntriesOk(inputs, cfg, n, pending)
    ensures EntriesOk(inputs, cfg, n + 1, AfterAccess(pending, cfg, inputs[n], n))
  {
    var after := AfterAccess(pending, cfg, inputs[n], n);
    forall p | p in after ensures EntryOk(inputs, cfg, n + 1, p, after[p]) {
      if p in pending {
        assert EntryOk(inputs, cfg, n, p, pending[p]);
        WaitContinues(inputs, cfg, p, pending[p].since, n);
      }
    }
  }

  lemma {:induction false} AccessEnds(inputs: seq<Input>, cfg: Config, n: nat, pending: Pending)
    requires n < |inputs| && inputs[n].Access? && EntriesOk(inputs, cfg, n, pending)
    ensures LogOk(inputs, cfg, n + 1, EndedBy(pending, cfg, inputs[n], n))
  {
  }

  lemma {:induction false} TickEntries(inputs: seq<Input>, cfg: Config, n: nat, pending: Pending)
    requires n < |inputs| && inputs[n].Tick? && EntriesOk(inputs, cfg, n, pending)
    ensures EntriesOk(inputs, cfg, n + 1, pending - DuePaths(pending, cfg, inputs[n].at))
    ensures LogOk(inputs, cfg, n + 1, EndedBy(pending, cfg, inputs[n], n))
  {
  }

  lemma {:induction false} StepApart(inputs: seq<Input>, cfg: Config, n: nat, pending: Pending, log: set<Ended>)
    requires n < |inputs| && EntriesOk(inputs, cfg, n, pending) && LogOk(inputs, cfg, n, log) && Apart(pending, log)
    ensures Apart(After(pending, cfg, inputs[n], n), log + EndedBy(pending, cfg, inputs[n], n))
  {
    var after, more := After(pending, cfg, inputs[n], n), EndedBy(pending, cfg, inputs[n], n);
    forall d | d in more ensures d.path in pending && d.since == pending[d.path].since && d.end == n && d.path !in after { }
    forall d, e | d in more && e in more && d.path == e.path ensures d == e { }
    forall d | d in log ensures d.end < n { assert EndedOk(inputs, cfg, n, d); }
    forall p | p in after && p in pending ensures after[p].since == pending[p].since { }
    forall p | p in after && p !in pending ensures after[p].since == n { }
  }

  lemma StepCovered(inputs: seq<Input>, cfg: Config, n: nat, pending: Pending, log: set<Ended>)
    requires n < |inputs| && EntriesOk(inputs, cfg, n, pending) && AllCovered(inputs, cfg, n, pending, log)
    ensures AllCovered(inputs, cfg, n + 1, After(pending, cfg, inputs[n], n), log + EndedBy(pending, cfg, inputs[n], n))
  {
    var after, more := After(pending, cfg, inputs[n], n), EndedBy(pending, cfg, inputs[n], n);
    forall i, path | 0 <= i < n + 1 && GatedOpen(cfg, inputs[i], path) ensures IsCovered(after, log + more, path, i) {
      if path in pending { assert EntryOk(inputs, cfg, n, path, pending[path]); }
      if i < n {
        assert IsCovered(pending, log, path, i);
        if path in pending && pending[path].since <= i {
          WaitIsKept(pending, cfg, inputs[n], n, path);
          if path !in after { var d :| d in more && d.path == path; assert Covers(d, path, i); }
        } else {
          var d :| d in log && Covers(d, path, i);
          assert d in log + more;
        }
      }
    }
  }

  /** A wait that leaves the table is logged. */
  lemma WaitIsKept(pending: Pending, cfg: Config, input: Input, n: nat, path: Path)
    requires path in pending
    ensures var after := After(pending, cfg, input, n);
      if path in after then after[path].since == pending[path].since
      else exists d :: d in EndedBy(pending, cfg, input, n) && d.path == path && d.since == pending[path].since && d.end == n
  {
    if input.Tick? && path in DuePaths(pending, cfg, input.at) {
      assert PromotedAtTick(path, pending[path], n) in EndedBy(pending, cfg, input, n);
    } else if input.Access? && path !in After(pending, cfg, input, n) {
      var e := Closed(pending[path], input.event.kind.bytesRead);
      assert Ended(path, e.event, e.since, n, input.fileSize > 0 && e.totalBytesRead >= input.fileSize) in EndedBy(pending, cfg, input, n);
    }
  }

  ghost predicate RunOk(inputs: seq<Input>, cfg: Config, n: nat, pending: Pending, log: set<Ended>)
    requires n <= |inputs|
  {
    EntriesOk(inputs, cfg, n, pending) && LogOk(inputs, cfg, n, log) && Apart(pending, log) && AllCovered(inputs, cfg, n, pending, log)
  }

  lemma {:induction false} StepEntries(inputs: seq<Input>, cfg: Config, n: nat, pending: Pending)
    requires n < |inputs| && EntriesOk(inputs, cfg, n, pending)
    ensures EntriesOk(inputs, cfg, n + 1, After(pending, cfg, inputs[n], n)) && LogOk(inputs, cfg, n + 1, EndedBy(pending, cfg, inputs[n], n))
  {
    if inputs[n].Tick? { TickEntries(inputs, cfg, n, pending); }
    else { AccessEntries(inputs, cfg, n, pending); AccessEnds(inputs, cfg, n, pending); }
  }

  lemma {:induction false} StepIsOk(inputs: seq<Input>, cfg: Config, n: nat, pending: Pending, log: set<Ended>)
    requires n < |inputs| && RunOk(inputs, cfg, n, pending, log)
    ensures RunOk(inputs, cfg, n + 1, After(pending, cfg, inputs[n], n), log + EndedBy(pending, cfg, inputs[n], n))
  {
    LogStays(inputs, cfg, n, log);
    StepEntries(inputs, cfg, n, pending);
    StepApart(inputs, cfg, n, pending, log);
    StepCovered(inputs, cfg, n, pending, log);
  }

  lemma {:induction false} RunIsOk(inputs: seq<Input>, cfg: Config, n: nat)
    requires n <= |inputs|
    ensures RunOk(inputs, cfg, n, PendingAfter(inputs, cfg, n), EndedAfter(inputs, cfg, n))
  {
    if n > 0 {
      RunIsOk(inputs, cfg, n - 1);
      NextIsOk(inputs, cfg, n - 1);
    }
  }

  lemma NextIsOk(inputs: seq<Input>, cfg: Config, n: nat)
    requires n < |inputs| && RunOk(inputs, cfg, n, PendingAfter(inputs, cfg, n), EndedAfter(inputs, cfg, n))
    ensures RunOk(inputs, cfg, n + 1, PendingAfter(inputs, cfg, n + 1), EndedAfter(inputs, cfg, n + 1))
  {
    var pending, log := PendingAfter(inputs, cfg, n), EndedAfter(inputs, cfg, n);
    StepIsOk(inputs, cfg, n, pending, log);
    assert PendingAfter(inputs, cfg, n + 1) == After(pending, cfg, inputs[n], n);
    assert EndedAfter(inputs, cfg, n + 1) == log + EndedBy(pending, cfg, inputs[n], n);
  }

  /** While a path waits, its entry counts one handle plus the later accepted opens minus the closes,
      which is positive, and adds up exactly the bytes of those closes. */
  lemma {:induction false} PendingCounts(inputs: seq<Input>, cfg: Config, n: nat, path: Path)
    requires n <= |inputs| && path in PendingAfter(inputs, cfg, n)
    ensures var e := PendingAfter(inputs, cfg, n)[path];
      && e.since < n && GatedOpen(cfg, inputs[e.since], path)
      && e.openHandles == 1 + OpensIn(inputs, cfg, path, e.since + 1, n) - ClosesIn(inputs, path, e.since + 1, n) > 0
      && e.totalBytesRead == BytesIn(inputs, path, e.since + 1, n)
  {
    RunIsOk(inputs, cfg, n);
    assert EntryOk(inputs, cfg, n, path, PendingAfter(inputs, cfg, n)[path]);
    assert HandlesAt(inputs, cfg, path, PendingAfter(inputs, cfg, n)[path].since, n) > 0;
  }

  /** Every finished wait ended as the gate prescribes, and no two logged waits share their start:
      a wait is promoted at most once. */
  lemma PromotedOnceAsPrescribed(inputs: seq<Input>, cfg: Config, n: nat, d: Ended)
    requires n <= |inputs| && d in EndedAfter(inputs, cfg, n)
    ensures EndedOk(inputs, cfg, n, d)
    ensures forall e :: e in EndedAfter(inputs, cfg, n) && e.path == d.path && e.since == d.since ==> e == d
    ensures forall e :: e in EndedAfter(inputs, cfg, n) && e.path == d.path && e.end == d.end ==> e == d
  {
    RunIsOk(inputs, cfg, n);
    forall e | e in EndedAfter(inputs, cfg, n) ensures e.since < e.end { assert EndedOk(inputs, cfg, n, e); }
    assert EndedOk(inputs, cfg, n, d);
  }

  ghost predicate TimesRise(inputs: seq<Input>) {
    forall i, j :: 0 <= i <= j < |inputs| ==> inputs[i].at <= inputs[j].at
  }

  /** A file that stays open (no close of it until a tick comes `minAccess` or more after the open)
      is promoted: exactly one wait covers its open, and that wait is over by that tick, promoted. */
  lemma HeldOpenIsPromoted(inputs: seq<Input>, cfg: Config, n: nat, i: nat, j: nat, path: Path)
    requires n <= |inputs| && TimesRise(inputs) && i < j < n && GatedOpen(cfg, inputs[i], path)
    requires DueTick(inputs, cfg, i, j) && forall k :: i < k < j ==> !CloseOf(inputs[k], path)
    ensures exists d :: IsTheWait(inputs, cfg, n, d, path, i) && d.promoted && d.end <= j
  {
    RunIsOk(inputs, cfg, n);
    var pending, log := PendingAfter(inputs, cfg, n), EndedAfter(inputs, cfg, n);
    assert IsCovered(pending, log, path, i);
    WaitIsOver(inputs, cfg, n, i, j, path, pending);
    var d :| d in log && Covers(d, path, i);
    assert EndedOk(inputs, cfg, n, d);
    WaitEndsInTime(inputs, cfg, n, i, j, path, d);
    assert IsTheWait(inputs, cfg, n, d, path, i);
  }

  lemma WaitEndsInTime(inputs: seq<Input>, cfg: Config, n: nat, i: nat, j: nat, path: Path, d: Ended)
    requires n <= |inputs| && TimesRise(inputs) && i < j < n && Covers(d, path, i) && EndedOk(inputs, cfg, n, d)
    requires DueTick(inputs, cfg, i, j) && forall k :: i < k < j ==> !CloseOf(inputs[k], path)
    ensures d.promoted && d.end <= j
  {
    assert inputs[d.since].at <= inputs[i].at;
    assert DueTick(inputs, cfg, d.since, j);
  }

  lemma WaitIsOver(inputs: seq<Input>, cfg: Config, n: nat, i: nat, j: nat, path: Path, pending: Pending)
    requires n <= |inputs| && TimesRise(inputs) && i < j < n && EntriesOk(inputs, cfg, n, pending)
    requires DueTick(inputs, cfg, i, j)
    ensures path in pending ==> pending[path].since > i
  {
    if path in pending {
      assert EntryOk(inputs, cfg, n, path, pending[path]);
      var a := pending[path].since;
      var earlier := if a <= i then a else i;
      assert inputs[earlier].at <= inputs[i].at;
      assert DueTick(inputs, cfg, earlier, j);
    }
  }

  /** The one wait that covers open `i` of `path`. */
  ghost predicate IsTheWait(inputs: seq<Input>, cfg: Config, n: nat, d: Ended, path: Path, i: nat)
    requires n <= |inputs|
  {
    && d in EndedAfter(inputs, cfg, n) && Covers(d, path, i) && EndedOk(inputs, cfg, n, d)
    && forall e :: e in EndedAfter(inputs, cfg, n) && Covers(e, path, i) ==> e == d
  }

  // ---------------------------------------------------------------- the byte budget

  /** A file a preset proposes, as the manager and the store report it at that moment. */
  datatype Candidate = Candidate(path: Path, cached: bool, size: nat)

  function Uncached(cs: seq<Candidate>): (ps: seq<Path>)
    ensures |ps| <= |cs|
    ensures forall p :: p in ps <==> exists c :: c in cs && !c.cached && c.path == p
  {
    if cs == [] then []
    else
      assert forall c :: c in cs <==> c in cs[..|cs| - 1] || c == cs[|cs| - 1];
      Uncached(cs[..|cs| - 1]) + (if cs[|cs| - 1].cached then [] else [cs[|cs| - 1].path])
  }

  function UncachedBytes(cs: seq<Candidate>): nat {
    if cs == [] then 0 else UncachedBytes(cs[..|cs| - 1]) + (if cs[|cs| - 1].cached then 0 else cs[|cs| - 1].size)
  }

  /** The candidates before position `k` having been taken, the one there ends the round. */
  predicate Exhausts(cs: seq<Candidate>, maxBytes: nat, start: nat, k: nat)
    requires k < |cs|
  {
    maxBytes > 0 && !cs[k].cached && Uncached(cs[..k]) != [] && start + UncachedBytes(cs[..k]) + cs[k].size > maxBytes
  }

  /** The round takes the candidates before position `k`: it ends where the budget is first exhausted. */
  ghost predicate RoundEnds(cs: seq<Candidate>, maxBytes: nat, start: nat, k: nat) {
    k <= |cs| && (k < |cs| ==> Exhausts(cs, maxBytes, start, k)) && forall j :: 0 <= j < k ==> !Exhausts(cs, maxBytes, start, j)
  }

  method SubmitCandidates(cs: seq<Candidate>, maxBytes: nat, start: nat) returns (submitted: seq<Path>)
    ensures exists k: nat :: RoundEnds(cs, maxBytes, start, k) && submitted == Uncached(cs[..k])
  {
    var budgetActive := maxBytes > 0;
    var runningTotal := if budgetActive then start else 0;
    var firstCandidate := true;
    submitted := [];
    var i := 0;
    while i < |cs|
      invariant 0 <= i <= |cs|
      invariant submitted == Uncached(cs[..i]) && (firstCandidate <==> submitted == [])
      invariant budgetActive ==> runningTotal == start + UncachedBytes(cs[..i])
      invariant forall j :: 0 <= j < i ==> !Exhausts(cs, maxBytes, start, j)
    {
      var c := cs[i];
      assert cs[..i + 1][..i] == cs[..i];
      if c.cached {
        i := i + 1;
        continue;
      }
      if budgetActive {
        if !firstCandidate && runningTotal + c.size > maxBytes {
          assert RoundEnds(cs, maxBytes, start, i);
          break;
        }
        runningTotal := runningTotal + c.size;
      }
      firstCandidate := false;
      submitted := submitted + [c.path];
      i := i + 1;
    }
    assert RoundEnds(cs, maxBytes, start, i);
  }

  /** With no more than the budget asked for, or no budget, every uncached candidate is taken, in order;
      the first of them always is. */
  lemma {:induction false} RoundTakesAll(cs: seq<Candidate>, maxBytes: nat, start: nat, k: nat)
    requires RoundEnds(cs, maxBytes, start, k)
    ensures maxBytes == 0 || start + UncachedBytes(cs) <= maxBytes ==> k == |cs|
    ensures forall j :: 0 <= j < |cs| && !cs[j].cached && Uncached(cs[..j]) == [] ==> j < k
  {
    if k < |cs| {
      BytesGrow(cs, k + 1);
      assert cs[..k + 1][..k] == cs[..k];
      var p := Uncached(cs[..k])[0];
      assert p in Uncached(cs[..k]);
      var c :| c in cs[..k] && !c.cached && c.path == p;
      forall j | k <= j < |cs| ensures Uncached(cs[..j]) != [] {
        assert c in cs[..j];
        assert p in Uncached(cs[..j]);
      }
    }
  }

  lemma {:induction false} BytesGrow(cs: seq<Candidate>, k: nat)
    requires k <= |cs|
    ensures UncachedBytes(cs[..k]) <= UncachedBytes(cs)
    decreases |cs|
  {
    if k < |cs| {
      var front := cs[..|cs| - 1];
      BytesGrow(front, k);
      assert front[..k] == cs[..k];
    } else {
      assert cs[..k] == cs;
    }
  }

  /** Whatever a round takes beyond its first file keeps the total within the budget; the end of a
      round is determined by its candidates. */
  lemma {:induction false} RoundWithinBudget(cs: seq<Candidate>, maxBytes: nat, start: nat, k: nat)
    requires maxBytes > 0 && RoundEnds(cs, maxBytes, start, k)
    ensures |Uncached(cs[..k])| >= 2 ==> start + UncachedBytes(cs[..k]) <= maxBytes
    ensures forall m: nat :: RoundEnds(cs, maxBytes, start, m) ==> m == k
  {
    TakenWithinBudget(cs, maxBytes, start, k);
  }

  lemma {:induction false} TakenWithinBudget(cs: seq<Candidate>, maxBytes: nat, start: nat, k: nat)
    requires maxBytes > 0 && k <= |cs| && forall j :: 0 <= j < k ==> !Exhausts(cs, maxBytes, start, j)
    ensures |Uncached(cs[..k])| >= 2 ==> start + UncachedBytes(cs[..k]) <= maxBytes
  {
    if k > 0 {
      TakenWithinBudget(cs, maxBytes, start, k - 1);
      assert cs[..k][..k - 1] == cs[..k - 1];
      assert !Exhausts(cs, maxBytes, start, k - 1);
    }
  }

  // ---------------------------------------------------------------- in place

  class Filter {
    var pending: Pending
    var inputs: nat
    const cfg: Config

    ghost predicate Valid()
      reads this
    {
      forall p :: p in pending ==> pending[p].event.path == p
    }

    constructor (cfg: Config)
      ensures Valid() && pending == map[] && inputs == 0 && this.cfg == cfg
    {
      this.cfg := cfg;
      pending, inputs := map[], 0;
    }

    method OnAccess(input: Input) returns (toProcess: seq<AccessEvent>)
      requires Valid() && input.Access?
      modifies this
      ensures Valid() && pending == AfterAccess(old(pending), cfg, input, old(inputs)) && inputs == old(inputs) + 1
      ensures |toProcess| <= 1
      ensures forall e :: e in toProcess <==>
        || (e == input.event && Forwarded(old(pending), cfg, input))
        || exists d :: d in EndedBy(old(pending), cfg, input, old(inputs)) && d.promoted && d.event == e
      ensures input.event.kind.Close? && input.event.path !in old(pending) ==> toProcess == [input.event] && pending == old(pending)
      ensures input.event.kind.Close? && input.event.path in old(pending) ==>
                HandlesClose(old(pending)[input.event.path], pending, input, toProcess)
      ensures !input.event.kind.Close? && cfg.minFileSizeMb > 0 && input.fileSize < cfg.minFileSizeMb * 1_048_576 ==>
                toProcess == [] && pending == old(pending)
      ensures !input.event.kind.Close? && (cfg.minFileSizeMb == 0 || input.fileSize >= cfg.minFileSizeMb * 1_048_576) ==>
                if cfg.minAccess == 0 then toProcess == [input.event] && pending == old(pending)
                else toProcess == [] && input.event.path in pending
      ensures forall p :: p != input.event.path ==> (p in pending <==> p in old(pending)) && (p in pending ==> pending[p] == old(pending)[p])
    {
      var i := inputs;
      inputs := inputs + 1;
      toProcess := [];
      var path := input.event.path;
      if input.event.kind.Close? {
        if path in pending {
          var entry := pending[path];
          entry := entry.(openHandles := if entry.openHandles == 0 then 0 else entry.openHandles - 1,
                          totalBytesRead := entry.totalBytesRead + input.event.kind.bytesRead);
          pending := pending[path := entry];
          if entry.openHandles == 0 {
            pending := pending - {path};
            assert Ended(path, entry.event, entry.since, i, input.fileSize > 0 && entry.totalBytesRead >= input.fileSize)
              in EndedBy(old(pending), cfg, input, i);
            if input.fileSize > 0 && entry.totalBytesRead >= input.fileSize {
              toProcess := [entry.event];
            }
          }
        } else {
          toProcess := [input.event];
        }
      } else {
        var passesSizeFloor := cfg.minFileSizeMb == 0 || input.fileSize >= cfg.minFileSizeMb * MIB;
        if passesSizeFloor {
          if cfg.minAccess > 0 {
            if path in pending {
              pending := pending[path := pending[path].(openHandles := pending[path].openHandles + 1)];
            } else {
              pending := pending[path := PendingEntry(input.event, input.at, 1, 0, i)];
            }
          } else {
            toProcess := [input.event];
          }
        }
      }
    }

    /** Promotes the waits that are due, in no particular order, each once. */
    method OnTick(now: nat) returns (toProcess: seq<AccessEvent>)
      requires Valid()
      modifies this
      ensures Valid() && pending == old(pending) - DuePaths(old(pending), cfg, now) && inputs == old(inputs) + 1
      ensures forall e :: e in toProcess <==> exists d :: d in EndedBy(old(pending), cfg, Tick(now), old(inputs)) && d.event == e
      ensures forall i, j :: 0 <= i < j < |toProcess| ==> toProcess[i].path != toProcess[j].path
    {
      toProcess := [];
      inputs := inputs + 1;
      if cfg.minAccess == 0 { return; }
      ghost var due := DuePaths(pending, cfg, now);
      var ready := DuePaths(pending, cfg, now);
      while ready != {}
        invariant ready <= due && Valid() && inputs == old(inputs) + 1
        invariant pending == old(pending) - (due - ready)
        invariant forall e :: e in toProcess <==> e.path in due - ready && e == old(pending)[e.path].event
        invariant forall i, j :: 0 <= i < j < |toProcess| ==> toProcess[i].path != toProcess[j].path
      {
        var key :| key in ready;
        assert key in pending;
        toProcess := toProcess + [pending[key].event];
        pending := pending - {key};
        ready := ready - {key};
      }
      DueEvents(old(pending), cfg, now, old(inputs));
    }
  }

  /** A close of a waiting path: the wait ends with its last handle, and hands its event on exactly
      if its closes cover a file that is not empty; otherwise it goes on with one handle less. */
  predicate HandlesClose(e: PendingEntry, after: Pending, input: Input, toProcess: seq<AccessEvent>)
    requires input.Access? && input.event.kind.Close?
  {
    var path, total := input.event.path, e.totalBytesRead + input.event.kind.bytesRead;
    if e.openHandles > 1 then
      toProcess == [] && path in after && after[path] == e.(openHandles := e.openHandles - 1, totalBytesRead := total)
    else
      path !in after && toProcess == if input.fileSize > 0 && total >= input.fileSize then [e.event] else []
  }

  lemma DueEvents(pending: Pending, cfg: Config, now: nat, i: nat)
    requires forall p :: p in pending ==> pending[p].event.path == p
    ensures forall e: AccessEvent :: e.path in DuePaths(pending, cfg, now) && e == pending[e.path].event <==>
        exists d :: d in EndedBy(pending, cfg, Tick(now), i) && d.event == e
  {
    forall e: AccessEvent | e.path in DuePaths(pending, cfg, now) && e == pending[e.path].event
      ensures exists d :: d in EndedBy(pending, cfg, Tick(now), i) && d.event == e
    {
      assert PromotedAtTick(e.path, pending[e.path], i) in EndedBy(pending, cfg, Tick(now), i);
    }
  }
}
