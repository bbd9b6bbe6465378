/** Coalescing of backing-store events: a fixed window per directory entry, opened by its first event
    and dispatched at the first tick not before its deadline, with the highest severity seen. */
module Debounce {
  import opened Options
  import opened Paths

  datatype Flag = CREATE | DELETE | MODIFY | ATTRIB | MOVED_FROM | MOVED_TO | OTHER

  datatype Severity = CreateOrMovedIn | Attr | Modify | Delete {
    function Rank(): nat {
      match this
      case CreateOrMovedIn => 0
      case Attr => 1
      case Modify => 2
      case Delete => 3
    }
  }

  function Worse(a: Severity, b: Severity): Severity {
    if b.Rank() > a.Rank() then b else a
  }

  datatype WdEntry = WdEntry(relPath: Path, ino: nat)

  type Key = (nat, Name)

  /** A raw event with the watches installed when it is handled, or a tick of the timer. */
  datatype Input =
    | Raw(wd: nat, name: Option<Name>, mask: set<Flag>, watches: map<nat, WdEntry>, at: nat)
    | Tick(at: nat)

  /** `first` is the number of the input that opened the window; it only serves to tell windows apart. */
  datatype PendingEvent = PendingEvent(deadline: nat, severity: Severity, parentRel: Path, first: nat)

  type Pending = map<Key, PendingEvent>

  datatype Dispatch = Dispatch(key: Key, severity: Severity, parentRel: Path, first: nat, tick: nat)

  function SeverityOf(mask: set<Flag>): Severity {
    if DELETE in mask || MOVED_FROM in mask then Delete
    else if MODIFY in mask then Modify
    else if ATTRIB in mask then Attr
    else CreateOrMovedIn
  }

  /** Only named events of a known watch are recorded. */
  predicate Recorded(input: Input) {
    input.Raw? && input.name.Some? && input.wd in input.watches
  }

  function KeyOf(input: Input): Key
    requires Recorded(input)
  {
    (input.watches[input.wd].ino, input.name.value)
  }

  predicate RecordedFor(input: Input, key: Key) {
    Recorded(input) && KeyOf(input) == key
  }

  // ---------------------------------------------------------------- one input

  function AfterEvent(pending: Pending, input: Input, dur: nat, i: nat): Pending {
    if !Recorded(input) then pending
    else
      var key, severity := KeyOf(input), SeverityOf(input.mask);
      if key in pending then pending[key := pending[key].(severity := Worse(pending[key].severity, severity))]
      else pending[key := PendingEvent(input.at + dur, severity, input.watches[input.wd].relPath, i)]
  }

  function DueKeys(pending: Pending, now: nat): set<Key> {
    set k | k in pending && pending[k].deadline <= now
  }

  function DispatchOf(key: Key, p: PendingEvent, tick: nat): Dispatch {
    Dispatch(key, p.severity, p.parentRel, p.first, tick)
  }

  function DueDispatches(pending: Pending, now: nat, i: nat): set<Dispatch> {
    set k | k in pending && pending[k].deadline <= now :: DispatchOf(k, pending[k], i)
  }

  // ---------------------------------------------------------------- whole runs

  function PendingAfter(inputs: seq<Input>, dur: nat, n: nat): Pending
    requires n <= |inputs|
  {
    if n == 0 then map[]
    else
      var before, input := PendingAfter(inputs, dur, n - 1), inputs[n - 1];
      if input.Tick? then before - DueKeys(before, input.at) else AfterEvent(before, input, dur, n - 1)
  }

  function DispatchedAfter(inputs: seq<Input>, dur: nat, n: nat): set<Dispatch>
    requires n <= |inputs|
  {
    if n == 0 then {}
    else
      var log, input := DispatchedAfter(inputs, dur, n - 1), inputs[n - 1];
      if input.Tick? then log + DueDispatches(PendingAfter(inputs, dur, n - 1), input.at, n - 1) else log
  }

  /** The highest severity of the recorded events of a key among inputs `a` to `b - 1`. */
  function WorstOf(inputs: seq<Input>, key: Key, a: nat, b: nat): Severity
    requires a < b <= |inputs| && RecordedFor(inputs[a], key)
  {
    if b == a + 1 then SeverityOf(inputs[a].mask)
    else if RecordedFor(inputs[b - 1], key) then Worse(WorstOf(inputs, key, a, b - 1), SeverityOf(inputs[b - 1].mask))
    else WorstOf(inputs, key, a, b - 1)
  }

  /** `WorstOf` is an upper bound that one of the events attains. */
  lemma {:induction false} WorstIsMaximum(inputs: seq<Input>, key: Key, a: nat, b: nat)
    requires a < b <= |inputs| && RecordedFor(inputs[a], key)
    ensures forall i :: a <= i < b && RecordedFor(inputs[i], key) ==> SeverityOf(inputs[i].mask).Rank() <= WorstOf(inputs, key, a, b).Rank()
    ensures exists i :: a <= i < b && RecordedFor(inputs[i], key) && SeverityOf(inputs[i].mask) == WorstOf(inputs, key, a, b)
  {
    if b == a + 1 {
      assert RecordedFor(inputs[a], key) && SeverityOf(inputs[a].mask) == WorstOf(inputs, key, a, b);
    } else {
      WorstIsMaximum(inputs, key, a, b - 1);
      var i :| a <= i < b - 1 && RecordedFor(inputs[i], key) && SeverityOf(inputs[i].mask) == WorstOf(inputs, key, a, b - 1);
      assert RecordedFor(inputs[b - 1], key) || WorstOf(inputs, key, a, b) == SeverityOf(inputs[i].mask);
    }
  }

  /** No tick strictly between inputs `a` and `b` reaches the deadline of the window `a` opened. */
  ghost predicate NoTickDue(inputs: seq<Input>, dur: nat, a: nat, b: nat)
    requires a < |inputs| && b <= |inputs|
  {
    forall j :: a < j < b && inputs[j].Tick? ==> inputs[j].at < inputs[a].at + dur
  }

  ghost predicate WindowOk(inputs: seq<Input>, dur: nat, n: nat, key: Key, p: PendingEvent)
    requires n <= |inputs|
  {
    && p.first < n && RecordedFor(inputs[p.first], key)
    && p.deadline == inputs[p.first].at + dur
    && p.parentRel == inputs[p.first].watches[inputs[p.first].wd].relPath
    && NoTickDue(inputs, dur, p.first, n)
    && p.severity == WorstOf(inputs, key, p.first, n)
  }

  /** A dispatch closes the window its first event opened, at the first tick that is due, with the
      worst severity of the events in between. */
  ghost predicate DispatchOk(inputs: seq<Input>, dur: nat, n: nat, d: Dispatch)
    requires n <= |inputs|
  {
    && d.first < d.tick < n && RecordedFor(inputs[d.first], d.key)
    && d.parentRel == inputs[d.first].watches[inputs[d.first].wd].relPath
    && inputs[d.tick].Tick? && inputs[d.tick].at >= inputs[d.first].at + dur
    && NoTickDue(inputs, dur, d.first, d.tick)
    && d.severity == WorstOf(inputs, d.key, d.first, d.tick)
  }

  predicate Covers(d: Dispatch, key: Key, i: nat) {
    d.key == key && d.first <= i < d.tick
  }

  ghost predicate WindowsOk(inputs: seq<Input>, dur: nat, n: nat, pending: Pending)
    requires n <= |inputs|
  {
    forall k :: k in pending ==> WindowOk(inputs, dur, n, k, pending[k])
  }

  ghost predicate LogOk(inputs: seq<Input>, dur: nat, n: nat, log: set<Dispatch>)
    requires n <= |inputs|
  {
    forall d :: d in log ==> DispatchOk(inputs, dur, n, d)
  }

  /** Windows of one entry never overlap. */
  ghost predicate Apart(pending: Pending, log: set<Dispatch>) {
    && (forall d, e :: d in log && e in log && d.key == e.key && d != e ==> d.tick < e.first || e.tick < d.first)
    && (forall d :: d in log && d.key in pending ==> d.tick < pending[d.key].first)
  }

  ghost predicate IsCovered(pending: Pending, log: set<Dispatch>, key: Key, i: nat) {
    (key in pending && pending[key].first <= i) || exists d :: d in log && Covers(d, key, i)
  }

  ghost predicate AllCovered(inputs: seq<Input>, n: nat, pending: Pending, log: set<Dispatch>)
    requires n <= |inputs|
  {
    forall i, key :: 0 <= i < n && RecordedFor(inputs[i], key) ==> IsCovered(pending, log, key, i)
  }

  ghost predicate RunOk(inputs: seq<Input>, dur: nat, n: nat, pending: Pending, log: set<Dispatch>)
    requires n <= |inputs|
  {
    && WindowsOk(inputs, dur, n, pending)
    && LogOk(inputs, dur, n, log)
    && Apart(pending, log)
    && AllCovered(inputs, n, pending, log)
  }

  lemma LogStays(inputs: seq<Input>, dur: nat, n: nat, log: set<Dispatch>)
    requires n < |inputs| && LogOk(inputs, dur, n, log)
    ensures LogOk(inputs, dur, n + 1, log)
  {
  }

  lemma EventWindows(inputs: seq<Input>, dur: nat, n: nat, pending: Pending)
    requires n < |inputs| && !inputs[n].Tick? && WindowsOk(inputs, dur, n, pending)
    ensures WindowsOk(inputs, dur, n + 1, AfterEvent(pending, inputs[n], dur, n))
  {
  }

  lemma EventApart(inputs: seq<Input>, dur: nat, n: nat, pending: Pending, log: set<Dispatch>)
    requires n < |inputs| && !inputs[n].Tick? && LogOk(inputs, dur, n, log) && Apart(pending, log)
    ensures Apart(AfterEvent(pending, inputs[n], dur, n), log)
  {
  }

  lemma EventCovered(inputs: seq<Input>, dur: nat, n: nat, pending: Pending, log: set<Dispatch>)
    requires n < |inputs| && !inputs[n].Tick? && WindowsOk(inputs, dur, n, pending) && AllCovered(inputs, n, pending, log)
    ensures AllCovered(inputs, n + 1, AfterEvent(pending, inputs[n], dur, n), log)
  {
  }

  lemma TickWindows(inputs: seq<Input>, dur: nat, n: nat, pending: Pending)
    requires n < |inputs| && inputs[n].Tick? && WindowsOk(inputs, dur, n, pending)
    ensures WindowsOk(inputs, dur, n + 1, pending - DueKeys(pending, inputs[n].at))
    ensures LogOk(inputs, dur, n + 1, DueDispatches(pending, inputs[n].at, n))
  {
  }

  lemma TickApart(inputs: seq<Input>, dur: nat, n: nat, pending: Pending, log: set<Dispatch>)
    requires n < |inputs| && inputs[n].Tick? && WindowsOk(inputs, dur, n, pending) && Apart(pending, log)
    ensures Apart(pending - DueKeys(pending, inputs[n].at), log + DueDispatches(pending, inputs[n].at, n))
  {
    var more := DueDispatches(pending, inputs[n].at, n);
    forall d | d in more ensures d.key in pending && d == DispatchOf(d.key, pending[d.key], n) && d.key in DueKeys(pending, inputs[n].at) { }
  }

  lemma TickCovered(inputs: seq<Input>, dur: nat, n: nat, pending: Pending, log: set<Dispatch>)
    requires n < |inputs| && inputs[n].Tick? && AllCovered(inputs, n, pending, log)
    ensures AllCovered(inputs, n + 1, pending - DueKeys(pending, inputs[n].at), log + DueDispatches(pending, inputs[n].at, n))
  {
    var after, more := pending - DueKeys(pending, inputs[n].at), DueDispatches(pending, inputs[n].at, n);
    forall i, key | 0 <= i < n + 1 && RecordedFor(inputs[i], key) ensures IsCovered(after, log + more, key, i) {
      assert IsCovered(pending, log, key, i);
      if key in pending && pending[key].first <= i {
        if key !in after {
          assert DispatchOf(key, pending[key], n) in more && Covers(DispatchOf(key, pending[key], n), key, i);
        }
      } else {
        var d :| d in log && Covers(d, key, i);
        assert d in log + more;
      }
    }
  }

  lemma {:induction false} RunIsOk(inputs: seq<Input>, dur: nat, n: nat)
    requires n <= |inputs|
    ensures RunOk(inputs, dur, n, PendingAfter(inputs, dur, n), DispatchedAfter(inputs, dur, n))
  {
    if n > 0 {
      RunIsOk(inputs, dur, n - 1);
      var pending, log := PendingAfter(inputs, dur, n - 1), DispatchedAfter(inputs, dur, n - 1);
      LogStays(inputs, dur, n - 1, log);
      if inputs[n - 1].Tick? {
        TickWindows(inputs, dur, n - 1, pending);
        TickApart(inputs, dur, n - 1, pending, log);
        TickCovered(inputs, dur, n - 1, pending, log);
      } else {
        EventWindows(inputs, dur, n - 1, pending);
        EventApart(inputs, dur, n - 1, pending, log);
        EventCovered(inputs, dur, n - 1, pending, log);
      }
    }
  }

  ghost predicate TimesRise(inputs: seq<Input>) {
    forall i, j :: 0 <= i <= j < |inputs| ==> inputs[i].at <= inputs[j].at
  }

  lemma WindowIsClosed(inputs: seq<Input>, dur: nat, n: nat, i: nat, j: nat, key: Key, pending: Pending)
    requires n <= |inputs| && TimesRise(inputs) && i < j < n && WindowsOk(inputs, dur, n, pending)
    requires inputs[j].Tick? && inputs[j].at >= inputs[i].at + dur
    ensures key in pending ==> pending[key].first > i
  {
  }

  /** Over any sequence of events and ticks: once a tick comes `dur` or more after a recorded event,
      that event is covered by exactly one dispatch of its entry. The dispatch is made at the first
      tick not before the deadline its window's first event fixed, and its severity is the maximum
      over all events of that window. */
  lemma EveryEventDispatchedOnce(inputs: seq<Input>, dur: nat, n: nat, i: nat, j: nat, key: Key)
    requires n <= |inputs| && TimesRise(inputs) && i < j < n && RecordedFor(inputs[i], key)
    requires inputs[j].Tick? && inputs[j].at >= inputs[i].at + dur
    ensures exists d :: IsTheDispatch(inputs, dur, n, d, key, i) && d.tick <= j
  {
    RunIsOk(inputs, dur, n);
    var pending, log := PendingAfter(inputs, dur, n), DispatchedAfter(inputs, dur, n);
    assert IsCovered(pending, log, key, i);
    WindowIsClosed(inputs, dur, n, i, j, key, pending);
    var d :| d in log && Covers(d, key, i);
    assert DispatchOk(inputs, dur, n, d);
    assert inputs[d.first].at <= inputs[i].at;
    assert IsTheDispatch(inputs, dur, n, d, key, i);
  }

  /** The one dispatch that covers event `i` of `key`. */
  ghost predicate IsTheDispatch(inputs: seq<Input>, dur: nat, n: nat, d: Dispatch, key: Key, i: nat)
    requires n <= |inputs|
  {
    && d in DispatchedAfter(inputs, dur, n) && Covers(d, key, i) && DispatchOk(inputs, dur, n, d)
    && forall e :: e in DispatchedAfter(inputs, dur, n) && Covers(e, key, i) ==> e == d
  }

  /** Some event of the entry among inputs `a` to `b - 1` carries one of the flags. */
  ghost predicate SomeFlag(inputs: seq<Input>, key: Key, a: nat, b: nat, flags: set<Flag>)
    requires b <= |inputs|
  {
    exists i, flag :: a <= i < b && RecordedFor(inputs[i], key) && flag in flags && flag in inputs[i].mask
  }

  /** What a window reports, in terms of the flags of its events: a deletion or a move away if there is
      one, else a modification if there is one, else a change of attributes, else an appearance. */
  lemma WorstByFlags(inputs: seq<Input>, key: Key, a: nat, b: nat)
    requires a < b <= |inputs| && RecordedFor(inputs[a], key)
    ensures var gone, modified, touched := SomeFlag(inputs, key, a, b, {DELETE, MOVED_FROM}),
              SomeFlag(inputs, key, a, b, {MODIFY}), SomeFlag(inputs, key, a, b, {ATTRIB});
      WorstOf(inputs, key, a, b) ==
        if gone then Delete else if modified then Modify else if touched then Attr else CreateOrMovedIn
  {
    WorstIsMaximum(inputs, key, a, b);
    var i :| a <= i < b && RecordedFor(inputs[i], key) && SeverityOf(inputs[i].mask) == WorstOf(inputs, key, a, b);
    if SomeFlag(inputs, key, a, b, {DELETE, MOVED_FROM}) {
      var j, flag :| a <= j < b && RecordedFor(inputs[j], key) && flag in {DELETE, MOVED_FROM} && flag in inputs[j].mask;
      assert SeverityOf(inputs[j].mask) == Delete;
    } else if SomeFlag(inputs, key, a, b, {MODIFY}) {
      var j, flag :| a <= j < b && RecordedFor(inputs[j], key) && flag in {MODIFY} && flag in inputs[j].mask;
      assert SeverityOf(inputs[j].mask).Rank() >= 2;
    } else if SomeFlag(inputs, key, a, b, {ATTRIB}) {
      var j, flag :| a <= j < b && RecordedFor(inputs[j], key) && flag in {ATTRIB} && flag in inputs[j].mask;
      assert SeverityOf(inputs[j].mask).Rank() >= 1;
    }
  }

  /** In terms of raw events: every named event of a known watch is covered, under the watched
      directory's inode and that name, by exactly one dispatch, once a tick comes late enough. Other
      events leave no trace. */
  lemma NamedEventsDispatched(inputs: seq<Input>, dur: nat, n: nat, i: nat, j: nat)
    requires n <= |inputs| && TimesRise(inputs) && i < j < n && inputs[i].Raw?
    requires inputs[j].Tick? && inputs[j].at >= inputs[i].at + dur
    ensures inputs[i].name.Some? && inputs[i].wd in inputs[i].watches ==>
              var key := (inputs[i].watches[inputs[i].wd].ino, inputs[i].name.value);
              exists d :: IsTheDispatch(inputs, dur, n, d, key, i) && d.tick <= j && d.severity == WorstOf(inputs, key, d.first, d.tick)
    ensures inputs[i].name.None? || inputs[i].wd !in inputs[i].watches ==>
              PendingAfter(inputs, dur, i + 1) == PendingAfter(inputs, dur, i) && DispatchedAfter(inputs, dur, i + 1) == DispatchedAfter(inputs, dur, i)
  {
    if inputs[i].name.Some? && inputs[i].wd in inputs[i].watches {
      var key := (inputs[i].watches[inputs[i].wd].ino, inputs[i].name.value);
      EveryEventDispatchedOnce(inputs, dur, n, i, j, key);
      var d :| IsTheDispatch(inputs, dur, n, d, key, i) && d.tick <= j;
    }
  }

  // ---------------------------------------------------------------- in place

  class Debouncer {
    var pending: Pending
    var inputs: nat
    const dur: nat

    constructor (dur: nat)
      ensures pending == map[] && inputs == 0 && this.dur == dur
    {
      this.dur := dur;
      pending, inputs := map[], 0;
    }

    method HandleEvent(event: Input)
      requires event.Raw?
      modifies this
      ensures pending == AfterEvent(old(pending), event, dur, old(inputs)) && inputs == old(inputs) + 1
    {
      var i := inputs;
      inputs := inputs + 1;
      if event.name.None? || event.wd !in event.watches { return; }
      var entry := event.watches[event.wd];
      var severity :=
        if DELETE in event.mask || MOVED_FROM in event.mask then Delete
        else if MODIFY in event.mask then Modify
        else if ATTRIB in event.mask then Attr
        else CreateOrMovedIn;
      var key := (entry.ino, event.name.value);
      if key in pending {
        if severity.Rank() > pending[key].severity.Rank() {
          pending := pending[key := pending[key].(severity := severity)];
        }
      } else {
        pending := pending[key := PendingEvent(event.at + dur, severity, entry.relPath, i)];
      }
    }

    /** Drains the windows that are due, in no particular order, each once. */
    method DrainTick(now: nat) returns (out: seq<Dispatch>)
      modifies this
      ensures pending == old(pending) - DueKeys(old(pending), now) && inputs == old(inputs) + 1
      ensures forall d :: d in out <==> d in DueDispatches(old(pending), now, old(inputs))
      ensures forall i, j :: 0 <= i < j < |out| ==> out[i].key != out[j].key
    {
      out := [];
      var tick := inputs;
      inputs := inputs + 1;
      var todo := DueKeys(pending, now);
      while todo != {}
        invariant todo <= DueKeys(old(pending), now)
        invariant pending == old(pending) - (DueKeys(old(pending), now) - todo)
        invariant forall d :: d in out <==> d.key in DueKeys(old(pending), now) - todo && d == DispatchOf(d.key, old(pending)[d.key], tick)
        invariant forall i, j :: 0 <= i < j < |out| ==> out[i].key != out[j].key
        invariant inputs == old(inputs) + 1
      {
        var key :| key in todo;
        assert key in pending;
        out := out + [DispatchOf(key, pending[key], tick)];
        todo := todo - {key};
        pending := pending - {key};
      }
    }
  }
}
