/** The queue of pending cache work, the `known` map that deduplicates it, and the abort flags of
    copies in flight. The functions give the meaning of each critical section as a change of one
    value; the class performs them in place. */
module Pipeline {
  import opened Options
  import opened Paths

  datatype Kind = Populate | Validate | Replace

  /** `ticket` numbers the submissions since start-up; it only serves to tell jobs apart. */
  datatype Job = Job(path: Path, kind: Kind, ts: nat, ticket: nat)

  type Key = (Path, Kind)

  function KeyOf(j: Job): Key { (j.path, j.kind) }

  /** `known` holds None for a key that waits and the number of its control once promoted;
      `aborted` holds the flag of every control ever installed. */
  datatype Pipe = Pipe(queue: seq<Job>, known: map<Key, Option<nat>>, aborted: seq<bool>, nextTicket: nat)

  const EMPTY_PIPE: Pipe := Pipe([], map[], [], 0)

  // ---------------------------------------------------------------- queue functions

  /** How many jobs at the front are older than the cutoff. */
  function ExpiredCount(q: seq<Job>, cutoff: nat): (n: nat)
    ensures n <= |q|
    ensures forall i :: 0 <= i < n ==> q[i].ts < cutoff
    ensures n < |q| ==> q[n].ts >= cutoff
  {
    if q == [] || q[0].ts >= cutoff then 0 else 1 + ExpiredCount(q[1..], cutoff)
  }

  function Unexpired(q: seq<Job>, cutoff: nat): seq<Job> {
    if q == [] then []
    else (if q[0].ts >= cutoff then [q[0]] else []) + Unexpired(q[1..], cutoff)
  }

  ghost predicate SortedByTs(q: seq<Job>) {
    forall i, j :: 0 <= i < j < |q| ==> q[i].ts <= q[j].ts
  }

  /** The position the dispatcher takes its next job from; `|q|` when it takes none. */
  function PopIndex(q: seq<Job>, copyAllowed: bool): (n: nat)
    ensures n <= |q|
    ensures n < |q| && !copyAllowed ==> q[n].kind == Validate
    ensures forall i :: 0 <= i < n ==> !copyAllowed && q[i].kind != Validate
  {
    if q == [] || copyAllowed || q[0].kind == Validate then 0 else 1 + PopIndex(q[1..], copyAllowed)
  }

  function RemoveAt<T>(q: seq<T>, i: nat): seq<T>
    requires i < |q|
  {
    q[..i] + q[i + 1..]
  }

  function KeysOf(q: seq<Job>): set<Key> { set j | j in q :: KeyOf(j) }

  function PopulatePaths(q: seq<Job>): (ps: seq<Path>)
    ensures forall p :: p in ps <==> exists j :: j in q && j.path == p && j.kind == Populate
  {
    if q == [] then []
    else
      assert forall j :: j in q <==> j == q[0] || j in q[1..];
      (if q[0].kind == Populate then [q[0].path] else []) + PopulatePaths(q[1..])
  }

  // ---------------------------------------------------------------- critical sections

  predicate Admits(s: Pipe, path: Path, kind: Kind, cached: bool) {
    !(kind == Populate && cached) && (path, kind) !in s.known
  }

  function Submitted(s: Pipe, path: Path, kind: Kind, cached: bool, now: nat): Pipe {
    if !Admits(s, path, kind, cached) then s
    else s.(queue := s.queue + [Job(path, kind, now, s.nextTicket)],
            known := s.known[(path, kind) := None], nextTicket := s.nextTicket + 1)
  }

  function ControlOf(s: Pipe, key: Key): Option<nat> {
    if key in s.known then s.known[key] else None
  }

  function SetFlag(flags: seq<bool>, control: Option<nat>): (r: seq<bool>)
    ensures |r| == |flags|
    ensures forall i :: 0 <= i < |r| ==> r[i] == (flags[i] || control == Some(i))
  {
    if control.Some? && control.value < |flags| then flags[control.value := true] else flags
  }

  function AbortMarked(s: Pipe, path: Path): Pipe {
    s.(aborted := SetFlag(SetFlag(s.aborted, ControlOf(s, (path, Populate))), ControlOf(s, (path, Replace))))
  }

  function Expired(s: Pipe, cutoff: nat): Pipe {
    var n := ExpiredCount(s.queue, cutoff);
    s.(queue := s.queue[n..], known := s.known - KeysOf(s.queue[..n]))
  }

  function Popped(s: Pipe, i: nat): Pipe
    requires i < |s.queue|
  {
    s.(queue := RemoveAt(s.queue, i))
  }

  function Promoted(s: Pipe, key: Key): Pipe {
    s.(known := s.known[key := Some(|s.aborted|)], aborted := s.aborted + [false])
  }

  function FinishedKey(s: Pipe, key: Key): Pipe {
    s.(known := s.known - {key})
  }

  /** The pipeline a fresh process starts from, given the deferred rows it loads. */
  function Rehydrated(loaded: seq<(Path, nat)>): Pipe {
    if loaded == [] then EMPTY_PIPE
    else
      var row := loaded[|loaded| - 1];
      Submitted(Rehydrated(loaded[..|loaded| - 1]), row.0, Populate, false, row.1)
  }

  ghost predicate DistinctPaths(loaded: seq<(Path, nat)>) {
    forall i, j :: 0 <= i < j < |loaded| ==> loaded[i].0 != loaded[j].0
  }

  lemma {:induction false} RehydratedShape(loaded: seq<(Path, nat)>)
    requires DistinctPaths(loaded)
    ensures var s := Rehydrated(loaded);
      && |s.queue| == |loaded| == s.nextTicket && s.aborted == []
      && (forall i :: 0 <= i < |loaded| ==> s.queue[i] == Job(loaded[i].0, Populate, loaded[i].1, i))
      && (forall k :: k in s.known <==> exists i :: 0 <= i < |loaded| && k == (loaded[i].0, Populate))
      && (forall k :: k in s.known ==> s.known[k] == None)
  {
    if loaded != [] {
      var front := loaded[..|loaded| - 1];
      RehydratedShape(front);
      assert forall i :: 0 <= i < |front| ==> front[i] == loaded[i];
    }
  }

  // ---------------------------------------------------------------- expiry refines a filter

  lemma {:induction false} SortedExpiryIsFilter(q: seq<Job>, cutoff: nat)
    requires SortedByTs(q)
    ensures q[ExpiredCount(q, cutoff)..] == Unexpired(q, cutoff)
  {
    if q != [] {
      if q[0].ts >= cutoff {
        AllUnexpired(q, cutoff);
      } else {
        SortedExpiryIsFilter(q[1..], cutoff);
      }
    }
  }

  lemma {:induction false} AllUnexpired(q: seq<Job>, cutoff: nat)
    requires forall j :: j in q ==> j.ts >= cutoff
    ensures Unexpired(q, cutoff) == q
  {
    if q != [] { AllUnexpired(q[1..], cutoff); }
  }

  lemma {:induction false} UnexpiredMembers(q: seq<Job>, cutoff: nat)
    ensures forall j :: j in Unexpired(q, cutoff) <==> j in q && j.ts >= cutoff
  {
    if q != [] {
      UnexpiredMembers(q[1..], cutoff);
      assert forall j :: j in q <==> j == q[0] || j in q[1..];
    }
  }

  ghost predicate ExpiryIsExact(q: seq<Job>, cutoff: nat) {
    q[ExpiredCount(q, cutoff)..] == Unexpired(q, cutoff)
  }

  lemma MisorderBreaksExpiry(q: seq<Job>, i: nat, j: nat)
    requires i < j < |q| && q[i].ts > q[j].ts
    ensures !ExpiryIsExact(q, q[i].ts)
  {
    var cutoff := q[i].ts;
    var n := ExpiredCount(q, cutoff);
    UnexpiredMembers(q, cutoff);
    assert n <= i;
    assert q[n..][j - n] == q[j];
    assert q[j] in q[n..] && q[j] !in Unexpired(q, cutoff);
  }

  /** Removing from the front while the front is old drops exactly the old jobs, whatever the
      cutoff, precisely when the queue is in timestamp order. */
  lemma ExpiryIsFilterIff(q: seq<Job>)
    ensures (forall cutoff: nat :: ExpiryIsExact(q, cutoff)) <==> SortedByTs(q)
  {
    if SortedByTs(q) {
      forall cutoff: nat ensures ExpiryIsExact(q, cutoff) { SortedExpiryIsFilter(q, cutoff); }
    } else {
      var i, j :| 0 <= i < j < |q| && q[i].ts > q[j].ts;
      MisorderBreaksExpiry(q, i, j);
    }
  }

  /** A submitted replacement or validation is known afterwards whether or not the path is cached; so is
      a populate of a path that is not, and one of a path that is changes nothing. */
  lemma SubmittedIsKnown(s: Pipe, path: Path, kind: Kind, cached: bool, now: nat)
    ensures var r := Submitted(s, path, kind, cached, now);
      && ((path, kind) in r.known <==> (path, kind) in s.known || kind == Replace || kind == Validate || !cached)
      && r.queue == s.queue + (if (path, kind) in r.known && (path, kind) !in s.known then [Job(path, kind, now, s.nextTicket)] else [])
      && (forall key :: key != (path, kind) ==> (key in r.known <==> key in s.known) && (key in s.known ==> r.known[key] == s.known[key]))
      && r.aborted == s.aborted
  {
  }

  /** A sweep at `now` keeps of a queue in timestamp order exactly the jobs submitted at most
      `ttlMinutes` minutes, of 60 seconds each, ago. */
  lemma ExpiryByAge(q: seq<Job>, ttlMinutes: nat, now: nat)
    requires SortedByTs(q)
    ensures forall j :: j in q[ExpiredCount(q, Cutoff(now, ttlMinutes))..] <==> j in q && j.ts + ttlMinutes * 60 >= now
  {
    SortedExpiryIsFilter(q, Cutoff(now, ttlMinutes));
    UnexpiredMembers(q, Cutoff(now, ttlMinutes));
  }

  lemma RemoveAtMultiset<T>(q: seq<T>, i: nat)
    requires i < |q|
    ensures multiset(q) == multiset(RemoveAt(q, i)) + multiset{q[i]}
  {
    assert q == q[..i] + [q[i]] + q[i + 1..];
  }

  // ---------------------------------------------------------------- in place

  /** Shared by a copy worker and the backing watcher. */
  class CopyControl {
    ghost const id: nat
    var abort: bool

    constructor (ghost id: nat)
      ensures !abort && this.id == id
    {
      this.id := id;
      abort := false;
    }
  }

  class PipelineState {
    var queue: seq<Job>
    var known: map<Key, CopyControl?>
    var nextTicket: nat
    ghost var controls: seq<CopyControl>

    ghost predicate Valid()
      reads this
    {
      && (forall i :: 0 <= i < |controls| ==> controls[i].id == i)
      && (forall k :: k in known && known[k] != null ==>
            known[k].id < |controls| && controls[known[k].id] == known[k])
    }

    ghost function Abs(): Pipe
      reads this, controls
    {
      Pipe(queue, Ids(known), Flags(controls), nextTicket)
    }

    static ghost function Ids(m: map<Key, CopyControl?>): map<Key, Option<nat>> {
      map k | k in m :: if m[k] == null then None else Some(m[k].id)
    }

    static lemma IdsUpdate(m: map<Key, CopyControl?>, key: Key, c: CopyControl?, ks: set<Key>)
      ensures Ids(m[key := c]) == Ids(m)[key := if c == null then None else Some(c.id)]
      ensures Ids(m - ks) == Ids(m) - ks
    {
    }

    static ghost function Flags(cs: seq<CopyControl>): (r: seq<bool>)
      reads cs
      ensures |r| == |cs| && forall i :: 0 <= i < |cs| ==> r[i] == cs[i].abort
    {
      if cs == [] then [] else Flags(cs[..|cs| - 1]) + [cs[|cs| - 1].abort]
    }

    constructor ()
      ensures Valid() && Abs() == EMPTY_PIPE
    {
      queue, known, nextTicket, controls := [], map[], 0, [];
    }

    method Rehydrate(loaded: seq<(Path, nat)>)
      requires Valid() && Abs() == EMPTY_PIPE
      modifies this
      ensures Valid() && Abs() == Rehydrated(loaded)
    {
      for i := 0 to |loaded|
        invariant Valid() && controls == old(controls) && Abs() == Rehydrated(loaded[..i])
      {
        var key := (loaded[i].0, Populate);
        if key !in known {
          IdsUpdate(known, key, null, {});
          known := known[key := null];
          queue := queue + [Job(loaded[i].0, Populate, loaded[i].1, nextTicket)];
          nextTicket := nextTicket + 1;
        }
        assert loaded[..i + 1][..i] == loaded[..i];
      }
      assert loaded[..|loaded|] == loaded;
    }

    method Submit(path: Path, kind: Kind, cached: bool, now: nat) returns (admitted: bool)
      requires Valid()
      modifies this
      ensures Valid() && controls == old(controls)
      ensures Abs() == Submitted(old(Abs()), path, kind, cached, now)
      ensures admitted <==> (path, kind) !in old(known) && !(kind == Populate && cached)
      ensures admitted ==> queue == old(queue) + [Job(path, kind, now, old(nextTicket))] && known == old(known)[(path, kind) := null]
      ensures !admitted ==> queue == old(queue) && known == old(known)
      ensures kind != Populate || !cached ==> (path, kind) in known
    {
      if kind == Populate && cached { return false; }
      var key := (path, kind);
      if key in known { return false; }
      IdsUpdate(known, key, null, {});
      known := known[key := null];
      queue := queue + [Job(path, kind, now, nextTicket)];
      nextTicket := nextTicket + 1;
      return true;
    }

    method AbortKey(key: Key)
      requires Valid()
      modifies if key in known && known[key] != null then {known[key]} else {}
      ensures Abs() == old(Abs()).(aborted := SetFlag(old(Abs()).aborted, ControlOf(old(Abs()), key)))
    {
      if key in known && known[key] != null { known[key].abort := true; }
    }

    /** Only the two controls that the path's copies hold are written. */
    method MarkAbort(path: Path)
      requires Valid()
      modifies set kind | kind in {Populate, Replace} && (path, kind) in known && known[(path, kind)] != null :: known[(path, kind)]
      ensures Valid() && Abs() == AbortMarked(old(Abs()), path)
    {
      AbortKey((path, Populate));
      AbortKey((path, Replace));
    }

    method ExpireStale(ttlMinutes: nat, now: nat) returns (removed: seq<Path>)
      requires Valid()
      modifies this
      ensures Valid() && controls == old(controls)
      ensures ttlMinutes == 0 ==> removed == [] && Abs() == old(Abs())
      ensures ttlMinutes != 0 ==>
                var cutoff := Cutoff(now, ttlMinutes);
                && Abs() == Expired(old(Abs()), cutoff)
                && removed == PopulatePaths(old(queue)[..ExpiredCount(old(queue), cutoff)])
    {
      removed := [];
      if ttlMinutes == 0 { return; }
      var cutoff := Cutoff(now, ttlMinutes);
      ghost var n := ExpiredCount(queue, cutoff);
      ghost var k := 0;
      while queue != [] && queue[0].ts < cutoff
        invariant k <= n && queue == old(queue)[k..]
        invariant known == old(known) - KeysOf(old(queue)[..k])
        invariant removed == PopulatePaths(old(queue)[..k])
        invariant Valid() && controls == old(controls) && nextTicket == old(nextTicket)
        decreases |queue|
      {
        var job := queue[0];
        PopulatePathsAppend(old(queue)[..k], job);
        assert old(queue)[..k + 1] == old(queue)[..k] + [job];
        KeysOfAppend(old(queue)[..k], job);
        queue := queue[1..];
        known := known - {KeyOf(job)};
        if job.kind == Populate { removed := removed + [job.path]; }
        k := k + 1;
      }
      assert k == n;
      IdsUpdate(old(known), ([], Populate), null, KeysOf(old(queue)[..n]));
    }

    method PopNextJob(copyAllowed: bool) returns (job: Option<Job>)
      requires Valid()
      modifies this`queue
      ensures Valid()
      ensures var i := PopIndex(old(queue), copyAllowed);
        if i < |old(queue)| then job == Some(old(queue)[i]) && Abs() == Popped(old(Abs()), i)
        else job == None && Abs() == old(Abs())
    {
      if copyAllowed {
        if queue == [] { return None; }
        job := Some(queue[0]);
        queue := queue[1..];
        return;
      }
      var idx := 0;
      while idx < |queue| && queue[idx].kind != Validate
        invariant idx <= |queue|
        invariant forall i :: 0 <= i < idx ==> queue[i].kind != Validate
      {
        idx := idx + 1;
      }
      if idx == |queue| { return None; }
      job := Some(queue[idx]);
      queue := queue[..idx] + queue[idx + 1..];
    }

    method Promote(path: Path, kind: Kind) returns (control: CopyControl)
      requires Valid()
      modifies this`known, this`controls
      ensures Valid() && fresh(control) && !control.abort
      ensures (path, kind) in known && known[(path, kind)] == control
      ensures Abs() == Promoted(old(Abs()), (path, kind))
    {
      control := new CopyControl(|controls|);
      IdsUpdate(known, (path, kind), control, {});
      controls := controls + [control];
      known := known[(path, kind) := control];
    }

    method FinishKnown(path: Path, kind: Kind)
      requires Valid()
      modifies this`known
      ensures Valid() && Abs() == FinishedKey(old(Abs()), (path, kind))
      ensures known == old(known) - {(path, kind)}
    {
      IdsUpdate(known, (path, kind), null, {(path, kind)});
      known := known - {(path, kind)};
    }
  }

  function Cutoff(now: nat, ttlMinutes: nat): nat {
    if now >= ttlMinutes * 60 then now - ttlMinutes * 60 else 0
  }

  lemma KeysOfAppend(q: seq<Job>, j: Job)
    ensures KeysOf(q + [j]) == KeysOf(q) + {KeyOf(j)}
  {
  }

  lemma {:induction false} PopulatePathsAppend(q: seq<Job>, j: Job)
    ensures PopulatePaths(q + [j]) == PopulatePaths(q) + if j.kind == Populate then [j.path] else []
  {
    if q == [] {
      assert q + [j] == [j];
    } else {
      PopulatePathsAppend(q[1..], j);
      assert (q + [j])[1..] == q[1..] + [j];
    }
  }
}
