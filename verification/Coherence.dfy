/** The copy pipeline together with what it acts on: a backing store that others write, the cache
    directory, the rows, and everyone who touches them, interleaved at the grain of single calls. */
module Coherence {
  import opened Options
  import opened Paths
  import opened Pipeline
  import opened Protocol
  import opened CacheRows
  import opened Backing

  /** A row and, where it was written by a copy and at most refreshed since, the version it is
      derived from. Rows recovered from disk or backfilled have no origin. */
  datatype Tracked = Tracked(row: Row, origin: Option<nat>)

  /** How far a copy has come. `ver` is the version its path showed when the source was opened and
      stat'ed as `first`; `data` is what has been read and written so far. */
  datatype Copy =
    | Opened(ver: nat, first: Stat)
    | Reading(ver: nat, first: Stat, data: Bytes)
    | Synced(ver: nat, first: Stat, data: Bytes)
    | Checked(ver: nat, first: Stat, data: Bytes, meta: Stat, found: bool)
    | Installed(ver: nat, first: Stat, data: Bytes, meta: Stat, found: bool)
    | Done

  /** A metadata refresh: it has its stat, and later has matched it against the row. */
  datatype Refresher =
    | Statted(path: Path, ver: nat, live: Stat)
    | Matched(path: Path, ver: nat, live: Stat, trusted: bool)

  /** `hist` lists the versions each path has shown, oldest first; a path in `present` shows the
      last of them. */
  datatype World = World(
    hist: map<Path, seq<Version>>,
    present: map<Path, Attrs>,
    disk: map<Path, Bytes>,
    rows: map<Path, Tracked>,
    copies: map<nat, Copy>,
    refreshers: map<nat, Refresher>)

  datatype Sys = Sys(p: State, w: World)

  datatype Event =
    | Internal(step: Step)
    | Change(path: Path, version: Version, attrs: Attrs)
    | Remove(path: Path)
    | ChangeAttrs(path: Path, attrs: Attrs)
    | OpenSource(id: nat)
    | CreatePartial(id: nat)
    | Read(id: nat, chunk: Bytes)
    | EndOfFile(id: nat)
    | Check(id: nat)
    | Install(id: nat)
    | Mark(id: nat)
    | Fail(id: nat, cleaned: bool)
    | RefreshStat(id: nat, path: Path)
    | RefreshMatch(id: nat)
    | RefreshWrite(id: nat)
    | RefreshStop(id: nat)
    | Backfill(path: Path, ver: nat, attrs: Attrs)
    | Adopt(path: Path)
    | Hit(path: Path)
    | DeleteFile(path: Path)
    | DeleteRow(path: Path)

  function Hist(w: World, p: Path): seq<Version> {
    if p in w.hist then w.hist[p] else []
  }

  predicate Shows(w: World, p: Path, k: nat) {
    p in w.present && k + 1 == |Hist(w, p)|
  }

  function Live(w: World, p: Path): Option<Stat> {
    if p in w.present && Hist(w, p) != [] then Some(StatOf(Hist(w, p)[|Hist(w, p)| - 1], w.present[p])) else None
  }

  predicate CopyingWorker(s: Sys, id: nat) {
    id in s.p.workers && s.p.workers[id].phase.Copying?
  }

  function PathOf(s: Sys, id: nat): Path
    requires id in s.p.workers
  {
    s.p.workers[id].job.path
  }

  predicate Aborted(s: Sys, id: nat)
    requires CopyingWorker(s, id)
  {
    var c := s.p.workers[id].phase.control;
    c < |s.p.pipe.aborted| && s.p.pipe.aborted[c]
  }

  /** What the next read of the open source may return; nothing at the end of the file. While the
      path still shows the version opened, the bytes come from it; afterwards nothing is known
      about the open file. */
  predicate MayRead(w: World, p: Path, ver: nat, data: Bytes, chunk: Bytes) {
    |chunk| <= CHUNK && (Shows(w, p, ver) ==> IsNextOf(Hist(w, p)[ver].bytes, data, chunk))
  }

  predicate IsCopyEvent(e: Event) {
    e.OpenSource? || e.CreatePartial? || e.Read? || e.EndOfFile? || e.Check? || e.Install? || e.Mark? || e.Fail?
  }

  /** Copies are of files: only such paths are ever submitted. */
  ghost predicate CopyEnabled(s: Sys, e: Event)
    requires IsCopyEvent(e)
  {
    && CopyingWorker(s, e.id) && IsFilePath(PathOf(s, e.id))
    && var p := PathOf(s, e.id);
      match e
      case OpenSource(id) => id !in s.w.copies && Live(s.w, p).Some?
      case CreatePartial(id) => id in s.w.copies && s.w.copies[id].Opened?
      case Read(id, chunk) =>
        id in s.w.copies && s.w.copies[id].Reading? && chunk != [] && MayRead(s.w, p, s.w.copies[id].ver, s.w.copies[id].data, chunk)
      case EndOfFile(id) =>
        id in s.w.copies && s.w.copies[id].Reading? && MayRead(s.w, p, s.w.copies[id].ver, s.w.copies[id].data, [])
      case Check(id) => id in s.w.copies && s.w.copies[id].Synced? && PassesCheck(Aborted(s, id), s.w.copies[id].first, Live(s.w, p))
      case Install(id) => id in s.w.copies && s.w.copies[id].Checked? && PartialOf(p) in s.w.disk
      case Mark(id) => id in s.w.copies && s.w.copies[id].Installed?
      case Fail(id, _) => id in s.w.copies ==> !s.w.copies[id].Installed? && !s.w.copies[id].Done?
  }

  /** Start-up adopts the files its walk collects; only such rows ever need a backfill. */
  ghost predicate EventEnabled(s: Sys, e: Event) {
    match e
    case Internal(step) => Enabled(s.p, step) && (step.Finish? && step.w in s.w.copies ==> s.w.copies[step.w].Done?)
    case Change(path, v, _) => v.mtime != ZERO_STAMP && forall i :: 0 <= i < |Hist(s.w, path)| ==> Hist(s.w, path)[i].mtime != v.mtime
    case Remove(path) => path in s.w.present
    case ChangeAttrs(path, _) => path in s.w.present
    case RefreshStat(id, path) => id !in s.w.refreshers && Live(s.w, path).Some?
    case RefreshMatch(id) =>
      && id in s.w.refreshers && s.w.refreshers[id].Statted?
      && var r := s.w.refreshers[id];
        r.path in s.w.rows && s.w.rows[r.path].row.mtime != ZERO_STAMP && ContentMatches(s.w.rows[r.path].row, r.live)
    case RefreshWrite(id) => id in s.w.refreshers && s.w.refreshers[id].Matched?
    case RefreshStop(_) => true
    case Backfill(path, ver, _) => ver < |Hist(s.w, path)| && !IsNonMedia(path)
    case Adopt(path) => path in s.w.disk && path !in s.w.rows && !IsNonMedia(path)
    case Hit(path) => path in s.w.rows
    case DeleteFile(_) => true
    case DeleteRow(_) => true
    case _ => CopyEnabled(s, e)
  }

  /** The cache directory after one call of a copy of `p`. */
  function CopyDisk(disk: map<Path, Bytes>, p: Path, c: Option<Copy>, e: Event): map<Path, Bytes> {
    var partial := PartialOf(p);
    match e
    case CreatePartial(_) => disk[partial := []]
    case Read(_, chunk) => if partial in disk then disk[partial := disk[partial] + chunk] else disk
    case Install(_) => if partial in disk then (disk - {partial})[p := disk[partial]] else disk
    case Fail(_, cleaned) => if cleaned then disk - {partial} else disk
    case _ => disk
  }

  /** The copy itself after that call. */
  function CopyNext(w: World, p: Path, c: Option<Copy>, e: Event): Copy {
    match (e, c)
    case (OpenSource(_), None) => if Live(w, p).Some? then Opened(|Hist(w, p)| - 1, Live(w, p).value) else Done
    case (CreatePartial(_), Some(Opened(ver, first))) => Reading(ver, first, [])
    case (Read(_, chunk), Some(Reading(ver, first, data))) => Reading(ver, first, data + chunk)
    case (EndOfFile(_), Some(Reading(ver, first, data))) => Synced(ver, first, data)
    case (Check(_), Some(Synced(ver, first, data))) =>
      Checked(ver, first, data, if Live(w, p).Some? then Live(w, p).value else first, Live(w, p).Some?)
    case (Install(_), Some(Checked(ver, first, data, meta, found))) => Installed(ver, first, data, meta, found)
    case _ => Done
  }

  function CopyRows(w: World, p: Path, c: Option<Copy>, e: Event, now: nat): map<Path, Tracked> {
    if e.Mark? && c.Some? && c.value.Installed? then w.rows[p := Tracked(CachedRow(c.value.meta, now), Some(c.value.ver))]
    else w.rows
  }

  function CopyApplied(w: World, p: Path, id: nat, e: Event, now: nat): World {
    var c := if id in w.copies then Some(w.copies[id]) else None;
    w.(disk := CopyDisk(w.disk, p, c, e), copies := w.copies[id := CopyNext(w, p, c, e)], rows := CopyRows(w, p, c, e, now))
  }

  function RowWritten(w: World, r: Refresher): map<Path, Tracked> {
    if r.Matched? && r.path in w.rows then
      var t := w.rows[r.path];
      w.rows[r.path := Tracked(SourceUpdated(t.row, r.live), if r.trusted && t.origin.Some? then Some(r.ver) else None)]
    else w.rows
  }

  ghost function EventApplied(s: Sys, e: Event): Sys
    requires EventEnabled(s, e)
  {
    var w := s.w;
    match e
    case Internal(step) =>
      Sys(Apply(s.p, step),
          if step.Restart? then w.(copies := map[], refreshers := map[])
          else if step.Finish? then w.(copies := w.copies - {step.w}) else w)
    case Change(path, v, attrs) => Sys(s.p, w.(hist := w.hist[path := Hist(w, path) + [v]], present := w.present[path := attrs]))
    case Remove(path) => Sys(s.p, w.(present := w.present - {path}))
    case ChangeAttrs(path, attrs) => Sys(s.p, w.(present := w.present[path := attrs]))
    case RefreshStat(id, path) => Sys(s.p, w.(refreshers := w.refreshers[id := Statted(path, |Hist(w, path)| - 1, Live(w, path).value)]))
    case RefreshMatch(id) =>
      var r := w.refreshers[id];
      Sys(s.p, w.(refreshers := w.refreshers[id := Matched(r.path, r.ver, r.live, w.rows[r.path].origin.Some?)]))
    case RefreshWrite(id) => Sys(s.p, w.(rows := RowWritten(w, w.refreshers[id]), refreshers := w.refreshers - {id}))
    case RefreshStop(id) => Sys(s.p, w.(refreshers := w.refreshers - {id}))
    case Backfill(path, ver, attrs) => Sys(s.p, w.(rows := w.rows[path := Tracked(CachedRow(StatOf(Hist(w, path)[ver], attrs), s.p.now), None)]))
    case Adopt(path) => Sys(s.p, w.(rows := w.rows[path := Tracked(RecoveredRow(|w.disk[path]|, s.p.now), None)]))
    case Hit(path) => Sys(s.p, w.(rows := w.rows[path := w.rows[path].(row := HitRow(w.rows[path].row, s.p.now))]))
    case DeleteFile(path) => Sys(s.p, w.(disk := w.disk - {path}))
    case DeleteRow(path) => Sys(s.p, w.(rows := w.rows - {path}))
    case _ => Sys(s.p, CopyApplied(w, PathOf(s, e.id), e.id, e, s.p.now))
  }

  // ---------------------------------------------------------------- the invariant

  /** If `p` shows version `k`, the cache file, if there is one, is that version. Names that serve
      as some copy's working file are exempt. */
  ghost predicate Claim(w: World, p: Path, k: nat) {
    && k < |Hist(w, p)|
    && (!HasPartialExtension(p) && p in w.disk && Shows(w, p, k) ==> w.disk[p] == Hist(w, p)[k].bytes)
  }

  ghost predicate HistoryOk(w: World) {
    && (forall p, i, j :: 0 <= i < j < |Hist(w, p)| ==> Hist(w, p)[i].mtime != Hist(w, p)[j].mtime)
    && (forall p :: p in w.present ==> Hist(w, p) != [])
  }

  ghost predicate RowOk(w: World, p: Path) {
    p in w.rows && w.rows[p].origin.Some? ==>
      Claim(w, p, w.rows[p].origin.value) && w.rows[p].row.mtime == Hist(w, p)[w.rows[p].origin.value].mtime
  }

  ghost predicate RefresherOk(w: World, r: Refresher) {
    && r.ver < |Hist(w, r.path)|
    && r.live.mtime == Hist(w, r.path)[r.ver].mtime
    && (r.Matched? && r.trusted ==> Claim(w, r.path, r.ver))
  }

  /** No row or pending refresh of `p` is derived from a version newer than `ver`. */
  ghost predicate NoneNewer(w: World, p: Path, ver: nat) {
    && (p in w.rows && w.rows[p].origin.Some? ==> w.rows[p].origin.value <= ver)
    && (forall id :: id in w.refreshers && w.refreshers[id].Matched? && w.refreshers[id].path == p && w.refreshers[id].trusted
          ==> w.refreshers[id].ver <= ver)
  }

  ghost predicate DataOk(w: World, p: Path, c: Copy)
    requires !c.Done? && c.ver < |Hist(w, p)|
  {
    var bytes := Hist(w, p)[c.ver].bytes;
    match c
    case Opened(_, _) => true
    case Reading(ver, _, data) => Shows(w, p, ver) ==> data <= bytes
    case Synced(ver, _, data) => Shows(w, p, ver) ==> data == bytes
    case Checked(ver, first, data, meta, found) =>
      (Shows(w, p, ver) ==> data == bytes) && (found ==> data == bytes) && meta.mtime == first.mtime && meta.size == first.size
    case Installed(ver, first, data, meta, found) =>
      (Shows(w, p, ver) ==> data == bytes) && (found ==> data == bytes) && meta.mtime == first.mtime && meta.size == first.size
  }

  /** Where the bytes read so far are on disk. */
  ghost predicate PlaceOk(w: World, p: Path, c: Copy) {
    match c
    case Reading(_, _, data) => PartialOf(p) in w.disk ==> w.disk[PartialOf(p)] == data
    case Synced(_, _, data) => PartialOf(p) in w.disk ==> w.disk[PartialOf(p)] == data
    case Checked(_, _, data, _, _) => PartialOf(p) in w.disk ==> w.disk[PartialOf(p)] == data
    case Installed(_, _, data, _, _) => !HasPartialExtension(p) && p in w.disk ==> w.disk[p] == data
    case _ => true
  }

  ghost predicate CopyOk(w: World, p: Path, c: Copy) {
    !c.Done? ==>
      && c.ver < |Hist(w, p)|
      && c.first.mtime == Hist(w, p)[c.ver].mtime && c.first.size == |Hist(w, p)[c.ver].bytes|
      && DataOk(w, p, c)
      && PlaceOk(w, p, c)
      && NoneNewer(w, p, c.ver)
  }

  ghost predicate CopiesOwned(s: Sys) {
    forall id :: id in s.w.copies ==> CopyingWorker(s, id)
  }

  ghost predicate CopiesOk(s: Sys) {
    forall id :: id in s.w.copies && id in s.p.workers ==> CopyOk(s.w, PathOf(s, id), s.w.copies[id])
  }

  ghost predicate RowsOk(w: World) {
    && (forall p :: RowOk(w, p))
    && (forall id :: id in w.refreshers ==> RefresherOk(w, w.refreshers[id]))
  }

  ghost predicate Coherent(s: Sys) {
    && Exclusive(s.p) && s.p.permits <= 1
    && CopiesOwned(s)
    && HistoryOk(s.w) && RowsOk(s.w) && CopiesOk(s)
  }

  lemma AtMostOne(xs: set<nat>, v: nat, w: nat)
    requires |xs| <= 1 && v in xs && w in xs
    ensures v == w
  {
    SubsetSize({v, w}, xs);
    assert v != w ==> |{v, w}| == 2;
  }

  lemma OneCopier(s: Sys, v: nat, id: nat)
    requires WellPhased(s.p) && s.p.permits <= 1 && CopyingWorker(s, v) && CopyingWorker(s, id)
    ensures v == id
  {
    assert v in CopyWorkers(s.p) && id in CopyWorkers(s.p);
    AtMostOne(CopyWorkers(s.p), v, id);
  }

  // Steps that change neither the backing store nor any file that may be claimed.

  ghost predicate SameBacking(w: World, w': World) {
    w'.hist == w.hist && w'.present == w.present
  }

  ghost predicate FilesKept(w: World, w': World) {
    forall p :: !HasPartialExtension(p) && p in w'.disk ==> p in w.disk && w'.disk[p] == w.disk[p]
  }

  lemma ClaimKept(w: World, w': World, p: Path, k: nat)
    requires SameBacking(w, w') && Claim(w, p, k)
    requires !HasPartialExtension(p) && p in w'.disk ==> p in w.disk && w'.disk[p] == w.disk[p]
    ensures Claim(w', p, k)
  {
  }

  lemma RowsKept(w: World, w': World)
    requires RowsOk(w) && SameBacking(w, w') && FilesKept(w, w')
    requires forall p :: p in w'.rows && w'.rows[p].origin.Some? ==>
               p in w.rows && w.rows[p].origin == w'.rows[p].origin && w.rows[p].row.mtime == w'.rows[p].row.mtime
    requires forall id :: id in w'.refreshers ==> id in w.refreshers && w.refreshers[id] == w'.refreshers[id]
    ensures RowsOk(w')
  {
    forall p ensures RowOk(w', p) {
      assert RowOk(w, p);
      if p in w'.rows && w'.rows[p].origin.Some? { ClaimKept(w, w', p, w'.rows[p].origin.value); }
    }
    forall id | id in w'.refreshers ensures RefresherOk(w', w'.refreshers[id]) {
      var r := w.refreshers[id];
      assert RefresherOk(w, r);
      if r.Matched? && r.trusted { ClaimKept(w, w', r.path, r.ver); }
    }
  }

  /** A copy in progress survives a step that keeps the backing store, its files, and adds no
      newer row or refresh. */
  lemma CopyKept(w: World, w': World, p: Path, c: Copy)
    requires CopyOk(w, p, c) && SameBacking(w, w')
    requires forall q :: q in w'.disk ==> q in w.disk && w'.disk[q] == w.disk[q]
    requires !c.Done? ==> NoneNewer(w', p, c.ver)
    ensures CopyOk(w', p, c)
  {
  }

  lemma NoneNewerKept(w: World, w': World, p: Path, ver: nat)
    requires NoneNewer(w, p, ver)
    requires p in w'.rows && w'.rows[p].origin.Some? ==> p in w.rows && w.rows[p].origin == w'.rows[p].origin
    requires forall id :: id in w'.refreshers ==> id in w.refreshers && w.refreshers[id] == w'.refreshers[id]
    ensures NoneNewer(w', p, ver)
  {
  }

  // The calls a copy makes.

  lemma CopyStepFiles(w: World, p: Path, c: Option<Copy>, e: Event, q: Path)
    requires IsFilePath(p) && !HasPartialExtension(q) && (e.Install? ==> q != p)
    ensures q in CopyDisk(w.disk, p, c, e) <==> q in w.disk
    ensures q in w.disk ==> CopyDisk(w.disk, p, c, e)[q] == w.disk[q]
  {
    PartialHasExtension(p);
  }

  /** Installing is right for every row and refresh of the path, because none is newer. */
  lemma InstallClaim(s: Sys, id: nat, k: nat)
    requires CopyEnabled(s, Install(id)) && CopyOk(s.w, PathOf(s, id), s.w.copies[id])
    requires Claim(s.w, PathOf(s, id), k) && k <= s.w.copies[id].ver
    ensures Claim(CopyApplied(s.w, PathOf(s, id), id, Install(id), s.p.now), PathOf(s, id), k)
  {
  }

  lemma InstallRows(s: Sys, id: nat)
    requires CopyEnabled(s, Install(id)) && RowsOk(s.w) && CopyOk(s.w, PathOf(s, id), s.w.copies[id])
    ensures RowsOk(CopyApplied(s.w, PathOf(s, id), id, Install(id), s.p.now))
  {
    var p, c := PathOf(s, id), s.w.copies[id];
    var w' := CopyApplied(s.w, p, id, Install(id), s.p.now);
    forall q ensures RowOk(w', q) {
      assert RowOk(s.w, q);
      if q in w'.rows && w'.rows[q].origin.Some? {
        var k := w'.rows[q].origin.value;
        if q == p { InstallClaim(s, id, k); }
        else {
          if !HasPartialExtension(q) { CopyStepFiles(s.w, p, Some(c), Install(id), q); }
          ClaimKept(s.w, w', q, k);
        }
      }
    }
    forall i | i in w'.refreshers ensures RefresherOk(w', w'.refreshers[i]) {
      var r := s.w.refreshers[i];
      assert RefresherOk(s.w, r);
      if r.Matched? && r.trusted {
        if r.path == p { InstallClaim(s, id, r.ver); }
        else {
          if !HasPartialExtension(r.path) { CopyStepFiles(s.w, p, Some(c), Install(id), r.path); }
          ClaimKept(s.w, w', r.path, r.ver);
        }
      }
    }
  }

  lemma MarkRows(s: Sys, id: nat)
    requires CopyEnabled(s, Mark(id)) && RowsOk(s.w) && CopyOk(s.w, PathOf(s, id), s.w.copies[id])
    ensures RowsOk(CopyApplied(s.w, PathOf(s, id), id, Mark(id), s.p.now))
  {
    var p, c := PathOf(s, id), s.w.copies[id];
    var w' := CopyApplied(s.w, p, id, Mark(id), s.p.now);
    assert Claim(s.w, p, c.ver);
    forall q ensures RowOk(w', q) {
      assert RowOk(s.w, q);
      if q == p { ClaimKept(s.w, w', p, c.ver); }
      else if q in w'.rows && w'.rows[q].origin.Some? { ClaimKept(s.w, w', q, w'.rows[q].origin.value); }
    }
    forall i | i in w'.refreshers ensures RefresherOk(w', w'.refreshers[i]) {
      var r := s.w.refreshers[i];
      assert RefresherOk(s.w, r);
      if r.Matched? && r.trusted { ClaimKept(s.w, w', r.path, r.ver); }
    }
  }

  lemma OtherCopyRows(s: Sys, e: Event)
    requires IsCopyEvent(e) && !e.Install? && !e.Mark? && CopyEnabled(s, e) && RowsOk(s.w)
    ensures RowsOk(CopyApplied(s.w, PathOf(s, e.id), e.id, e, s.p.now))
  {
    var p := PathOf(s, e.id);
    var w' := CopyApplied(s.w, p, e.id, e, s.p.now);
    var c := if e.id in s.w.copies then Some(s.w.copies[e.id]) else None;
    forall q | !HasPartialExtension(q) && q in w'.disk ensures q in s.w.disk && w'.disk[q] == s.w.disk[q] {
      CopyStepFiles(s.w, p, c, e, q);
    }
    RowsKept(s.w, w');
  }

  // Whatever call it makes, the copy itself stays in order.

  lemma ReadAdvances(s: Sys, id: nat, chunk: Bytes)
    requires CopyEnabled(s, Read(id, chunk)) && CopyOk(s.w, PathOf(s, id), s.w.copies[id])
    ensures var w' := CopyApplied(s.w, PathOf(s, id), id, Read(id, chunk), s.p.now);
      CopyOk(w', PathOf(s, id), w'.copies[id])
  {
  }

  lemma CheckAdvances(s: Sys, id: nat)
    requires CopyEnabled(s, Check(id)) && HistoryOk(s.w) && CopyOk(s.w, PathOf(s, id), s.w.copies[id])
    ensures var w' := CopyApplied(s.w, PathOf(s, id), id, Check(id), s.p.now);
      CopyOk(w', PathOf(s, id), w'.copies[id])
  {
  }

  lemma InstallAdvances(s: Sys, id: nat)
    requires CopyEnabled(s, Install(id)) && CopyOk(s.w, PathOf(s, id), s.w.copies[id])
    ensures var w' := CopyApplied(s.w, PathOf(s, id), id, Install(id), s.p.now);
      CopyOk(w', PathOf(s, id), w'.copies[id])
  {
  }

  lemma OpenAdvances(s: Sys, id: nat)
    requires CopyEnabled(s, OpenSource(id)) && RowsOk(s.w)
    ensures var w' := CopyApplied(s.w, PathOf(s, id), id, OpenSource(id), s.p.now);
      CopyOk(w', PathOf(s, id), w'.copies[id])
  {
    var p := PathOf(s, id);
    var w' := CopyApplied(s.w, p, id, OpenSource(id), s.p.now);
    OpenedIsNewest(s.w, p);
    NoneNewerKept(s.w, w', p, |Hist(s.w, p)| - 1);
  }

  lemma PlainAdvances(s: Sys, e: Event)
    requires e.CreatePartial? || e.EndOfFile?
    requires CopyEnabled(s, e) && CopyOk(s.w, PathOf(s, e.id), s.w.copies[e.id])
    ensures var w' := CopyApplied(s.w, PathOf(s, e.id), e.id, e, s.p.now);
      CopyOk(w', PathOf(s, e.id), w'.copies[e.id])
  {
  }

  lemma CopyAdvances(s: Sys, e: Event)
    requires IsCopyEvent(e) && CopyEnabled(s, e) && RowsOk(s.w) && HistoryOk(s.w)
    requires e.id in s.w.copies ==> CopyOk(s.w, PathOf(s, e.id), s.w.copies[e.id])
    ensures var w' := CopyApplied(s.w, PathOf(s, e.id), e.id, e, s.p.now);
      CopyOk(w', PathOf(s, e.id), w'.copies[e.id])
  {
    match e
    case OpenSource(id) => OpenAdvances(s, id);
    case Read(id, chunk) => ReadAdvances(s, id, chunk);
    case Check(id) => CheckAdvances(s, id);
    case Install(id) => InstallAdvances(s, id);
    case CreatePartial(_) => PlainAdvances(s, e);
    case EndOfFile(_) => PlainAdvances(s, e);
    case _ =>
  }

  lemma OpenedIsNewest(w: World, p: Path)
    requires RowsOk(w) && Hist(w, p) != []
    ensures NoneNewer(w, p, |Hist(w, p)| - 1)
  {
    assert RowOk(w, p);
  }

  lemma CopyStepCoherent(s: Sys, e: Event)
    requires Coherent(s) && IsCopyEvent(e) && CopyEnabled(s, e)
    ensures Coherent(Sys(s.p, CopyApplied(s.w, PathOf(s, e.id), e.id, e, s.p.now)))
  {
    var p := PathOf(s, e.id);
    var s' := Sys(s.p, CopyApplied(s.w, p, e.id, e, s.p.now));
    if e.id in s.w.copies { assert CopyOk(s.w, p, s.w.copies[e.id]); }
    match e {
      case Install(id) => InstallRows(s, id);
      case Mark(id) => MarkRows(s, id);
      case _ => OtherCopyRows(s, e);
    }
    CopyAdvances(s, e);
    forall id | id in s'.w.copies && id in s'.p.workers ensures CopyOk(s'.w, PathOf(s', id), s'.w.copies[id]) {
      OneCopier(s, id, e.id);
    }
    assert CopiesOk(s');
    SameHistory(s.w, s'.w);
  }

  lemma SameHistory(w: World, w': World)
    requires HistoryOk(w) && SameBacking(w, w')
    ensures HistoryOk(w')
  {
    assert forall p :: Hist(w', p) == Hist(w, p);
  }

  // The backing store moves on.

  /** Histories only grow, and a version shown afterwards that existed before was shown before. */
  ghost predicate BackingMoved(w: World, w': World) {
    && w'.disk == w.disk && w'.rows == w.rows && w'.copies == w.copies && w'.refreshers == w.refreshers
    && (forall p :: Hist(w, p) <= Hist(w', p))
    && (forall p, k: nat :: k < |Hist(w, p)| && Shows(w', p, k) ==> Shows(w, p, k))
  }

  lemma MovedClaim(w: World, w': World, p: Path, k: nat)
    requires BackingMoved(w, w') && Claim(w, p, k)
    ensures Claim(w', p, k) && Hist(w', p)[k] == Hist(w, p)[k]
  {
  }

  lemma MovedRows(w: World, w': World)
    requires BackingMoved(w, w') && RowsOk(w)
    ensures RowsOk(w')
  {
    forall p ensures RowOk(w', p) {
      assert RowOk(w, p);
      if p in w.rows && w.rows[p].origin.Some? { MovedClaim(w, w', p, w.rows[p].origin.value); }
    }
    forall id | id in w'.refreshers ensures RefresherOk(w', w'.refreshers[id]) {
      var r := w.refreshers[id];
      assert RefresherOk(w, r);
      assert Hist(w, r.path) <= Hist(w', r.path);
      if r.Matched? && r.trusted { MovedClaim(w, w', r.path, r.ver); }
    }
  }

  lemma MovedCopy(w: World, w': World, p: Path, c: Copy)
    requires BackingMoved(w, w') && CopyOk(w, p, c)
    ensures CopyOk(w', p, c)
  {
  }

  lemma BackingEventMoves(s: Sys, e: Event)
    requires e.Change? || e.Remove? || e.ChangeAttrs?
    requires EventEnabled(s, e) && HistoryOk(s.w)
    ensures BackingMoved(s.w, EventApplied(s, e).w) && HistoryOk(EventApplied(s, e).w)
  {
    var w' := EventApplied(s, e).w;
    assert forall p :: p != e.path ==> Hist(w', p) == Hist(s.w, p);
    assert Hist(w', e.path) == Hist(s.w, e.path) + if e.Change? then [e.version] else [];
  }

  lemma BackingEventCoherent(s: Sys, e: Event)
    requires Coherent(s) && (e.Change? || e.Remove? || e.ChangeAttrs?) && EventEnabled(s, e)
    ensures Coherent(EventApplied(s, e))
  {
    var s' := EventApplied(s, e);
    BackingEventMoves(s, e);
    MovedRows(s.w, s'.w);
    forall id | id in s'.w.copies && id in s'.p.workers ensures CopyOk(s'.w, PathOf(s', id), s'.w.copies[id]) {
      MovedCopy(s.w, s'.w, PathOf(s, id), s.w.copies[id]);
    }
  }

  // Rows and files touched from elsewhere.

  ghost predicate OthersOnly(w: World, w': World) {
    && SameBacking(w, w') && w'.copies == w.copies
    && (forall q :: q in w'.disk ==> q in w.disk && w'.disk[q] == w.disk[q])
  }

  lemma OthersCopies(s: Sys, s': Sys)
    requires CopiesOk(s) && OthersOnly(s.w, s'.w) && s'.p == s.p
    requires forall p, ver :: NoneNewer(s.w, p, ver) ==> NoneNewer(s'.w, p, ver)
    ensures CopiesOk(s')
  {
  }

  /** Deleting files or rows, or writing rows of no origin, adds no claim. */
  lemma FewerClaims(s: Sys, s': Sys)
    requires Coherent(s) && OthersOnly(s.w, s'.w) && s'.p == s.p
    requires forall p :: p in s'.w.rows && s'.w.rows[p].origin.Some? ==>
               p in s.w.rows && s.w.rows[p].origin == s'.w.rows[p].origin && s.w.rows[p].row.mtime == s'.w.rows[p].row.mtime
    requires forall id :: id in s'.w.refreshers ==> id in s.w.refreshers && s.w.refreshers[id] == s'.w.refreshers[id]
    ensures Coherent(s')
  {
    RowsKept(s.w, s'.w);
    forall p, ver | NoneNewer(s.w, p, ver) ensures NoneNewer(s'.w, p, ver) { NoneNewerKept(s.w, s'.w, p, ver); }
    OthersCopies(s, s');
    SameHistory(s.w, s'.w);
  }

  lemma RowKeptAt(w: World, w': World, p: Path)
    requires RowOk(w, p) && SameBacking(w, w') && w'.disk == w.disk
    requires p in w'.rows && w'.rows[p].origin.Some? ==> p in w.rows && w'.rows[p] == w.rows[p]
    ensures RowOk(w', p)
  {
  }

  lemma RefresherKept(w: World, w': World, r: Refresher)
    requires RefresherOk(w, r) && SameBacking(w, w') && w'.disk == w.disk
    ensures RefresherOk(w', r)
  {
  }

  lemma RefreshCopies(s: Sys, s': Sys)
    requires Coherent(s) && s'.p == s.p && OthersOnly(s.w, s'.w) && RowsOk(s'.w)
    requires forall p, ver :: NoneNewer(s.w, p, ver) ==> NoneNewer(s'.w, p, ver)
    ensures Coherent(s')
  {
    OthersCopies(s, s');
    SameHistory(s.w, s'.w);
  }

  lemma RefreshStatCoherent(s: Sys, id: nat, path: Path)
    requires Coherent(s) && EventEnabled(s, RefreshStat(id, path))
    ensures Coherent(EventApplied(s, RefreshStat(id, path)))
  {
    var s' := EventApplied(s, RefreshStat(id, path));
    forall p ensures RowOk(s'.w, p) { RowKeptAt(s.w, s'.w, p); }
    forall i | i in s'.w.refreshers ensures RefresherOk(s'.w, s'.w.refreshers[i]) {
      if i != id { RefresherKept(s.w, s'.w, s.w.refreshers[i]); }
    }
    RefreshCopies(s, s');
  }

  /** What a refresh matched is the version its stat saw, so its claim is the row's. */
  lemma MatchedClaim(s: Sys, id: nat)
    requires HistoryOk(s.w) && RowsOk(s.w) && EventEnabled(s, RefreshMatch(id))
    ensures var r := s.w.refreshers[id];
      s.w.rows[r.path].origin.Some? ==> s.w.rows[r.path].origin.value == r.ver && Claim(s.w, r.path, r.ver)
  {
    var r := s.w.refreshers[id];
    assert RefresherOk(s.w, r) && RowOk(s.w, r.path);
  }

  ghost predicate IsMatch(w: World, w': World, id: nat) {
    && id in w.refreshers && w.refreshers[id].Statted? && w.refreshers[id].path in w.rows
    && var r := w.refreshers[id];
      w' == w.(refreshers := w.refreshers[id := Matched(r.path, r.ver, r.live, w.rows[r.path].origin.Some?)])
  }

  lemma MatchedRows(w: World, w': World, id: nat)
    requires RowsOk(w) && IsMatch(w, w', id)
    requires var r := w.refreshers[id]; w.rows[r.path].origin.Some? ==> Claim(w, r.path, r.ver)
    ensures RowsOk(w')
  {
    forall p ensures RowOk(w', p) { RowKeptAt(w, w', p); }
    forall i | i in w'.refreshers ensures RefresherOk(w', w'.refreshers[i]) {
      RefresherKept(w, w', w.refreshers[i]);
      if i == id && w'.refreshers[i].trusted { ClaimKept(w, w', w.refreshers[i].path, w.refreshers[i].ver); }
    }
  }

  lemma MatchedNoneNewer(w: World, w': World, id: nat, p: Path, ver: nat)
    requires IsMatch(w, w', id) && NoneNewer(w, p, ver)
    requires var r := w.refreshers[id]; w.rows[r.path].origin.Some? ==> w.rows[r.path].origin.value == r.ver
    ensures NoneNewer(w', p, ver)
  {
  }

  lemma RefreshMatchCoherent(s: Sys, id: nat)
    requires Coherent(s) && EventEnabled(s, RefreshMatch(id))
    ensures Coherent(EventApplied(s, RefreshMatch(id)))
  {
    var s' := EventApplied(s, RefreshMatch(id));
    MatchedClaim(s, id);
    MatchedRows(s.w, s'.w, id);
    forall p, ver | NoneNewer(s.w, p, ver) ensures NoneNewer(s'.w, p, ver) { MatchedNoneNewer(s.w, s'.w, id, p, ver); }
    RefreshCopies(s, s');
  }

  lemma WrittenRowOk(s: Sys, id: nat)
    requires EventEnabled(s, RefreshWrite(id)) && RefresherOk(s.w, s.w.refreshers[id])
    ensures RowOk(EventApplied(s, RefreshWrite(id)).w, s.w.refreshers[id].path) || s.w.refreshers[id].path !in s.w.rows
  {
  }

  lemma RefreshWriteCoherent(s: Sys, id: nat)
    requires Coherent(s) && EventEnabled(s, RefreshWrite(id))
    ensures Coherent(EventApplied(s, RefreshWrite(id)))
  {
    var s', r := EventApplied(s, RefreshWrite(id)), s.w.refreshers[id];
    WrittenRowOk(s, id);
    forall p ensures RowOk(s'.w, p) {
      if p != r.path || p !in s.w.rows { RowKeptAt(s.w, s'.w, p); }
    }
    forall i | i in s'.w.refreshers ensures RefresherOk(s'.w, s'.w.refreshers[i]) { RefresherKept(s.w, s'.w, s.w.refreshers[i]); }
    RefreshCopies(s, s');
  }

  // The pipeline's own steps.

  /** A copying worker is moved on only by its own finish or a restart. */
  lemma CopyingStays(s: State, step: Step, id: nat)
    requires Enabled(s, step) && id in s.workers && s.workers[id].phase.Copying? && s.nextWorker !in s.workers
    requires !step.Restart? && step != Finish(id)
    ensures id in Apply(s, step).workers && Apply(s, step).workers[id] == s.workers[id]
  {
  }

  lemma PipeOwned(s: Sys, step: Step)
    requires s.p.nextWorker !in s.p.workers && CopiesOwned(s) && EventEnabled(s, Internal(step))
    ensures var s' := EventApplied(s, Internal(step));
      CopiesOwned(s') && forall id :: id in s'.w.copies ==> id in s.w.copies && id in s.p.workers && PathOf(s', id) == PathOf(s, id)
  {
    var s' := EventApplied(s, Internal(step));
    forall id | id in s'.w.copies
      ensures CopyingWorker(s', id) && id in s.w.copies && id in s.p.workers && PathOf(s', id) == PathOf(s, id)
    {
      assert CopyingWorker(s, id);
      CopyingStays(s.p, step, id);
    }
  }

  lemma PipePermits(s: State, step: Step)
    requires Enabled(s, step)
    ensures Apply(s, step).permits == s.permits
  {
  }

  /** A restart drops the copies and refreshes in flight. */
  lemma RestartCoherent(s: Sys, step: Step)
    requires Coherent(s) && EventEnabled(s, Internal(step)) && step.Restart?
    ensures Coherent(EventApplied(s, Internal(step)))
  {
    StepExclusive(s.p, step);
    RowsKept(s.w, EventApplied(s, Internal(step)).w);
    SameHistory(s.w, EventApplied(s, Internal(step)).w);
  }

  lemma PipeCopies(s: Sys, step: Step)
    requires s.p.nextWorker !in s.p.workers && CopiesOwned(s) && CopiesOk(s) && EventEnabled(s, Internal(step)) && !step.Restart?
    ensures CopiesOwned(EventApplied(s, Internal(step))) && CopiesOk(EventApplied(s, Internal(step)))
  {
    var s' := EventApplied(s, Internal(step));
    PipeOwned(s, step);
    forall id | id in s'.w.copies && id in s'.p.workers ensures CopyOk(s'.w, PathOf(s', id), s'.w.copies[id]) {
      var p, c := PathOf(s, id), s.w.copies[id];
      if !c.Done? { NoneNewerKept(s.w, s'.w, p, c.ver); }
      CopyKept(s.w, s'.w, p, c);
    }
  }

  lemma {:induction false} PipeCoherent(s: Sys, step: Step)
    requires Coherent(s) && EventEnabled(s, Internal(step))
    ensures Coherent(EventApplied(s, Internal(step)))
  {
    if step.Restart? {
      RestartCoherent(s, step);
    } else {
      var s' := EventApplied(s, Internal(step));
      StepExclusive(s.p, step);
      PipePermits(s.p, step);
      PipeCopies(s, step);
      RowsKept(s.w, s'.w);
      SameHistory(s.w, s'.w);
    }
  }

  lemma DeletionCoherent(s: Sys, e: Event)
    requires Coherent(s) && EventEnabled(s, e) && (e.RefreshStop? || e.DeleteFile? || e.DeleteRow?)
    ensures Coherent(EventApplied(s, e))
  {
    FewerClaims(s, EventApplied(s, e));
  }

  lemma RowEventCoherent(s: Sys, e: Event)
    requires Coherent(s) && EventEnabled(s, e) && (e.Backfill? || e.Adopt? || e.Hit?)
    ensures Coherent(EventApplied(s, e))
  {
    FewerClaims(s, EventApplied(s, e));
  }

  lemma EventCoherent(s: Sys, e: Event)
    requires Coherent(s) && EventEnabled(s, e)
    ensures Coherent(EventApplied(s, e))
  {
    if e.Internal? { PipeCoherent(s, e.step); }
    else if e.Change? || e.Remove? || e.ChangeAttrs? { BackingEventCoherent(s, e); }
    else if e.RefreshStat? { RefreshStatCoherent(s, e.id, e.path); }
    else if e.RefreshMatch? { RefreshMatchCoherent(s, e.id); }
    else if e.RefreshWrite? { RefreshWriteCoherent(s, e.id); }
    else if IsCopyEvent(e) { CopyStepCoherent(s, e); }
    else if e.Backfill? || e.Adopt? || e.Hit? { RowEventCoherent(s, e); }
    else { DeletionCoherent(s, e); }
  }

  // ---------------------------------------------------------------- whole runs

  const EMPTY_WORLD: World := World(map[], map[], map[], map[], map[], map[])

  ghost predicate IsSysRun(ss: seq<Sys>, es: seq<Event>) {
    && |ss| == |es| + 1
    && ss[0] == Sys(Init(ss[0].p.permits, ss[0].p.ttlMinutes, ss[0].p.now), EMPTY_WORLD)
    && forall k :: 0 <= k < |es| ==> EventAt(ss, es, k)
  }

  ghost predicate EventAt(ss: seq<Sys>, es: seq<Event>, k: nat)
    requires |ss| == |es| + 1 && k < |es|
  {
    EventEnabled(ss[k], es[k]) && ss[k + 1] == EventApplied(ss[k], es[k])
  }

  lemma {:induction false} RunCoherent(ss: seq<Sys>, es: seq<Event>, k: nat)
    requires IsSysRun(ss, es) && ss[0].p.permits <= 1 && k < |ss|
    ensures Coherent(ss[k])
  {
    if k == 0 {
      InitExclusive(ss[0].p);
    } else {
      RunCoherent(ss, es, k - 1);
      assert EventAt(ss, es, k - 1);
      EventCoherent(ss[k - 1], es[k - 1]);
    }
  }

  /** If the staleness check calls a row of `p` fresh that a copy wrote and at most refreshes have
      touched since, then the cache file, if it is there, holds exactly the bytes the path shows. */
  ghost predicate EqualIfFresh(w: World, p: Path) {
    p in w.rows && w.rows[p].origin.Some? && CheckRow(w.rows[p].row, Live(w, p)).Fresh? && p in w.disk ==>
      Hist(w, p) != [] && w.disk[p] == Hist(w, p)[|Hist(w, p)| - 1].bytes
  }

  /** With at most one copy permit a fresh answer means equal bytes, whatever the interleaving. */
  lemma FreshMeansEqualBytes(ss: seq<Sys>, es: seq<Event>, k: nat, p: Path)
    requires IsSysRun(ss, es) && ss[0].p.permits <= 1 && k < |ss| && !HasPartialExtension(p)
    ensures EqualIfFresh(ss[k].w, p)
  {
    RunCoherent(ss, es, k);
    assert RowOk(ss[k].w, p);
  }

  /** With at most one copy permit a copy that finds the file at its final stat installs exactly the bytes of
      the one version it fingerprints, and the row it goes on to write describes them. */
  lemma InstalledIsOneVersion(ss: seq<Sys>, es: seq<Event>, k: nat, id: nat)
    requires IsSysRun(ss, es) && ss[0].p.permits <= 1 && k < |es| && es[k] == Install(id) && EventAt(ss, es, k)
    requires ss[k].w.copies[id].found
    ensures var p, c := PathOf(ss[k], id), ss[k].w.copies[id];
      && c.ver < |Hist(ss[k].w, p)| && p in ss[k + 1].w.disk
      && ss[k + 1].w.disk[p] == Hist(ss[k].w, p)[c.ver].bytes
      && c.meta.mtime == Hist(ss[k].w, p)[c.ver].mtime && c.meta.size == |ss[k + 1].w.disk[p]|
  {
    RunCoherent(ss, es, k);
  }

  /** Nothing but a copy's install and a deletion ever touches a cached file: a copy that fails
      leaves the previous one as it was. */
  lemma OnlyInstallReplaces(s: Sys, e: Event, p: Path)
    requires EventEnabled(s, e) && !HasPartialExtension(p) && e != DeleteFile(p)
    requires e.Install? ==> PathOf(s, e.id) != p
    ensures p in EventApplied(s, e).w.disk <==> p in s.w.disk
    ensures p in s.w.disk ==> EventApplied(s, e).w.disk[p] == s.w.disk[p]
  {
    if IsCopyEvent(e) {
      CopyStepFiles(s.w, PathOf(s, e.id), if e.id in s.w.copies then Some(s.w.copies[e.id]) else None, e, p);
    }
  }

  // ---------------------------------------------------------------- aborts and commits

  predicate PreCheck(s: Sys, id: nat) {
    id in s.w.copies ==> !s.w.copies[id].Checked? && !s.w.copies[id].Installed?
  }

  ghost predicate CopiesOn(ss: seq<Sys>, es: seq<Event>, i: nat, j: nat, id: nat, x: Worker)
    requires i <= j < |ss| && |ss| == |es| + 1
  {
    && x.phase.Copying?
    && (forall k :: i <= k <= j ==> id in ss[k].p.workers && ss[k].p.workers[id] == x)
    && (forall k :: i <= k < j ==> !(es[k].Internal? && es[k].step.Restart?))
  }

  lemma FlagsOnlyRise(s: State, step: Step, c: nat)
    requires Enabled(s, step) && !step.Restart? && c < |s.pipe.aborted| && s.pipe.aborted[c]
    ensures c < |Apply(s, step).pipe.aborted| && Apply(s, step).pipe.aborted[c]
  {
  }

  lemma AbortedFailsCheck(s: Sys, e: Event, id: nat)
    requires IsCopyEvent(e) && CopyEnabled(s, e) && CopyingWorker(s, id) && Aborted(s, id) && PreCheck(s, id)
    ensures PreCheck(Sys(s.p, CopyApplied(s.w, PathOf(s, e.id), e.id, e, s.p.now)), id)
  {
  }

  lemma AbortHolds(s: Sys, e: Event, id: nat, x: Worker)
    requires EventEnabled(s, e) && !(e.Internal? && e.step.Restart?) && x.phase.Copying?
    requires id in s.p.workers && s.p.workers[id] == x && id in EventApplied(s, e).p.workers && EventApplied(s, e).p.workers[id] == x
    requires Aborted(s, id) && PreCheck(s, id)
    ensures Aborted(EventApplied(s, e), id) && PreCheck(EventApplied(s, e), id)
  {
    if e.Internal? { FlagsOnlyRise(s.p, e.step, x.phase.control); }
    else if IsCopyEvent(e) { AbortedFailsCheck(s, e, id); }
  }

  lemma AbortLands(s: Sys, id: nat)
    requires Exclusive(s.p) && CopyingWorker(s, id)
    ensures CopyingWorker(EventApplied(s, Internal(MarkAbort(PathOf(s, id)))), id)
    ensures Aborted(EventApplied(s, Internal(MarkAbort(PathOf(s, id)))), id)
  {
  }

  lemma {:induction false} RunKeepsExclusive(ss: seq<Sys>, es: seq<Event>, k: nat)
    requires IsSysRun(ss, es) && k < |ss|
    ensures Exclusive(ss[k].p) && ss[k].p.permits == ss[0].p.permits
  {
    if k == 0 {
      InitExclusive(ss[0].p);
    } else {
      RunKeepsExclusive(ss, es, k - 1);
      assert EventAt(ss, es, k - 1);
      if es[k - 1].Internal? {
        StepExclusive(ss[k - 1].p, es[k - 1].step);
        PipePermits(ss[k - 1].p, es[k - 1].step);
      }
    }
  }

  /** With any number of permits: an abort of its path that lands on a copy before its final check
      keeps it from committing. For as long as that copy lasts it passes no check, and so never
      installs or marks anything. */
  lemma {:induction false} AbortPreventsCommit(ss: seq<Sys>, es: seq<Event>, i: nat, j: nat, id: nat, x: Worker)
    requires IsSysRun(ss, es) && i < j < |ss| && CopiesOn(ss, es, i, j, id, x)
    requires es[i] == Internal(MarkAbort(x.job.path)) && PreCheck(ss[i], id)
    ensures CopyingWorker(ss[j], id) && Aborted(ss[j], id) && PreCheck(ss[j], id)
  {
    assert EventAt(ss, es, j - 1);
    if j == i + 1 {
      RunKeepsExclusive(ss, es, i);
      AbortLands(ss[i], id);
    } else {
      AbortPreventsCommit(ss, es, i, j - 1, id, x);
      AbortHolds(ss[j - 1], es[j - 1], id, x);
    }
  }

  // ---------------------------------------------------------------- what a row records

  /** The check lets a copy pass exactly when no abort has landed and the path, if it is still there,
      shows the mtime and the size it showed when the source was opened. */
  lemma CheckPassesIff(s: Sys, id: nat)
    requires CopyingWorker(s, id) && IsFilePath(PathOf(s, id)) && id in s.w.copies && s.w.copies[id].Synced?
    ensures var first, live := s.w.copies[id].first, Live(s.w, PathOf(s, id));
      EventEnabled(s, Check(id)) <==>
        !Aborted(s, id) && (live.Some? ==> live.value.mtime == first.mtime && live.value.size == first.size)
  {
  }

  /** From its check on, a copy carries what the path showed at that check to its row. */
  predicate Carries(s: Sys, id: nat, seen: Stat) {
    && id in s.w.copies
    && match s.w.copies[id]
      case Checked(_, _, _, meta, found) => found && meta == seen
      case Installed(_, _, _, meta, found) => found && meta == seen
      case Done => true
      case _ => false
  }

  lemma CheckCarries(s: Sys, id: nat)
    requires EventEnabled(s, Check(id)) && Live(s.w, PathOf(s, id)).Some?
    ensures Carries(EventApplied(s, Check(id)), id, Live(s.w, PathOf(s, id)).value)
  {
  }

  lemma CopyEventCarries(s: Sys, e: Event, id: nat, seen: Stat)
    requires IsCopyEvent(e) && CopyEnabled(s, e) && Carries(s, id, seen)
    ensures Carries(Sys(s.p, CopyApplied(s.w, PathOf(s, e.id), e.id, e, s.p.now)), id, seen)
  {
  }

  lemma StillCarries(s: Sys, e: Event, id: nat, seen: Stat, x: Worker)
    requires EventEnabled(s, e) && Carries(s, id, seen) && x.phase.Copying? && !(e.Internal? && e.step.Restart?)
    requires id in s.p.workers && s.p.workers[id] == x && id in EventApplied(s, e).p.workers && EventApplied(s, e).p.workers[id] == x
    ensures Carries(EventApplied(s, e), id, seen)
  {
    if IsCopyEvent(e) {
      CopyEventCarries(s, e, id, seen);
    } else {
      var w := EventApplied(s, e).w;
      assert id in w.copies && w.copies[id] == s.w.copies[id];
    }
  }

  lemma {:induction false} CarriesOn(ss: seq<Sys>, es: seq<Event>, i: nat, j: nat, id: nat, x: Worker)
    requires IsSysRun(ss, es) && i < j < |ss| && CopiesOn(ss, es, i, j, id, x)
    requires es[i] == Check(id) && Live(ss[i].w, x.job.path).Some?
    ensures Carries(ss[j], id, Live(ss[i].w, x.job.path).value)
  {
    assert EventAt(ss, es, j - 1);
    if j == i + 1 {
      CheckCarries(ss[i], id);
    } else {
      CarriesOn(ss, es, i, j - 1, id, x);
      StillCarries(ss[j - 1], es[j - 1], id, Live(ss[i].w, x.job.path).value, x);
    }
  }

  /** Over whole runs: the row a copy writes records exactly what the path showed at its check, its
      attributes, size and mtime alike, and goes back to the version opened. */
  lemma RowRecordsCheck(ss: seq<Sys>, es: seq<Event>, i: nat, j: nat, id: nat, x: Worker)
    requires IsSysRun(ss, es) && i < j < |es| && CopiesOn(ss, es, i, j, id, x)
    requires es[i] == Check(id) && Live(ss[i].w, x.job.path).Some? && es[j] == Mark(id) && EventAt(ss, es, j)
    ensures var p, seen := x.job.path, Live(ss[i].w, x.job.path).value;
      && p in ss[j + 1].w.rows
      && var row := ss[j + 1].w.rows[p].row;
        && row.attrs == seen.attrs && row.mtime == seen.mtime && row.size == seen.size && row.sourceSize == seen.size
        && row.lastHit == row.cachedAt == ss[j].p.now && row.hits == 1
  {
    CarriesOn(ss, es, i, j, id, x);
  }
}
