/** Eviction, stale sweeps and start-up reconciliation of one mount over the shared table, in place. */
module CacheManager {
  import opened Options
  import opened Paths
  import opened CacheRows
  import opened CacheTable

  // ---------------------------------------------------------------- eviction, as functions

  function ExpiryCutoff(now: nat, expirySecs: nat): nat {
    if now > expirySecs then now - expirySecs else 0
  }

  ghost function PrunedKeys(rows: Table, mount: Mount, now: nat, expirySecs: nat, ok: set<Path>): set<RowKey> {
    if expirySecs == 0 then {} else ExpiredKeys(rows, mount, ExpiryCutoff(now, expirySecs), ok)
  }

  ghost function PathsOfKeys(ks: set<RowKey>): set<Path> { set k | k in ks :: k.0 }

  /** An eviction with expiry brings the mount within the budget whenever its files can be deleted. */
  lemma EvictionBringsWithin(rows: Table, pruned: set<RowKey>, rows': Table, mount: Mount, ok: set<Path>, maxBytes: nat, order: seq<Candidate>)
    requires forall k :: k in pruned ==> k in rows && k.1 == mount
    requires IsEviction(rows - pruned, rows', mount, ok, maxBytes, order)
    requires forall k :: k in KeysOfMount(rows, mount) && k !in pruned ==> k.0 in ok
    ensures BroughtWithin(rows, rows', mount, maxBytes)
  {
    EvictionEffect(rows - pruned, rows', mount, ok, maxBytes, order);
    SumFewer(rows, pruned);
    var gone := KeySet(Victims(order, ok, Over(Sum(rows - pruned), maxBytes)), mount);
    assert rows' == rows - pruned - gone;
    assert forall k :: k in KeysOfMount(rows', mount) ==> k in KeysOfMount(rows, mount) && k !in pruned;
  }

  /** Longer without a hit than the expiry allows, when there is one. */
  predicate PastExpiry(row: Row, now: nat, expirySecs: nat) {
    expirySecs != 0 && row.lastHit + expirySecs < now
  }

  ghost function PastKeys(rows: Table, mount: Mount, now: nat, expirySecs: nat, ok: set<Path>): set<RowKey> {
    set k | k in rows && k.1 == mount && PastExpiry(rows[k], now, expirySecs) && k.0 in ok
  }

  /** Which rows an eviction with expiry takes: every deletable one that is past its expiry, and
      others, deletable too, only if the sum is above the budget without those. */
  ghost predicate TakesExpiredFirst(rows: Table, rows': Table, mount: Mount, ok: set<Path>, now: nat, expirySecs: nat, maxBytes: nat) {
    && (forall k :: k in rows' ==> k in rows && rows'[k] == rows[k])
    && (forall k :: k in rows && k !in rows' ==> k.1 == mount && k.0 in ok)
    && (forall k :: k in PastKeys(rows, mount, now, expirySecs, ok) ==> k !in rows')
    && (forall k :: k in rows && k !in rows' && !PastExpiry(rows[k], now, expirySecs) ==>
          Sum(rows - PastKeys(rows, mount, now, expirySecs, ok)) > maxBytes)
  }

  lemma ExpiredGoFirst(rows: Table, rows': Table, mount: Mount, ok: set<Path>, now: nat, expirySecs: nat, maxBytes: nat, order: seq<Candidate>)
    requires var pruned := PrunedKeys(rows, mount, now, expirySecs, ok);
      IsEviction(rows - pruned, rows', mount, ok - PathsOfKeys(pruned), maxBytes, order)
    ensures TakesExpiredFirst(rows, rows', mount, ok, now, expirySecs, maxBytes)
    ensures Sum(rows) <= maxBytes ==> rows' == rows - PastKeys(rows, mount, now, expirySecs, ok)
    ensures OldestFirst(rows, rows', mount, ok, now, expirySecs)
  {
    var pruned := PrunedKeys(rows, mount, now, expirySecs, ok);
    var left := ok - PathsOfKeys(pruned);
    assert pruned == PastKeys(rows, mount, now, expirySecs, ok);
    NoneGoNeedlessly(rows - pruned, rows', mount, left, maxBytes, order);
    SumFewer(rows, pruned);
    forall j, k | IsOlderPair(rows, rows', mount, ok, now, expirySecs, j, k) ensures j !in rows' {
      if j !in pruned {
        assert j.0 !in PathsOfKeys(pruned);
        OldestGoFirst(rows - pruned, rows', mount, left, maxBytes, order, j, k);
      }
    }
  }

  predicate IsOlderPair(rows: Table, rows': Table, mount: Mount, ok: set<Path>, now: nat, expirySecs: nat, j: RowKey, k: RowKey) {
    && j in rows && k in rows && j.1 == mount && j.0 in ok && k !in rows'
    && !PastExpiry(rows[k], now, expirySecs) && rows[j].lastHit < rows[k].lastHit
  }

  /** Whenever a row goes that is not past its expiry, so does every deletable one of the mount hit
      before it. */
  ghost predicate OldestFirst(rows: Table, rows': Table, mount: Mount, ok: set<Path>, now: nat, expirySecs: nat) {
    forall j, k :: IsOlderPair(rows, rows', mount, ok, now, expirySecs, j, k) ==> j !in rows'
  }

  /** A file goes exactly with its row. */
  ghost predicate FilesGoWithRows(rows: Table, rows': Table, files: map<Path, nat>, files': map<Path, nat>, mount: Mount) {
    && (forall p :: p in files' <==> p in files && !((p, mount) in rows && (p, mount) !in rows'))
    && (forall p :: p in files' ==> files'[p] == files[p])
  }

  lemma FilesOfGone(rows: Table, gone: set<RowKey>, files: map<Path, nat>, mount: Mount)
    requires forall k :: k in gone ==> k in rows && k.1 == mount
    ensures FilesGoWithRows(rows, rows - gone, files, files - PathsOfKeys(gone), mount)
  {
    assert forall p :: (p, mount) in gone ==> p in PathsOfKeys(gone);
  }

  lemma VictimKeys(rows: Table, mount: Mount, order: seq<Candidate>, ok: set<Path>, need: nat)
    requires IsCandidateList(order, rows, mount)
    ensures var v := Victims(order, ok, need);
      (forall k :: k in KeySet(v, mount) ==> k in rows && k.1 == mount) && PathsOfKeys(KeySet(v, mount)) == FileSet(v)
  {
    var v := Victims(order, ok, need);
    VictimMembers(order, ok, need);
    forall p | p in FileSet(v) ensures p in PathsOfKeys(KeySet(v, mount)) { assert (p, mount) in KeySet(v, mount); }
  }

  lemma FitFiles(rows: Table, files: map<Path, nat>, mount: Mount, order: seq<Candidate>, ok: set<Path>, need: nat)
    requires IsCandidateList(order, rows, mount)
    ensures var v := Victims(order, ok, need); FilesGoWithRows(rows, rows - KeySet(v, mount), files, files - FileSet(v), mount)
  {
    VictimKeys(rows, mount, order, ok, need);
    FilesOfGone(rows, KeySet(Victims(order, ok, need), mount), files, mount);
  }

  lemma EvictionFiles(rows: Table, pruned: set<RowKey>, files: map<Path, nat>, mount: Mount, order: seq<Candidate>, ok: set<Path>, need: nat)
    requires (forall k :: k in pruned ==> k in rows && k.1 == mount) && IsCandidateList(order, rows - pruned, mount)
    ensures var v := Victims(order, ok, need);
      FilesGoWithRows(rows, rows - pruned - KeySet(v, mount), files, files - PathsOfKeys(pruned) - FileSet(v), mount)
  {
    var v := Victims(order, ok, need);
    VictimKeys(rows - pruned, mount, order, ok, need);
    var gone := pruned + KeySet(v, mount);
    FilesOfGone(rows, gone, files, mount);
    assert rows - pruned - KeySet(v, mount) == rows - gone;
    assert PathsOfKeys(gone) == PathsOfKeys(pruned) + PathsOfKeys(KeySet(v, mount));
    assert files - PathsOfKeys(pruned) - FileSet(v) == files - PathsOfKeys(gone);
  }

  /** What making room means: nothing goes if there is room; no row goes needlessly; afterwards there is
      room, or nothing left to count or to delete. */
  ghost predicate MakesRoom(rows: Table, rows': Table, mount: Mount, ok: set<Path>, maxBytes: nat, pending: nat) {
    && (forall k :: k in rows' ==> k in rows && rows'[k] == rows[k])
    && (forall k :: k in rows && k !in rows' ==> k.1 == mount && k.0 in ok)
    && (Sum(rows) + pending <= maxBytes ==> rows' == rows)
    && (rows' != rows ==> exists k :: NewestGone(rows, rows', k) && Sum(rows') + rows[k].size + pending > maxBytes)
    && (Sum(rows') + pending <= maxBytes || Sum(rows') == 0 || forall k :: k in KeysOfMount(rows', mount) ==> k.0 !in ok)
    && (forall j, k :: (j in KeysOfMount(rows, mount) && j.0 in ok && k in KeysOfMount(rows, mount) && k !in rows'
          && rows[j].lastHit < rows[k].lastHit) ==> j !in rows')
  }

  lemma FitMakesRoom(rows: Table, rows': Table, mount: Mount, ok: set<Path>, maxBytes: nat, pending: nat, order: seq<Candidate>)
    requires IsEviction(rows, rows', mount, ok, FitTarget(maxBytes, pending), order)
    ensures MakesRoom(rows, rows', mount, ok, maxBytes, pending)
  {
    var target := FitTarget(maxBytes, pending);
    NoneGoNeedlessly(rows, rows', mount, ok, target, order);
    EvictionEffect(rows, rows', mount, ok, target, order);
    forall j, k | j in KeysOfMount(rows, mount) && j.0 in ok && k in KeysOfMount(rows, mount) && k !in rows'
      && rows[j].lastHit < rows[k].lastHit ensures j !in rows'
    {
      OldestGoFirst(rows, rows', mount, ok, target, order, j, k);
    }
    if Sum(rows) + pending <= maxBytes && pending >= maxBytes { assert Sum(rows) == 0; }
  }

  // ---------------------------------------------------------------- stale sweep, as functions

  function LiveOf(live: map<Path, Stat>, p: Path): Option<Stat> {
    if p in live then Some(live[p]) else None
  }

  predicate Drops(row: Row, live: Option<Stat>) {
    var answer := CheckRow(row, live);
    answer.Stale? || answer.BackingGone?
  }

  function SweptRow(row: Row, live: Option<Stat>, now: nat): Row {
    match CheckRow(row, live)
    case NeedsBackfill(st) => CachedRow(st, now)
    case Fresh(st) => Refreshed(row, st)
    case _ => row
  }

  function DroppedKeys(rows: Table, mount: Mount, live: map<Path, Stat>): set<RowKey> {
    set k | k in rows && k.1 == mount && Drops(rows[k], LiveOf(live, k.0))
  }

  function Swept(rows: Table, mount: Mount, live: map<Path, Stat>, now: nat): Table {
    map k | k in rows && !(k.1 == mount && Drops(rows[k], LiveOf(live, k.0))) ::
      if k.1 == mount then SweptRow(rows[k], LiveOf(live, k.0), now) else rows[k]
  }

  /** What a sweep makes of each row: it stays exactly if its file is there and it has no fingerprint or
      one that matches in mtime and size; then it ends up with what the file shows, and keeps its
      access columns unless it had no fingerprint. Other mounts keep everything. */
  ghost predicate SweepsAsChecked(rows: Table, rows': Table, mount: Mount, live: map<Path, Stat>) {
    && (forall k :: k in rows' ==> k in rows)
    && (forall k :: k in rows && k.1 != mount ==> k in rows' && rows'[k] == rows[k])
    && (forall k :: k in rows && k.1 == mount ==>
          (k in rows' <==> k.0 in live && (rows[k].mtime == ZERO_STAMP || (rows[k].mtime == live[k.0].mtime && rows[k].size == live[k.0].size))))
    && (forall k :: k in rows' && k.1 == mount ==>
          && k.0 in live && rows'[k].attrs == live[k.0].attrs && rows'[k].mtime == live[k.0].mtime && rows'[k].size == live[k.0].size
          && (rows[k].mtime != ZERO_STAMP ==>
                rows'[k].lastHit == rows[k].lastHit && rows'[k].hits == rows[k].hits && rows'[k].cachedAt == rows[k].cachedAt))
  }

  lemma SweptAsChecked(rows: Table, mount: Mount, live: map<Path, Stat>, now: nat)
    ensures SweepsAsChecked(rows, Swept(rows, mount, live, now), mount, live)
  {
  }

  lemma DroppedFiles(rows: Table, files: map<Path, nat>, mount: Mount, live: map<Path, Stat>, now: nat, stuck: set<Path>)
    ensures var s, files' := Swept(rows, mount, live, now), files - (PathsOfKeys(DroppedKeys(rows, mount, live)) - stuck);
      forall p :: p in files' <==> p in files && !((p, mount) in rows && (p, mount) !in s && p !in stuck)
  {
    assert forall p :: (p, mount) in DroppedKeys(rows, mount, live) <==> p in PathsOfKeys(DroppedKeys(rows, mount, live));
  }

  /** A sweep drops all there is to drop while the backing store stands still. What is left checks
      fresh, and is left as it is by a second sweep whenever that comes, if and only if every file
      that still has a row shows a nonzero mtime; others are backfilled again each time. */
  lemma SweepSettlesIff(rows: Table, mount: Mount, live: map<Path, Stat>, now: nat)
    ensures var s := Swept(rows, mount, live, now);
      && DroppedKeys(s, mount, live) == {}
      && ((forall k :: k in KeysOfMount(s, mount) ==> CheckRow(s[k], LiveOf(live, k.0)).Fresh?) <==> AllTimesReal(s, mount, live))
      && ((forall later: nat :: Swept(s, mount, live, later) == s) <==> AllTimesReal(s, mount, live))
  {
    var s := Swept(rows, mount, live, now);
    forall k | k in KeysOfMount(s, mount)
      ensures k.0 in live
      ensures CheckRow(s[k], Some(live[k.0])).Fresh? <==> live[k.0].mtime != ZERO_STAMP
    {
      SweptAt(rows, mount, live, now, k);
    }
    if AllTimesReal(s, mount, live) {
      forall later: nat ensures Swept(s, mount, live, later) == s { SweepSettles(rows, mount, live, now, later); }
    } else {
      var k :| k in KeysOfMount(s, mount) && live[k.0].mtime == ZERO_STAMP;
      SweptAt(rows, mount, live, now, k);
      assert Swept(s, mount, live, now + 1)[k].cachedAt == now + 1;
    }
  }

  predicate AllTimesReal(rows: Table, mount: Mount, live: map<Path, Stat>) {
    forall k :: k in rows && k.1 == mount ==> k.0 in live && live[k.0].mtime != ZERO_STAMP
  }

  /** What a sweep makes of a row it keeps. */
  lemma SweptAt(rows: Table, mount: Mount, live: map<Path, Stat>, now: nat, k: RowKey)
    requires k in KeysOfMount(Swept(rows, mount, live, now), mount)
    ensures k.0 in live
    ensures var r := Swept(rows, mount, live, now)[k];
      if live[k.0].mtime == ZERO_STAMP then r == CachedRow(live[k.0], now)
      else CheckRow(r, Some(live[k.0])).Fresh? && forall later: nat :: SweptRow(r, Some(live[k.0]), later) == r
  {
  }

  lemma SweepSettles(rows: Table, mount: Mount, live: map<Path, Stat>, now: nat, later: nat)
    requires AllTimesReal(Swept(rows, mount, live, now), mount, live)
    ensures Swept(Swept(rows, mount, live, now), mount, live, later) == Swept(rows, mount, live, now)
  {
    var s := Swept(rows, mount, live, now);
    forall k | k in KeysOfMount(s, mount)
      ensures !Drops(s[k], LiveOf(live, k.0)) && SweptRow(s[k], LiveOf(live, k.0), later) == s[k]
    {
      SweptAt(rows, mount, live, now, k);
    }
  }

  // ---------------------------------------------------------------- reconciliation, as functions

  function WithoutPartials(files: map<Path, nat>, stuck: set<Path>): map<Path, nat> {
    map p | p in files && !(HasPartialExtension(p) && p !in stuck) :: files[p]
  }

  predicate Exists(files: map<Path, nat>, dirs: set<Path>, p: Path) { p in files || p in dirs }

  function Orphans(rows: Table, mount: Mount, files: map<Path, nat>, dirs: set<Path>): set<RowKey> {
    set k | k in rows && k.1 == mount && !Exists(files, dirs, k.0)
  }

  function Unlisted(rows: Table, mount: Mount, files: map<Path, nat>): set<RowKey> {
    set p | p in files && !IsNonMedia(p) && (p, mount) !in rows :: (p, mount)
  }

  function RecoveredRows(ks: set<RowKey>, files: map<Path, nat>, now: nat): Table
    requires forall k :: k in ks ==> k.0 in files
  {
    map k | k in ks :: RecoveredRow(files[k.0], now)
  }

  lemma UnlistedAreFiles(rows: Table, mount: Mount, files: map<Path, nat>)
    ensures forall k :: k in Unlisted(rows, mount, files) ==> k.0 in files && k !in rows && k.1 == mount && !IsNonMedia(k.0)
  {
  }

  function Reconciled(rows: Table, mount: Mount, files: map<Path, nat>, dirs: set<Path>, now: nat): Table {
    var kept := rows - Orphans(rows, mount, files, dirs);
    UnlistedAreFiles(kept, mount, files);
    kept + RecoveredRows(Unlisted(kept, mount, files), files, now)
  }

  /** After reconciliation the mount's rows are the old ones whose files exist, unchanged, and one
      zero-fingerprint row for each collected file that had none; other mounts are untouched. */
  lemma ReconciledRows(rows: Table, mount: Mount, files: map<Path, nat>, dirs: set<Path>, now: nat, k: RowKey)
    ensures var r := Reconciled(rows, mount, files, dirs, now);
      && (k.1 != mount ==> (k in r <==> k in rows) && (k in rows ==> r[k] == rows[k]))
      && (k.1 == mount && k in rows ==> (k in r <==> Exists(files, dirs, k.0)) && (k in r ==> r[k] == rows[k]))
      && (k.1 == mount && k !in rows ==>
            && (k in r <==> k.0 in files && !IsNonMedia(k.0))
            && (k in r ==> r[k] == RecoveredRow(files[k.0], now) && (forall live: Stat :: CheckRow(r[k], Some(live)).NeedsBackfill?)))
  {
  }

  /** Running it again on the unchanged directory changes nothing. */
  lemma ReconcileSettles(rows: Table, mount: Mount, files: map<Path, nat>, dirs: set<Path>, now: nat, later: nat)
    ensures var r := Reconciled(rows, mount, files, dirs, now); Reconciled(r, mount, files, dirs, later) == r
    ensures forall p :: p in WithoutPartials(files, {}) ==> !HasPartialExtension(p)
    ensures WithoutPartials(WithoutPartials(files, {}), {}) == WithoutPartials(files, {})
  {
  }

  /** Of the files, exactly those with extension `partial` that can be deleted go; the others keep
      their sizes. */
  ghost predicate OnlyPartialsGo(files: map<Path, nat>, files': map<Path, nat>, stuck: set<Path>) {
    && (forall p :: p in files' <==> p in files && !(HasPartialExtension(p) && p !in stuck))
    && (forall p :: p in files' ==> files'[p] == files[p])
  }

  lemma PartialsGone(files: map<Path, nat>, stuck: set<Path>)
    ensures OnlyPartialsGo(files, WithoutPartials(files, stuck), stuck)
  {
  }

  /** Is there, once the working files are gone, something under this path? */
  predicate Remains(files: map<Path, nat>, dirs: set<Path>, stuck: set<Path>, p: Path) {
    p in dirs || (p in files && !(HasPartialExtension(p) && p !in stuck))
  }

  /** What start-up makes of the rows, from what was there before: rows of the mount stay, unchanged,
      exactly if something remains under their path, and each collected file without a row gets one
      with its size, no fingerprint, and a first use now. Other mounts keep everything. */
  ghost predicate RowsFollowFiles(rows: Table, rows': Table, mount: Mount, files: map<Path, nat>, dirs: set<Path>, stuck: set<Path>, now: nat) {
    && (forall k :: k in rows ==> (k in rows' <==> k.1 != mount || Remains(files, dirs, stuck, k.0)) && (k in rows' ==> rows'[k] == rows[k]))
    && (forall k :: k !in rows && k in rows' ==>
          && k.1 == mount && k.0 in files && !IsNonMedia(k.0)
          && rows'[k].size == files[k.0] && rows'[k].mtime == ZERO_STAMP && rows'[k].lastHit == rows'[k].cachedAt == now && rows'[k].hits == 0)
    && (forall p :: p in files && !IsNonMedia(p) ==> (p, mount) in rows')
  }

  lemma ReconciledFollows(rows: Table, mount: Mount, files: map<Path, nat>, dirs: set<Path>, stuck: set<Path>, now: nat)
    ensures RowsFollowFiles(rows, Reconciled(rows, mount, WithoutPartials(files, stuck), dirs, now), mount, files, dirs, stuck, now)
  {
    var left := WithoutPartials(files, stuck);
    forall k: RowKey { ReconciledRows(rows, mount, left, dirs, now, k); }
    forall p | p in files && !IsNonMedia(p) ensures (p, mount) in Reconciled(rows, mount, left, dirs, now) {
      ReconciledRows(rows, mount, left, dirs, now, (p, mount));
    }
  }

  // ---------------------------------------------------------------- in place

  lemma {:induction false} Oldest(left: set<Path>, rows: Table, mount: Mount) returns (p: Path)
    requires left != {} && forall p :: p in left ==> (p, mount) in rows
    ensures p in left && forall q :: q in left ==> rows[(p, mount)].lastHit <= rows[(q, mount)].lastHit
    decreases |left|
  {
    p :| p in left;
    if left != {p} {
      var q := Oldest(left - {p}, rows, mount);
      if rows[(q, mount)].lastHit < rows[(p, mount)].lastHit { p := q; }
    }
  }

  lemma OldestExists(left: set<Path>, rows: Table, mount: Mount)
    requires left != {} && forall p :: p in left ==> (p, mount) in rows
    ensures exists p :: p in left && forall q :: q in left ==> rows[(p, mount)].lastHit <= rows[(q, mount)].lastHit
  {
    var p := Oldest(left, rows, mount);
  }

  class Manager {
    var rows: Table
    var files: map<Path, nat>
    var dirs: set<Path>
    const mount: Mount
    const maxBytes: nat
    const expirySecs: nat

    constructor (mount: Mount, maxBytes: nat, expirySecs: nat, rows: Table, files: map<Path, nat>, dirs: set<Path>)
      ensures this.mount == mount && this.maxBytes == maxBytes && this.expirySecs == expirySecs
      ensures this.rows == rows && this.files == files && this.dirs == dirs
    {
      this.mount, this.maxBytes, this.expirySecs := mount, maxBytes, expirySecs;
      this.rows, this.files, this.dirs := rows, files, dirs;
    }

    method TotalCachedBytesGlobal() returns (n: nat)
      ensures n == Sum(rows)
    {
      n := 0;
      var left := rows;
      while left != map[]
        invariant n + Sum(left) == Sum(rows)
        decreases |left|
      {
        var k :| k in left;
        SumWithout(left, k);
        n := n + left[k].size;
        left := left - {k};
      }
    }

    method EvictionCandidates() returns (cands: seq<Candidate>)
      ensures IsCandidateList(cands, rows, mount)
    {
      cands := [];
      var left := set k | k in rows && k.1 == mount :: k.0;
      ghost var all := left;
      while left != {}
        invariant left <= all && FileSet(cands) == all - left
        invariant IsPartOfList(cands, left, rows, mount)
      {
        OldestExists(left, rows, mount);
        var p :| p in left && forall q :: q in left ==> rows[(p, mount)].lastHit <= rows[(q, mount)].lastHit;
        ListGrows(cands, left, rows, mount, p);
        SetsAppend(cands, (p, rows[(p, mount)].size), mount);
        cands := cands + [(p, rows[(p, mount)].size)];
        left := left - {p};
      }
      forall k | k in KeysOfMount(rows, mount) ensures exists i :: 0 <= i < |cands| && cands[i].0 == k.0 {
        assert k.0 in FileSet(cands);
      }
    }

    /** Deletes the file, and if that works its row. */
    method TryEvict(path: Path, stuck: set<Path>) returns (deleted: bool)
      modifies this`rows, this`files
      ensures deleted == (path in old(files) && path !in stuck)
      ensures rows == if deleted then old(rows) - {(path, mount)} else old(rows)
      ensures files == if deleted then old(files) - {path} else old(files)
    {
      deleted := path in files && path !in stuck;
      if deleted {
        files := files - {path};
        rows := rows - {(path, mount)};
      }
    }

    method EvictExpired(now: nat, stuck: set<Path>) returns (reclaimed: nat)
      modifies this`rows, this`files
      ensures var gone := ExpiredKeys(old(rows), mount, ExpiryCutoff(now, expirySecs), old(files).Keys - stuck);
        rows == old(rows) - gone && files == old(files) - PathsOfKeys(gone)
      ensures forall k :: k in old(rows) ==> (k !in rows <==>
                k.1 == mount && k.0 in old(files) && k.0 !in stuck && now > expirySecs && old(rows)[k].lastHit + expirySecs < now)
      ensures Sum(old(rows)) == Sum(rows) + reclaimed
    {
      reclaimed := 0;
      var cutoff := ExpiryCutoff(now, expirySecs);
      var expired := set k | k in rows && k.1 == mount && rows[k].lastHit < cutoff;
      var todo := expired;
      ghost var gone: set<RowKey> := {};
      ghost var ok := files.Keys - stuck;
      while todo != {}
        invariant todo <= expired && gone <= expired - todo
        invariant forall k :: k in expired - todo ==> (k in gone <==> k.0 in ok)
        invariant rows == old(rows) - gone && files == old(files) - PathsOfKeys(gone)
        invariant Sum(old(rows)) == Sum(rows) + reclaimed
      {
        var k :| k in todo;
        todo := todo - {k};
        assert k.0 !in PathsOfKeys(gone);
        var size := rows[k].size;
        ghost var r := rows;
        var deleted := TryEvict(k.0, stuck);
        if deleted {
          SumWithout(r, k);
          TakeKey(old(rows), old(files), gone, k);
          reclaimed := reclaimed + size;
          gone := gone + {k};
        }
      }
      assert gone == ExpiredKeys(old(rows), mount, cutoff, ok);
    }

    /** The size phase: oldest rows go while the running total is above the budget. */
    method EvictOverBudget(cands: seq<Candidate>, total: nat, stuck: set<Path>) returns (reclaimed: nat)
      requires Lists(cands, rows, mount) && total == Sum(rows)
      modifies this`rows, this`files
      ensures var v := Victims(cands, old(files).Keys - stuck, Over(total, maxBytes));
        && rows == old(rows) - KeySet(v, mount) && files == old(files) - FileSet(v)
        && reclaimed == Sizes(v)
    {
      reclaimed := 0;
      var globalTotal: nat := total;
      ghost var gone: seq<Candidate> := [];
      ghost var ok := files.Keys - stuck;
      MidwayStart(rows, files, mount, cands, ok, Over(total, maxBytes));
      if globalTotal > maxBytes {
        var i := 0;
        while i < |cands| && globalTotal > maxBytes
          invariant i <= |cands|
          invariant Midway(old(rows), old(files), rows, files, mount, cands, ok, Over(total, maxBytes), i, gone, Over(globalTotal, maxBytes))
          invariant globalTotal == Sum(rows) && reclaimed == Sizes(gone)
        {
          var (path, size) := cands[i];
          ghost var r, f := rows, files;
          var deleted := TryEvict(path, stuck);
          if deleted {
            MidwayTake(old(rows), old(files), r, f, mount, cands, ok, Over(total, maxBytes), i, gone, globalTotal - maxBytes);
            OverShift(globalTotal, maxBytes, size);
            reclaimed := reclaimed + size;
            globalTotal := globalTotal - size;
            gone := gone + [cands[i]];
          } else {
            MidwaySkip(old(rows), old(files), r, f, mount, cands, ok, Over(total, maxBytes), i, gone, globalTotal - maxBytes);
          }
          i := i + 1;
        }
        MidwayDone(old(rows), old(files), rows, files, mount, cands, ok, Over(total, maxBytes), i, gone, Over(globalTotal, maxBytes));
      }
    }

    /** Expired rows go first, then the oldest ones while the sum over all mounts is too large. */
    method EvictIfNeeded(now: nat, stuck: set<Path>) returns (reclaimed: nat, ghost order: seq<Candidate>)
      modifies this`rows, this`files
      ensures Sum(old(rows)) == Sum(rows) + reclaimed
      ensures var ok := old(files).Keys - stuck;
        var pruned := PrunedKeys(old(rows), mount, now, expirySecs, ok);
        && IsEviction(old(rows) - pruned, rows, mount, ok - PathsOfKeys(pruned), maxBytes, order)
        && files == old(files) - PathsOfKeys(pruned)
             - FileSet(Victims(order, ok - PathsOfKeys(pruned), Over(Sum(old(rows) - pruned), maxBytes)))
      ensures TakesExpiredFirst(old(rows), rows, mount, old(files).Keys - stuck, now, expirySecs, maxBytes)
      ensures OldestFirst(old(rows), rows, mount, old(files).Keys - stuck, now, expirySecs)
      ensures Sum(old(rows)) <= maxBytes ==> forall k :: k in KeysOfMount(old(rows), mount) ==>
                (k !in rows <==> expirySecs != 0 && old(rows)[k].lastHit + expirySecs < now && k.0 in old(files) && k.0 !in stuck)
      ensures FilesGoWithRows(old(rows), rows, old(files), files, mount)
      ensures OtherMountsKept(old(rows), rows, mount)
      ensures (forall k :: k in KeysOfMount(old(rows), mount) ==> k.0 in old(files) && k.0 !in stuck) ==>
                && BroughtWithin(old(rows), rows, mount, maxBytes)
                && (expirySecs != 0 ==> forall k :: k in KeysOfMount(rows, mount) ==> rows[k].lastHit >= ExpiryCutoff(now, expirySecs))
    {
      reclaimed := 0;
      if expirySecs != 0 { reclaimed := EvictExpired(now, stuck); }
      ghost var pruned := PrunedKeys(old(rows), mount, now, expirySecs, old(files).Keys - stuck);
      assert rows == old(rows) - pruned && files == old(files) - PathsOfKeys(pruned);
      ghost var mid, ok := rows, files.Keys - stuck;
      assert ok == old(files).Keys - stuck - PathsOfKeys(pruned);
      var total := TotalCachedBytesGlobal();
      var cands := EvictionCandidates();
      order := cands;
      var more := EvictOverBudget(cands, total, stuck);
      reclaimed := reclaimed + more;
      EvictionEffect(mid, rows, mount, ok, maxBytes, order);
      ExpiredGoFirst(old(rows), rows, mount, old(files).Keys - stuck, now, expirySecs, maxBytes, order);
      EvictionFiles(old(rows), pruned, old(files), mount, order, ok, Over(Sum(mid), maxBytes));
      if forall k :: k in KeysOfMount(old(rows), mount) ==> k.0 in old(files) && k.0 !in stuck {
        EvictionBringsWithin(old(rows), pruned, rows, mount, ok, maxBytes, order);
      }
    }

    /** Makes room for `pending` bytes, oldest first. */
    method EvictToFit(pending: nat, stuck: set<Path>) returns (freed: nat, ghost order: seq<Candidate>)
      modifies this`rows, this`files
      ensures IsEviction(old(rows), rows, mount, old(files).Keys - stuck, FitTarget(maxBytes, pending), order)
      ensures var v := Victims(order, old(files).Keys - stuck, Over(Sum(old(rows)), FitTarget(maxBytes, pending)));
        freed == Sizes(v) && files == old(files) - FileSet(v)
      ensures Sum(old(rows)) == Sum(rows) + freed
      ensures MakesRoom(old(rows), rows, mount, old(files).Keys - stuck, maxBytes, pending)
      ensures FilesGoWithRows(old(rows), rows, old(files), files, mount)
    {
      var globalTotal: nat := TotalCachedBytesGlobal();
      var target := FitTarget(maxBytes, pending);
      var cands := EvictionCandidates();
      order := cands;
      if globalTotal <= target {
        NothingTaken(rows, files, mount);
        assert Victims(cands, files.Keys - stuck, 0) == [];
        assert Over(Sum(rows), target) == 0;
        FitMakesRoom(rows, rows, mount, files.Keys - stuck, maxBytes, pending, order);
        return 0, order;
      }
      freed := FreeOldest(cands, globalTotal - target, stuck);
      EvictionEffect(old(rows), rows, mount, old(files).Keys - stuck, target, order);
      FitMakesRoom(old(rows), rows, mount, old(files).Keys - stuck, maxBytes, pending, order);
      FitFiles(old(rows), old(files), mount, order, old(files).Keys - stuck, Over(Sum(old(rows)), target));
    }

    /** The loop of `EvictToFit`: oldest rows go until `need` bytes are freed. */
    method FreeOldest(cands: seq<Candidate>, need: nat, stuck: set<Path>) returns (freed: nat)
      requires Lists(cands, rows, mount)
      modifies this`rows, this`files
      ensures var v := Victims(cands, old(files).Keys - stuck, need);
        && rows == old(rows) - KeySet(v, mount) && files == old(files) - FileSet(v)
        && freed == Sizes(v)
    {
      freed := 0;
      ghost var ok := files.Keys - stuck;
      ghost var gone: seq<Candidate> := [];
      MidwayStart(rows, files, mount, cands, ok, need);
      var i := 0;
      while i < |cands| && freed < need
        invariant i <= |cands|
        invariant Midway(old(rows), old(files), rows, files, mount, cands, ok, need, i, gone, Over(need, freed))
        invariant freed == Sizes(gone)
      {
        var (path, size) := cands[i];
        ghost var r, f := rows, files;
        var deleted := TryEvict(path, stuck);
        if deleted {
          MidwayTake(old(rows), old(files), r, f, mount, cands, ok, need, i, gone, need - freed);
          freed := freed + size;
          gone := gone + [cands[i]];
        } else {
          MidwaySkip(old(rows), old(files), r, f, mount, cands, ok, need, i, gone, need - freed);
        }
        i := i + 1;
      }
      MidwayDone(old(rows), old(files), rows, files, mount, cands, ok, need, i, gone, Over(need, freed));
    }

    /** Checks every row of the mount against the backing store; rows that fail it go even when their
        file cannot be deleted. */
    method SweepStale(live: map<Path, Stat>, now: nat, stuck: set<Path>) returns (checked: nat, dropped: nat)
      modifies this`rows, this`files
      ensures rows == Swept(old(rows), mount, live, now)
      ensures files == old(files) - (PathsOfKeys(DroppedKeys(old(rows), mount, live)) - stuck)
      ensures SweepsAsChecked(old(rows), rows, mount, live)
      ensures forall p :: p in files <==> p in old(files) && !((p, mount) in old(rows) && (p, mount) !in rows && p !in stuck)
      ensures checked == |KeysOfMount(old(rows), mount)| && dropped == |DroppedKeys(old(rows), mount, live)|
    {
      checked, dropped := 0, 0;
      var keys := AllFingerprints();
      ghost var s0 := SweepState(rows, files, 0);
      while checked < |keys|
        invariant checked <= |keys|
        invariant SweepState(rows, files, dropped) == SweptIn(s0, keys[..checked], live, now, stuck)
      {
        assert keys[checked] in keys;
        LaterRowsWait(s0, keys, checked, live, now, stuck);
        var drops := SweepRow(keys[checked], live, now, stuck);
        if drops { dropped := dropped + 1; }
        assert keys[..checked + 1][..checked] == keys[..checked];
        checked := checked + 1;
      }
      assert keys[..|keys|] == keys;
      SweptInAll(s0, keys, live, now, stuck, mount);
      SweptAsChecked(old(rows), mount, live, now);
      DroppedFiles(old(rows), old(files), mount, live, now, stuck);
    }

    method AllFingerprints() returns (keys: seq<RowKey>)
      ensures forall k :: k in keys <==> k in KeysOfMount(rows, mount)
      ensures forall i, j :: 0 <= i < j < |keys| ==> keys[i] != keys[j]
    {
      keys := [];
      var todo := set k | k in rows && k.1 == mount;
      while todo != {}
        invariant todo <= KeysOfMount(rows, mount)
        invariant forall k :: k in keys <==> k in KeysOfMount(rows, mount) && k !in todo
        invariant forall i, j :: 0 <= i < j < |keys| ==> keys[i] != keys[j]
      {
        var k :| k in todo;
        todo := todo - {k};
        keys := keys + [k];
      }
    }

    method SweepRow(k: RowKey, live: map<Path, Stat>, now: nat, stuck: set<Path>) returns (drops: bool)
      requires k in rows && k.1 == mount
      modifies this`rows, this`files
      ensures drops == Drops(old(rows)[k], LiveOf(live, k.0))
      ensures rows == if drops then old(rows) - {k} else old(rows)[k := SweptRow(old(rows)[k], LiveOf(live, k.0), now)]
      ensures files == if drops && k.0 !in stuck then old(files) - {k.0} else old(files)
    {
      drops := false;
      match CheckRow(rows[k], LiveOf(live, k.0)) {
        case Fresh(st) => RefreshSourceMetadata(k, st);
        case NeedsBackfill(st) => rows := rows[k := CachedRow(st, now)];
        case NotTracked =>
        case _ =>
          DropStale(k.0, stuck);
          drops := true;
      }
    }

    method RefreshSourceMetadata(k: RowKey, live: Stat)
      modifies this`rows
      ensures rows == if k in old(rows) then old(rows)[k := Refreshed(old(rows)[k], live)] else old(rows)
    {
      if k !in rows { return; }
      var row := rows[k];
      if row.mtime == ZERO_STAMP || !ContentMatches(row, live) || SnapshotMatches(row, live) { return; }
      rows := rows[k := SourceUpdated(row, live)];
    }

    method IsStale(path: Path, live: Option<Stat>) returns (answer: StaleResult)
      ensures (path, mount) !in rows ==> answer.NotTracked?
      ensures (path, mount) in rows ==> answer == CheckRow(rows[(path, mount)], live)
    {
      answer := if (path, mount) in rows then CheckRow(rows[(path, mount)], live) else NotTracked;
    }

    method MarkCached(path: Path, source: Stat, now: nat)
      modifies this`rows
      ensures rows == old(rows)[(path, mount) := CachedRow(source, now)]
    {
      rows := rows[(path, mount) := CachedRow(source, now)];
    }

    method DropStale(path: Path, stuck: set<Path>)
      modifies this`rows, this`files
      ensures rows == old(rows) - {(path, mount)}
      ensures files == if path in stuck then old(files) else old(files) - {path}
    {
      if path !in stuck { files := files - {path}; }
      rows := rows - {(path, mount)};
    }

    /** Removes leftover working files, then rows without files, then adds rows for files without. */
    method ReconcileWithDisk(now: nat, stuck: set<Path>)
      modifies this`rows, this`files
      ensures files == WithoutPartials(old(files), stuck)
      ensures rows == Reconciled(old(rows), mount, files, dirs, now)
      ensures OnlyPartialsGo(old(files), files, stuck)
      ensures RowsFollowFiles(old(rows), rows, mount, old(files), dirs, stuck, now)
    {
      RemovePartials(stuck);
      RemoveOrphans();
      InsertUnlisted(now);
      PartialsGone(old(files), stuck);
      ReconciledFollows(old(rows), mount, old(files), dirs, stuck, now);
    }

    method RemoveOrphans()
      modifies this`rows
      ensures rows == old(rows) - Orphans(old(rows), mount, files, dirs)
    {
      var keys := set k | k in rows && k.1 == mount;
      var todo := keys;
      while todo != {}
        invariant todo <= keys && keys == KeysOfMount(old(rows), mount)
        invariant rows == old(rows) - set k | k in keys - todo && !Exists(files, dirs, k.0)
      {
        var k :| k in todo;
        todo := todo - {k};
        if !Exists(files, dirs, k.0) {
          assert (set j | j in keys - todo && !Exists(files, dirs, j.0)) == (set j | j in keys - todo - {k} && !Exists(files, dirs, j.0)) + {k};
          rows := rows - {k};
        } else {
          assert (set j | j in keys - todo && !Exists(files, dirs, j.0)) == (set j | j in keys - todo - {k} && !Exists(files, dirs, j.0));
        }
      }
    }

    method RemovePartials(stuck: set<Path>)
      modifies this`files
      ensures files == WithoutPartials(old(files), stuck)
    {
      var all := files.Keys;
      var todo := all;
      while todo != {}
        invariant todo <= all == old(files).Keys
        invariant files == map p | p in old(files) && !(p !in todo && HasPartialExtension(p) && p !in stuck) :: old(files)[p]
      {
        var p :| p in todo;
        todo := todo - {p};
        if HasPartialExtension(p) && p !in stuck { files := files - {p}; }
      }
    }

    method InsertUnlisted(now: nat)
      modifies this`rows
      ensures rows == old(rows) + (UnlistedAreFiles(old(rows), mount, files); RecoveredRows(Unlisted(old(rows), mount, files), files, now))
    {
      var onDisk := set p | p in files && !IsNonMedia(p);
      var todo := onDisk;
      while todo != {}
        invariant todo <= onDisk
        invariant forall k :: k in rows <==> k in old(rows) || (k.1 == mount && k.0 in onDisk - todo)
        invariant forall k :: k in old(rows) ==> rows[k] == old(rows)[k]
        invariant forall k :: k in rows && k !in old(rows) ==> rows[k] == RecoveredRow(files[k.0], now)
      {
        var p :| p in todo;
        todo := todo - {p};
        if (p, mount) !in rows { rows := rows[(p, mount) := RecoveredRow(files[p], now)]; }
      }
      UnlistedAreFiles(old(rows), mount, files);
      assert forall k :: k in Unlisted(old(rows), mount, files) <==> k !in old(rows) && k.1 == mount && k.0 in onDisk;
    }
  }

  datatype SweepState = SweepState(rows: Table, files: map<Path, nat>, dropped: nat)

  function SweptOne(s: SweepState, k: RowKey, live: map<Path, Stat>, now: nat, stuck: set<Path>): SweepState {
    if k !in s.rows then s
    else if Drops(s.rows[k], LiveOf(live, k.0)) then
      SweepState(s.rows - {k}, if k.0 in stuck then s.files else s.files - {k.0}, s.dropped + 1)
    else s.(rows := s.rows[k := SweptRow(s.rows[k], LiveOf(live, k.0), now)])
  }

  function SweptIn(s: SweepState, order: seq<RowKey>, live: map<Path, Stat>, now: nat, stuck: set<Path>): SweepState {
    if order == [] then s else SweptOne(SweptIn(s, order[..|order| - 1], live, now, stuck), order[|order| - 1], live, now, stuck)
  }

  /** A row whose turn has not come is as it was. */
  lemma LaterRowsWait(s: SweepState, keys: seq<RowKey>, n: nat, live: map<Path, Stat>, now: nat, stuck: set<Path>)
    requires n < |keys| && keys[n] in s.rows && forall i, j :: 0 <= i < j < |keys| ==> keys[i] != keys[j]
    ensures var r := SweptIn(s, keys[..n], live, now, stuck); keys[n] in r.rows && r.rows[keys[n]] == s.rows[keys[n]]
  {
    LaterRowWaits(s, keys[..n], keys[n], live, now, stuck);
  }

  lemma {:induction false} LaterRowWaits(s: SweepState, order: seq<RowKey>, k: RowKey, live: map<Path, Stat>, now: nat, stuck: set<Path>)
    requires k in s.rows && k !in order
    ensures var r := SweptIn(s, order, live, now, stuck); k in r.rows && r.rows[k] == s.rows[k]
  {
    if order != [] { LaterRowWaits(s, order[..|order| - 1], k, live, now, stuck); }
  }

  /** The state of a sweep that has done `done`, in whatever order. */
  ghost predicate PartSwept(s: SweepState, r: SweepState, done: set<RowKey>, live: map<Path, Stat>, now: nat, stuck: set<Path>) {
    && r.rows == SweptSoFar(s.rows, done, live, now)
    && r.files == s.files - (PathsOfKeys(DroppedAmong(s.rows, done, live)) - stuck)
    && r.dropped == |DroppedAmong(s.rows, done, live)|
  }

  lemma PartSweptStep(s: SweepState, r: SweepState, done: set<RowKey>, k: RowKey, live: map<Path, Stat>, now: nat, stuck: set<Path>)
    requires PartSwept(s, r, done, live, now, stuck) && k in s.rows && k !in done
    ensures PartSwept(s, SweptOne(r, k, live, now, stuck), done + {k}, live, now, stuck)
  {
    SweptOneMore(s.rows, done, k, live, now);
    DroppedOneMore(s.rows, s.files, done, k, live, stuck);
  }

  function KeySetOf(order: seq<RowKey>): set<RowKey> { set k | k in order }

  lemma {:induction false} SweptInPart(s: SweepState, order: seq<RowKey>, live: map<Path, Stat>, now: nat, stuck: set<Path>)
    requires s.dropped == 0 && forall k :: k in order ==> k in s.rows
    requires forall i, j :: 0 <= i < j < |order| ==> order[i] != order[j]
    ensures PartSwept(s, SweptIn(s, order, live, now, stuck), KeySetOf(order), live, now, stuck)
    ensures |KeySetOf(order)| == |order|
  {
    if order == [] {
      assert KeySetOf(order) == {} && DroppedAmong(s.rows, {}, live) == {};
      assert SweptSoFar(s.rows, {}, live, now) == s.rows && s.files - ({} - stuck) == s.files && PathsOfKeys({}) == {};
    } else {
      var front, last := order[..|order| - 1], order[|order| - 1];
      SweptInPart(s, front, live, now, stuck);
      assert order == front + [last];
      assert KeySetOf(order) == KeySetOf(front) + {last};
      PartSweptStep(s, SweptIn(s, front, live, now, stuck), KeySetOf(front), last, live, now, stuck);
    }
  }

  lemma SweptInAll(s: SweepState, order: seq<RowKey>, live: map<Path, Stat>, now: nat, stuck: set<Path>, mount: Mount)
    requires s.dropped == 0 && forall k :: k in order <==> k in KeysOfMount(s.rows, mount)
    requires forall i, j :: 0 <= i < j < |order| ==> order[i] != order[j]
    ensures var r := SweptIn(s, order, live, now, stuck);
      && r.rows == Swept(s.rows, mount, live, now)
      && r.files == s.files - (PathsOfKeys(DroppedKeys(s.rows, mount, live)) - stuck)
      && r.dropped == |DroppedKeys(s.rows, mount, live)|
      && |order| == |KeysOfMount(s.rows, mount)|
  {
    SweptInPart(s, order, live, now, stuck);
    assert KeySetOf(order) == KeysOfMount(s.rows, mount);
    assert DroppedAmong(s.rows, KeysOfMount(s.rows, mount), live) == DroppedKeys(s.rows, mount, live);
  }

  /** The table with only some of the mount's rows swept. */
  ghost function SweptSoFar(rows: Table, done: set<RowKey>, live: map<Path, Stat>, now: nat): Table {
    map k | k in rows && !(k in done && Drops(rows[k], LiveOf(live, k.0))) ::
      if k in done then SweptRow(rows[k], LiveOf(live, k.0), now) else rows[k]
  }

  lemma SweptOneMore(rows: Table, done: set<RowKey>, k: RowKey, live: map<Path, Stat>, now: nat)
    requires k in rows && k !in done
    ensures k in SweptSoFar(rows, done, live, now) && SweptSoFar(rows, done, live, now)[k] == rows[k]
    ensures SweptSoFar(rows, done + {k}, live, now) ==
              if Drops(rows[k], LiveOf(live, k.0)) then SweptSoFar(rows, done, live, now) - {k}
              else SweptSoFar(rows, done, live, now)[k := SweptRow(rows[k], LiveOf(live, k.0), now)]
  {
  }

  ghost function DroppedAmong(rows: Table, done: set<RowKey>, live: map<Path, Stat>): set<RowKey> {
    set k | k in done && k in rows && Drops(rows[k], LiveOf(live, k.0))
  }

  lemma DroppedOneMore(rows: Table, files: map<Path, nat>, done: set<RowKey>, k: RowKey, live: map<Path, Stat>, stuck: set<Path>)
    requires k in rows && k !in done
    ensures var before, after := DroppedAmong(rows, done, live), DroppedAmong(rows, done + {k}, live);
      if Drops(rows[k], LiveOf(live, k.0)) then
        && after == before + {k} && k !in before
        && files - (PathsOfKeys(after) - stuck) ==
             if k.0 in stuck then files - (PathsOfKeys(before) - stuck) else files - (PathsOfKeys(before) - stuck) - {k.0}
      else after == before
  {
  }

  /** Making room for nothing is the size phase: unless rows of equal `last_hit_at` come in another
      order, both leave the same rows, whichever deletes fail. */
  lemma FitZeroIsSizePhase(rows: Table, fit: Table, sized: Table, mount: Mount, ok: set<Path>, maxBytes: nat, a: seq<Candidate>, b: seq<Candidate>)
    requires IsEviction(rows, fit, mount, ok, FitTarget(maxBytes, 0), a)
    requires IsEviction(rows, sized, mount, ok, maxBytes, b)
    requires a == b || DistinctHits(rows, mount)
    ensures fit == sized
  {
    if a != b { OneCandidateList(rows, mount, a, b); }
  }

  /** A list of the oldest rows taken so far, with `left` still to be listed. */
  ghost predicate IsPartOfList(cands: seq<Candidate>, left: set<Path>, rows: Table, mount: Mount) {
    && (forall p :: p in left ==> (p, mount) in rows && p !in FileSet(cands))
    && Lists(cands, rows, mount)
    && (forall i, j :: 0 <= i < j < |cands| ==> rows[(cands[i].0, mount)].lastHit <= rows[(cands[j].0, mount)].lastHit)
    && (forall i, p :: 0 <= i < |cands| && p in left ==> rows[(cands[i].0, mount)].lastHit <= rows[(p, mount)].lastHit)
  }

  lemma ListGrows(cands: seq<Candidate>, left: set<Path>, rows: Table, mount: Mount, p: Path)
    requires IsPartOfList(cands, left, rows, mount) && p in left
    requires forall q :: q in left ==> rows[(p, mount)].lastHit <= rows[(q, mount)].lastHit
    ensures IsPartOfList(cands + [(p, rows[(p, mount)].size)], left - {p}, rows, mount)
  {
  }

  /** The table and the directory after taking the victims one by one. */
  function TableAfter(rows: Table, gone: seq<Candidate>, mount: Mount): Table {
    if gone == [] then rows else TableAfter(rows, gone[..|gone| - 1], mount) - {(gone[|gone| - 1].0, mount)}
  }

  function FilesAfter(files: map<Path, nat>, gone: seq<Candidate>): map<Path, nat> {
    if gone == [] then files else FilesAfter(files, gone[..|gone| - 1]) - {gone[|gone| - 1].0}
  }

  lemma {:induction false} AfterIsWithout(rows: Table, files: map<Path, nat>, gone: seq<Candidate>, mount: Mount)
    ensures TableAfter(rows, gone, mount) == rows - KeySet(gone, mount)
    ensures FilesAfter(files, gone) == files - FileSet(gone)
  {
    if gone == [] {
      assert KeySet([], mount) == {} && FileSet([]) == {};
    } else {
      var front, last := gone[..|gone| - 1], gone[|gone| - 1];
      AfterIsWithout(rows, files, front, mount);
      SetsAppend(front, last, mount);
      assert gone == front + [last];
      assert rows - KeySet(front, mount) - {(last.0, mount)} == rows - (KeySet(front, mount) + {(last.0, mount)});
      assert files - FileSet(front) - {last.0} == files - (FileSet(front) + {last.0});
    }
  }

  /** What is still listed names rows still there, and files there if they were at the start. */
  ghost predicate StillListed(cands: seq<Candidate>, i: nat, startFiles: map<Path, nat>, rows: Table, files: map<Path, nat>, mount: Mount) {
    forall j :: i <= j < |cands| ==>
      && (cands[j].0, mount) in rows && rows[(cands[j].0, mount)].size == cands[j].1
      && (cands[j].0 in files <==> cands[j].0 in startFiles)
  }

  /** An eviction loop before its `i`th candidate: `gone` are the victims so far, `left` the bytes
      still to free. */
  ghost predicate Midway(start: Table, startFiles: map<Path, nat>, rows: Table, files: map<Path, nat>, mount: Mount,
                         cands: seq<Candidate>, ok: set<Path>, need: nat, i: nat, gone: seq<Candidate>, left: nat)
  {
    && i <= |cands| && DistinctFiles(cands)
    && Victims(cands, ok, need) == gone + Victims(cands[i..], ok, left)
    && rows == TableAfter(start, gone, mount) && files == FilesAfter(startFiles, gone)
    && StillListed(cands, i, startFiles, rows, files, mount)
    && Sum(start) == Sum(rows) + Sizes(gone)
  }

  lemma MidwayStart(start: Table, files: map<Path, nat>, mount: Mount, cands: seq<Candidate>, ok: set<Path>, need: nat)
    requires Lists(cands, start, mount)
    ensures Midway(start, files, start, files, mount, cands, ok, need, 0, [], need)
  {
  }

  lemma OverShift(total: nat, target: nat, size: nat)
    requires total > target && total >= size
    ensures Over(total - target, size) == Over(total - size, target)
  {
  }

  lemma NothingTaken(rows: Table, files: map<Path, nat>, mount: Mount)
    ensures rows - KeySet([], mount) == rows && files - FileSet([]) == files
  {
  }

  lemma MidwaySkip(start: Table, startFiles: map<Path, nat>, rows: Table, files: map<Path, nat>, mount: Mount,
                   cands: seq<Candidate>, ok: set<Path>, need: nat, i: nat, gone: seq<Candidate>, left: nat)
    requires Midway(start, startFiles, rows, files, mount, cands, ok, need, i, gone, left)
    requires i < |cands| && left > 0 && cands[i].0 !in ok
    ensures Midway(start, startFiles, rows, files, mount, cands, ok, need, i + 1, gone, left)
  {
  }

  lemma MidwayTake(start: Table, startFiles: map<Path, nat>, rows: Table, files: map<Path, nat>, mount: Mount,
                   cands: seq<Candidate>, ok: set<Path>, need: nat, i: nat, gone: seq<Candidate>, left: nat)
    requires Midway(start, startFiles, rows, files, mount, cands, ok, need, i, gone, left)
    requires i < |cands| && left > 0 && cands[i].0 in ok
    ensures var c, k := cands[i], (cands[i].0, mount);
      && Sum(rows) == c.1 + Sum(rows - {k}) && Sizes(gone + [c]) == Sizes(gone) + c.1
      && Midway(start, startFiles, rows - {k}, files - {c.0}, mount, cands, ok, need, i + 1, gone + [c], Over(left, c.1))
  {
    var c := cands[i];
    TakeVictim(cands, ok, need, i, gone, left);
    SizesAppend(gone, c);
    SumWithout(rows, (c.0, mount));
    TakeListed(cands, i, startFiles, rows, files, mount);
    AfterOneMore(start, startFiles, gone, c, mount);
  }

  lemma AfterOneMore(rows: Table, files: map<Path, nat>, gone: seq<Candidate>, c: Candidate, mount: Mount)
    ensures TableAfter(rows, gone + [c], mount) == TableAfter(rows, gone, mount) - {(c.0, mount)}
    ensures FilesAfter(files, gone + [c]) == FilesAfter(files, gone) - {c.0}
  {
  }

  lemma TakeListed(cands: seq<Candidate>, i: nat, startFiles: map<Path, nat>, rows: Table, files: map<Path, nat>, mount: Mount)
    requires i < |cands| && DistinctFiles(cands) && StillListed(cands, i, startFiles, rows, files, mount)
    ensures StillListed(cands, i + 1, startFiles, rows - {(cands[i].0, mount)}, files - {cands[i].0}, mount)
  {
  }

  lemma TakeVictim(cands: seq<Candidate>, ok: set<Path>, need: nat, i: nat, gone: seq<Candidate>, left: nat)
    requires i < |cands| && left > 0 && cands[i].0 in ok
    requires Victims(cands, ok, need) == gone + Victims(cands[i..], ok, left)
    ensures Victims(cands, ok, need) == (gone + [cands[i]]) + Victims(cands[i + 1..], ok, Over(left, cands[i].1))
  {
  }

  lemma MidwayDone(start: Table, startFiles: map<Path, nat>, rows: Table, files: map<Path, nat>, mount: Mount,
                   cands: seq<Candidate>, ok: set<Path>, need: nat, i: nat, gone: seq<Candidate>, left: nat)
    requires Midway(start, startFiles, rows, files, mount, cands, ok, need, i, gone, left)
    requires i == |cands| || left == 0
    ensures gone == Victims(cands, ok, need)
    ensures rows == start - KeySet(Victims(cands, ok, need), mount) && files == startFiles - FileSet(Victims(cands, ok, need))
  {
    AfterIsWithout(start, startFiles, gone, mount);
  }

  lemma TakeKey(rows: Table, files: map<Path, nat>, gone: set<RowKey>, k: RowKey)
    ensures rows - gone - {k} == rows - (gone + {k})
    ensures files - PathsOfKeys(gone) - {k.0} == files - PathsOfKeys(gone + {k})
  {
  }
}
