/** The metadata row of a cached file and the answers of the staleness check. */
module CacheRows {
  import opened Options

  datatype Stamp = Stamp(secs: int, nsecs: int)

  const ZERO_STAMP: Stamp := Stamp(0, 0)

  datatype Attrs = Attrs(mode: nat, uid: nat, gid: nat, nlink: nat, ctime: Stamp)

  const NO_ATTRS: Attrs := Attrs(0, 0, 0, 0, ZERO_STAMP)

  /** What a stat of a backing file reports. */
  datatype Stat = Stat(mtime: Stamp, size: nat, attrs: Attrs)

  datatype Row = Row(size: nat, cachedAt: nat, lastHit: nat, hits: nat, mtime: Stamp, sourceSize: nat, attrs: Attrs)

  datatype StaleResult = Fresh(live: Stat) | Stale | BackingGone | NotTracked | NeedsBackfill(live: Stat)

  /** The row written after a copy, or to backfill an old row. */
  function CachedRow(source: Stat, now: nat): Row {
    Row(source.size, now, now, 1, source.mtime, source.size, source.attrs)
  }

  /** The row made for a file found on disk without one. */
  function RecoveredRow(size: nat, now: nat): Row {
    Row(size, now, now, 0, ZERO_STAMP, 0, NO_ATTRS)
  }

  /** The update that leaves `size` and the access columns alone. */
  function SourceUpdated(row: Row, source: Stat): Row {
    row.(mtime := source.mtime, sourceSize := source.size, attrs := source.attrs)
  }

  function HitRow(row: Row, now: nat): Row {
    row.(lastHit := now, hits := row.hits + 1)
  }

  predicate ContentMatches(row: Row, live: Stat) {
    row.mtime == live.mtime && row.size == live.size
  }

  predicate SnapshotMatches(row: Row, live: Stat) {
    row.attrs.mode != 0 && row.attrs == live.attrs
  }

  function CheckRow(row: Row, live: Option<Stat>): StaleResult {
    if live.None? then BackingGone
    else if row.mtime == ZERO_STAMP then NeedsBackfill(live.value)
    else if ContentMatches(row, live.value) then Fresh(live.value)
    else Stale
  }

  /** Whether a metadata refresh goes on to write, given the row it reads. */
  predicate RefreshApplies(row: Row, live: Stat) {
    row.mtime != ZERO_STAMP && ContentMatches(row, live) && !SnapshotMatches(row, live)
  }

  function Refreshed(row: Row, live: Stat): Row {
    if RefreshApplies(row, live) then SourceUpdated(row, live) else row
  }

  /** A refresh never turns one answer of the check into another. */
  lemma RefreshKeepsAnswer(row: Row, live: Stat, later: Option<Stat>)
    ensures CheckRow(Refreshed(row, live), later) == CheckRow(row, later)
  {
  }

  /** A row written from one stat is fresh against another exactly when there is one and it has the
      same mtime and size; attributes do not count. */
  lemma CachedRowAnswers(source: Stat, now: nat, live: Option<Stat>)
    ensures var answer := CheckRow(CachedRow(source, now), live);
      if live.None? then answer.BackingGone?
      else if source.mtime == ZERO_STAMP then answer == NeedsBackfill(live.value)
      else if live.value.mtime == source.mtime && live.value.size == source.size then answer == Fresh(live.value)
      else answer.Stale?
  {
  }

  /** A hit changes no answer and none of what the source reported. */
  lemma HitKeepsAnswer(row: Row, now: nat, live: Option<Stat>)
    ensures CheckRow(HitRow(row, now), live) == CheckRow(row, live)
    ensures HitRow(row, now) == row.(lastHit := now, hits := row.hits + 1)
  {
  }

  /** A refresh of a fingerprinted row whose content matches leaves it with the live attributes; any
      other row it leaves alone. Size, mtime and the access columns stay. */
  lemma RefreshedRow(row: Row, live: Stat)
    ensures var r := Refreshed(row, live);
      && (row.mtime != ZERO_STAMP && row.mtime == live.mtime && row.size == live.size ==> r.attrs == live.attrs)
      && (!(row.mtime != ZERO_STAMP && row.mtime == live.mtime && row.size == live.size) ==> r == row)
      && r.(attrs := row.attrs, sourceSize := row.sourceSize) == row
  {
  }
}
