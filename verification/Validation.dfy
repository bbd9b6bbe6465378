/** What a validation does with each answer of the staleness check, and the replacement it asks for. */
module Validation {
  import opened Options
  import opened Paths
  import opened CacheRows
  import opened CacheTable
  import opened CacheManager
  import opened Pipeline

  /** The cache directory answers for a path unless it is named like a working file. */
  predicate IsCached(files: map<Path, nat>, dirs: set<Path>, p: Path) {
    (p in files || p in dirs) && !HasPartialExtension(p)
  }

  class Validator {
    const pipeline: PipelineState
    const manager: Manager

    constructor (pipeline: PipelineState, manager: Manager)
      ensures this.pipeline == pipeline && this.manager == manager
    {
      this.pipeline, this.manager := pipeline, manager;
    }

    /** Acts on the answer, then the validation is no longer known. */
    method Validate(path: Path, live: Option<Stat>, now: nat, stuck: set<Path>)
      requires pipeline.Valid()
      modifies pipeline, manager`rows, manager`files
      ensures pipeline.Valid()
      ensures CacheSettles(old(manager.rows), manager.rows, old(manager.files), manager.files, (path, manager.mount), live, stuck)
      ensures (path, Kind.Validate) !in pipeline.known
      ensures (path, Replace) in pipeline.known <==> (path, Replace) in old(pipeline.known) || ContentChanged(old(manager.rows), (path, manager.mount), live)
      ensures forall key: Key :: key.0 != path || key.1 == Populate ==> (key in pipeline.known <==> key in old(pipeline.known))
      ensures pipeline.queue == old(pipeline.queue) +
                if ContentChanged(old(manager.rows), (path, manager.mount), live) && (path, Replace) !in old(pipeline.known)
                then [Job(path, Replace, now, old(pipeline.nextTicket))] else []
    {
      Act(path, live, now, stuck);
      pipeline.FinishKnown(path, Kind.Validate);
    }

    method Act(path: Path, live: Option<Stat>, now: nat, stuck: set<Path>)
      requires pipeline.Valid()
      modifies pipeline, manager`rows, manager`files
      ensures pipeline.Valid()
      ensures CacheSettles(old(manager.rows), manager.rows, old(manager.files), manager.files, (path, manager.mount), live, stuck)
      ensures pipeline.known.Keys == old(pipeline.known).Keys +
                if ContentChanged(old(manager.rows), (path, manager.mount), live) then {(path, Replace)} else {}
      ensures pipeline.queue == old(pipeline.queue) +
                if ContentChanged(old(manager.rows), (path, manager.mount), live) && (path, Replace) !in old(pipeline.known)
                then [Job(path, Replace, now, old(pipeline.nextTicket))] else []
    {
      var answer := manager.IsStale(path, live);
      match answer {
        case Fresh(st) =>
          manager.RefreshSourceMetadata((path, manager.mount), st);
          RefreshedRow(old(manager.rows)[(path, manager.mount)], st);
        case NotTracked =>
        case NeedsBackfill(st) => manager.MarkCached(path, st, now);
        case BackingGone => manager.DropStale(path, stuck);
        case Stale =>
          var admitted := pipeline.Submit(path, Replace, IsCached(manager.files, manager.dirs, path), now);
      }
    }
  }

  /** The row has a fingerprint, and what the path shows differs from it in mtime or size. */
  predicate ContentChanged(rows: Table, k: RowKey, live: Option<Stat>) {
    k in rows && live.Some? && rows[k].mtime != ZERO_STAMP && (rows[k].mtime != live.value.mtime || rows[k].size != live.value.size)
  }

  /** What becomes of the row and its file: gone if the path is; left alone until replaced if the
      content has changed; else the row ends up with everything the path shows. Nothing else changes. */
  ghost predicate CacheSettles(rows: Table, rows': Table, files: map<Path, nat>, files': map<Path, nat>, k: RowKey, live: Option<Stat>, stuck: set<Path>) {
    && (rows' - {k} == rows - {k})
    && (k !in rows || ContentChanged(rows, k, live) ==> rows' == rows && files' == files)
    && (k in rows && live.None? ==> k !in rows' && files' == if k.0 in stuck then files else files - {k.0})
    && (k in rows && live.Some? && !ContentChanged(rows, k, live) ==>
          && files' == files && k in rows'
          && rows'[k].mtime == live.value.mtime && rows'[k].size == live.value.size && rows'[k].attrs == live.value.attrs)
  }
}
