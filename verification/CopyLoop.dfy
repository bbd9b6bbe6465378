/** One copy from the backing store into the cache: the chunk loop, the final check, the commit and
    the clean-up, against a backing path that may change at any instant meanwhile. */
module CopyLoop {
  import opened Options
  import opened Paths
  import opened CacheRows
  import opened Backing

  datatype Result<+T> = Ok(value: T) | Err

  datatype Shown = Shown(version: Version, attrs: Attrs) {
    function AsStat(): Stat { StatOf(version, attrs) }
  }

  /** One pass of the loop: bytes read at an instant (none at the end of the file), and whether
      writing them out succeeded; or a failed read. */
  datatype Pass = Chunk(at: nat, data: Bytes, written: bool) | ReadFailed

  /** Everything a copy meets: what the path shows at each instant, when the source is opened and
      finally stat'ed, what each pass yields, and which system calls succeed. */
  datatype Env = Env(
    timeline: seq<Option<Shown>>,
    openedAt: nat,
    passes: seq<Pass>,
    checkedAt: nat,
    aborted: bool,
    mkdirOk: bool,
    createOk: bool,
    syncOk: bool,
    applyOk: bool,
    renameOk: bool,
    cleanupOk: bool)

  predicate Ends(pass: Pass) { pass.ReadFailed? || pass.data == [] || !pass.written }

  /** The loop makes passes up to the first that ends it. */
  predicate Feasible(env: Env) {
    && env.openedAt <= env.checkedAt < |env.timeline|
    && env.passes != [] && Ends(env.passes[|env.passes| - 1])
    && (forall i :: 0 <= i < |env.passes| - 1 ==> !Ends(env.passes[i]))
  }

  function Data(passes: seq<Pass>): Bytes {
    if passes == [] then []
    else Data(passes[..|passes| - 1]) + if passes[|passes| - 1].Chunk? then passes[|passes| - 1].data else []
  }

  predicate ReadsAll(env: Env)
    requires Feasible(env)
  {
    var last := env.passes[|env.passes| - 1];
    last.Chunk? && last.data == []
  }

  function FinalStat(env: Env): Option<Stat>
    requires Feasible(env)
  {
    match env.timeline[env.checkedAt]
    case None => None
    case Some(shown) => Some(shown.AsStat())
  }

  /** When a copy commits. */
  predicate Commits(env: Env)
    requires Feasible(env)
  {
    && env.mkdirOk && env.timeline[env.openedAt].Some? && env.createOk && ReadsAll(env) && env.syncOk
    && PassesCheck(env.aborted, env.timeline[env.openedAt].value.AsStat(), FinalStat(env))
    && env.applyOk && env.renameOk
  }

  function Snapshot(env: Env): Stat
    requires Feasible(env) && env.timeline[env.openedAt].Some?
  {
    if FinalStat(env).Some? then FinalStat(env).value else env.timeline[env.openedAt].value.AsStat()
  }

  /** The first and last look at the path agree: it is gone at the last, or shows the same mtime and
      as many bytes. */
  predicate LooksUnchanged(first: Option<Shown>, last: Option<Shown>) {
    first.Some? && last.Some? ==>
      last.value.version.mtime == first.value.version.mtime && |last.value.version.bytes| == |first.value.version.bytes|
  }

  /** A copy commits exactly when every call succeeds, the file is read to its end, no abort is seen,
      and the path looks unchanged. */
  lemma CommitsIff(env: Env)
    requires Feasible(env)
    ensures Commits(env) <==>
      && env.mkdirOk && env.createOk && env.syncOk && env.applyOk && env.renameOk && !env.aborted
      && env.timeline[env.openedAt].Some?
      && env.passes[|env.passes| - 1].Chunk? && env.passes[|env.passes| - 1].data == []
      && LooksUnchanged(env.timeline[env.openedAt], env.timeline[env.checkedAt])
  {
  }

  // ---------------------------------------------------------------- all or nothing

  /** A path that shows one mtime at two instants shows one and the same version in between. */
  ghost predicate NeverReused(timeline: seq<Option<Shown>>) {
    forall i, k, j :: 0 <= i <= k <= j < |timeline| && timeline[i].Some? && timeline[j].Some?
        && timeline[i].value.version.mtime == timeline[j].value.version.mtime
      ==> timeline[k].Some? && timeline[k].value.version == timeline[i].value.version
  }

  /** While the path still shows the version opened, a pass reads that version's next bytes. */
  ghost predicate ReadsShown(env: Env)
    requires Feasible(env) && env.timeline[env.openedAt].Some?
  {
    var v := env.timeline[env.openedAt].value.version;
    forall i :: 0 <= i < |env.passes| && env.passes[i].Chunk? ==>
      && env.openedAt <= env.passes[i].at <= env.checkedAt
      && (env.timeline[env.passes[i].at].Some? && env.timeline[env.passes[i].at].value.version == v ==>
            IsNextOf(v.bytes, Data(env.passes[..i]), env.passes[i].data))
  }

  lemma PassSeesVersion(env: Env, i: nat)
    requires Feasible(env) && env.timeline[env.openedAt].Some? && env.timeline[env.checkedAt].Some?
    requires env.timeline[env.openedAt].value.version.mtime == env.timeline[env.checkedAt].value.version.mtime
    requires NeverReused(env.timeline) && ReadsShown(env) && i < |env.passes| && env.passes[i].Chunk?
    ensures IsNextOf(env.timeline[env.openedAt].value.version.bytes, Data(env.passes[..i]), env.passes[i].data)
  {
  }

  lemma {:induction false} ReadsAreAPrefix(env: Env, n: nat)
    requires Feasible(env) && env.timeline[env.openedAt].Some? && env.timeline[env.checkedAt].Some? && n <= |env.passes|
    requires env.timeline[env.openedAt].value.version.mtime == env.timeline[env.checkedAt].value.version.mtime
    requires NeverReused(env.timeline) && ReadsShown(env)
    ensures Data(env.passes[..n]) <= env.timeline[env.openedAt].value.version.bytes
  {
    if n > 0 {
      ReadsAreAPrefix(env, n - 1);
      assert env.passes[..n][..n - 1] == env.passes[..n - 1];
      if env.passes[n - 1].Chunk? {
        PassSeesVersion(env, n - 1);
        ChunkExtendsPrefix(env.timeline[env.openedAt].value.version.bytes, Data(env.passes[..n - 1]), env.passes[n - 1].data);
      }
    }
  }

  /** Whatever writes fall between its chunk reads: a copy that commits and finds the file at its
      final stat publishes exactly the bytes of the one version it fingerprints. */
  lemma CommitIsOneVersion(env: Env)
    requires Feasible(env) && Commits(env) && env.timeline[env.checkedAt].Some?
    requires NeverReused(env.timeline) && ReadsShown(env)
    ensures var v := env.timeline[env.checkedAt].value.version;
      && Data(env.passes) == v.bytes && Snapshot(env).mtime == v.mtime && Snapshot(env).size == |v.bytes|
      && env.timeline[env.openedAt].value.version == v
  {
    var n := |env.passes|;
    var v, last := env.timeline[env.openedAt].value.version, env.passes[n - 1];
    ReadsAreAPrefix(env, n - 1);
    assert env.timeline[last.at].Some? && env.timeline[last.at].value.version == v;
    assert Data(env.passes) == Data(env.passes[..n - 1]);
  }

  const GONE_MIDWAY: Env :=
    Env([Some(Shown(Version(Stamp(1, 0), [7, 7]), NO_ATTRS)), None], 0, [Chunk(1, [9], true), Chunk(1, [], true)], 1,
        false, true, true, true, true, true, true)

  /** Without a file at the final stat there is no such promise: a file deleted midway is committed
      with bytes of no version, under the fingerprint of the version opened. */
  lemma GoneMidwayCommits()
    ensures Feasible(GONE_MIDWAY) && Commits(GONE_MIDWAY) && NeverReused(GONE_MIDWAY.timeline) && ReadsShown(GONE_MIDWAY)
    ensures Data(GONE_MIDWAY.passes) == [9] && Snapshot(GONE_MIDWAY) == Stat(Stamp(1, 0), 2, NO_ATTRS)
  {
  }

  /** A copy that commits on a given timeline, opened and checked at the given instants. */
  ghost predicate CommitsOn(env: Env, timeline: seq<Option<Shown>>, openedAt: nat, checkedAt: nat) {
    env.timeline == timeline && env.openedAt == openedAt && env.checkedAt == checkedAt && Feasible(env)
    && Commits(env) && ReadsShown(env)
  }

  /** A copy all of whose system calls succeed and that reads one byte, when the check is due. */
  function ReadsLate(timeline: seq<Option<Shown>>, openedAt: nat, checkedAt: nat, byte: Byte): Env {
    Env(timeline, openedAt, [Chunk(checkedAt, [byte], true), Chunk(checkedAt, [], true)], checkedAt,
        false, true, true, true, true, true, true)
  }

  lemma ReadsLateCommits(timeline: seq<Option<Shown>>, openedAt: nat, checkedAt: nat, byte: Byte)
    requires openedAt <= checkedAt < |timeline| && timeline[openedAt].Some? && timeline[checkedAt].None?
    ensures CommitsOn(ReadsLate(timeline, openedAt, checkedAt, byte), timeline, openedAt, checkedAt)
    ensures Data(ReadsLate(timeline, openedAt, checkedAt, byte).passes) == [byte]
  {
    var ps := ReadsLate(timeline, openedAt, checkedAt, byte).passes;
    assert ps[..1] == [ps[0]] && ps[..1][..0] == [];
    assert Data(ps[..1]) == [byte];
  }

  /** Of every history of the path: each copy that commits publishes the version it opened if and only
      if the final stat finds the file. */
  lemma OneVersionIff(timeline: seq<Option<Shown>>, openedAt: nat, checkedAt: nat)
    requires openedAt <= checkedAt < |timeline| && timeline[openedAt].Some? && NeverReused(timeline)
    ensures (forall env :: CommitsOn(env, timeline, openedAt, checkedAt) ==> Data(env.passes) == timeline[openedAt].value.version.bytes)
       <==> timeline[checkedAt].Some?
  {
    if timeline[checkedAt].Some? {
      forall env | CommitsOn(env, timeline, openedAt, checkedAt) ensures Data(env.passes) == timeline[openedAt].value.version.bytes {
        CommitIsOneVersion(env);
      }
    } else {
      var other: Byte := if timeline[openedAt].value.version.bytes == [0] then 1 else 0;
      ReadsLateCommits(timeline, openedAt, checkedAt, other);
      assert [other][0] == other;
    }
  }

  // ---------------------------------------------------------------- the copy itself

  class CacheDir {
    var files: map<Path, Bytes>

    constructor ()
      ensures files == map[]
    {
      files := map[];
    }

    method Remove(path: Path, works: bool)
      modifies this
      ensures files == if works then old(files) - {path} else old(files)
    {
      if works { files := files - {path}; }
    }

    /** A commit returns what the final stat shows, attributes included, or what the first one showed
        if the path is gone; it replaces the destination and leaves no working file. A failure leaves
        every other file as it was, and no working file either if its clean-up delete works. */
    method PerformCopy(dest: Path, env: Env) returns (r: Result<Stat>)
      requires Feasible(env)
      modifies this
      ensures r.Ok? <==> Commits(env)
      ensures r.Ok? ==> r.value == if env.timeline[env.checkedAt].Some? then env.timeline[env.checkedAt].value.AsStat()
                                   else env.timeline[env.openedAt].value.AsStat()
      ensures r.Ok? ==> files == (old(files) - {PartialOf(dest)})[dest := Data(env.passes)]
      ensures r.Err? ==> files - {PartialOf(dest)} == old(files) - {PartialOf(dest)}
      ensures r.Err? && env.mkdirOk && env.cleanupOk ==> PartialOf(dest) !in files
    {
      if !env.mkdirOk { return Err; }
      r := PerformCopyInner(dest, PartialOf(dest), env);
      if r.Err? { Remove(PartialOf(dest), env.cleanupOk); }
    }

    method PerformCopyInner(dest: Path, partial: Path, env: Env) returns (r: Result<Stat>)
      requires Feasible(env) && partial == PartialOf(dest) && env.mkdirOk
      modifies this
      ensures r.Ok? <==> Commits(env)
      ensures r.Ok? ==> r.value == if env.timeline[env.checkedAt].Some? then env.timeline[env.checkedAt].value.AsStat()
                                   else env.timeline[env.openedAt].value.AsStat()
      ensures r.Ok? ==> files == (old(files) - {partial})[dest := Data(env.passes)]
      ensures r.Err? ==> files - {partial} == old(files) - {partial}
    {
      WorkingNameDiffers(dest);
      if env.timeline[env.openedAt].None? { return Err; }
      var first := env.timeline[env.openedAt].value.AsStat();
      if !env.createOk { return Err; }
      files := files[partial := []];
      var i := 0;
      while !Ends(env.passes[i])
        invariant i < |env.passes|
        invariant partial in files && files[partial] == Data(env.passes[..i])
        invariant files - {partial} == old(files) - {partial}
        decreases |env.passes| - i
      {
        assert env.passes[..i + 1][..i] == env.passes[..i];
        files := files[partial := files[partial] + env.passes[i].data];
        i := i + 1;
      }
      assert i == |env.passes| - 1;
      if env.passes[i].ReadFailed? || env.passes[i].data != [] {
        Remove(partial, env.cleanupOk);
        return Err;
      }
      assert Data(env.passes) == Data(env.passes[..i]);
      if !env.syncOk {
        Remove(partial, env.cleanupOk);
        return Err;
      }
      var final := FinalStat(env);
      var stale := final.Some? && (final.value.size != first.size || final.value.mtime != first.mtime);
      if env.aborted || stale {
        Remove(partial, env.cleanupOk);
        return Err;
      }
      var snapshot := if final.Some? then final.value else first;
      if !env.applyOk { return Err; }
      if !env.renameOk {
        Remove(partial, env.cleanupOk);
        return Err;
      }
      files := (files - {partial})[dest := files[partial]];
      return Ok(snapshot);
    }
  }

  lemma WorkingNameDiffers(p: Path)
    ensures PartialOf(p) != p
  {
    if p != [] { assert |PartialOf(p)[|p| - 1]| > |p[|p| - 1]|; }
  }
}
