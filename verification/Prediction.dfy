/** Episode lookahead: the files that follow an episode, found in two phases, and the plain
    sort-and-take that the two phases amount to. */
module Prediction {
  import opened Options
  import opened Paths
  import opened StableSort

  /** How names are read as (season, episode), and directory names as season numbers. */
  type EpisodeParser = Name -> Option<(nat, nat)>
  type SeasonParser = Name -> Option<nat>

  /** The names a directory lists, in listing order. */
  type Listing = Path -> seq<Name>

  datatype Wanted = SameSeason(season: nat, episode: nat) | HigherSeason(season: nat) | Later(season: nat, episode: nat)

  predicate Wants(w: Wanted, season: nat, episode: nat) {
    match w
    case SameSeason(s, e) => season == s && episode > e
    case HigherSeason(s) => season > s
    case Later(s, e) => season > s || (season == s && episode > e)
  }

  function Filter(xs: seq<Keyed>, w: Wanted): seq<Keyed> {
    if xs == [] then []
    else (if Wants(w, xs[0].season, xs[0].episode) then [xs[0]] else []) + Filter(xs[1..], w)
  }

  function EpisodesNamed(dir: Path, names: seq<Name>, parse: EpisodeParser): seq<Keyed> {
    if names == [] then []
    else
      (match parse(names[0])
       case Some(key) => [Keyed(key.0, key.1, dir + [names[0]])]
       case None => []) + EpisodesNamed(dir, names[1..], parse)
  }

  function Episodes(bs: Listing, parse: EpisodeParser, dir: Path): seq<Keyed> {
    EpisodesNamed(dir, bs(dir), parse)
  }

  function SeasonDirsNamed(showDir: Path, names: seq<Name>, parseDir: SeasonParser): seq<Keyed> {
    if names == [] then []
    else
      (match parseDir(names[0])
       case Some(number) => [Keyed(number, 0, showDir + [names[0]])]
       case None => []) + SeasonDirsNamed(showDir, names[1..], parseDir)
  }

  function SeasonDirs(bs: Listing, parseDir: SeasonParser, showDir: Path): seq<Keyed> {
    SeasonDirsNamed(showDir, bs(showDir), parseDir)
  }

  function Take(xs: seq<Keyed>, n: nat): seq<Keyed> {
    if |xs| <= n then xs else xs[..n]
  }

  function PathsOf(xs: seq<Keyed>): (ps: seq<Path>)
    ensures |ps| == |xs| && forall i :: 0 <= i < |xs| ==> ps[i] == xs[i].path
  {
    if xs == [] then [] else PathsOf(xs[..|xs| - 1]) + [xs[|xs| - 1].path]
  }

  /** The episodes of several directories, one directory after the other. */
  function Union(bs: Listing, parse: EpisodeParser, dirs: seq<Keyed>): seq<Keyed> {
    if dirs == [] then [] else Union(bs, parse, dirs[..|dirs| - 1]) + Episodes(bs, parse, dirs[|dirs| - 1].path)
  }

  /** The same, with each directory sorted on its own. */
  function Blocks(bs: Listing, parse: EpisodeParser, dirs: seq<Keyed>): seq<Keyed> {
    if dirs == [] then [] else Blocks(bs, parse, dirs[..|dirs| - 1]) + Sort(Episodes(bs, parse, dirs[|dirs| - 1].path))
  }

  /** Everything the two phases would find with room for all of it. */
  function TwoPhases(bs: Listing, parse: EpisodeParser, parseDir: SeasonParser, dir: Path, season: nat, episode: nat): seq<Keyed> {
    Sort(Filter(Episodes(bs, parse, dir), SameSeason(season, episode))) +
    if parseDir(LastName(dir)).Some? then
      Blocks(bs, parse, Sort(Filter(SeasonDirs(bs, parseDir, Parent(dir)), HigherSeason(season))))
    else Sort(Filter(Episodes(bs, parse, dir), HigherSeason(season)))
  }

  method FindNextEpisodes(relPath: Path, bs: Listing, parse: EpisodeParser, parseDir: SeasonParser, lookahead: nat)
    returns (next: seq<Path>)
    ensures relPath == [] || parse(LastName(relPath)).None? ==> next == []
    ensures relPath != [] && parse(LastName(relPath)).Some? ==>
      var key := parse(LastName(relPath)).value;
      next == PathsOf(Take(TwoPhases(bs, parse, parseDir, Parent(relPath), key.0, key.1), lookahead))
  {
    if relPath == [] || parse(LastName(relPath)).None? { return []; }
    var (season, episode) := parse(LastName(relPath)).value;
    var dir := Parent(relPath);
    var first := Sort(Filter(Episodes(bs, parse, dir), SameSeason(season, episode)));
    var candidates := Take(first, lookahead);
    if |candidates| < lookahead {
      if parseDir(LastName(dir)).Some? {
        candidates := FillFromSeasons(bs, parse, Sort(Filter(SeasonDirs(bs, parseDir, Parent(dir)), HigherSeason(season))), candidates, lookahead);
      } else {
        candidates := FillFromFlat(Sort(Filter(Episodes(bs, parse, dir), HigherSeason(season))), candidates, lookahead);
      }
    } else {
      TakeEnough(first, TwoPhases(bs, parse, parseDir, dir, season, episode), lookahead);
    }
    TakeTwice(TwoPhases(bs, parse, parseDir, dir, season, episode), lookahead);
    next := PathsOf(Take(candidates, lookahead));
  }

  /** The second phase in the flat layout. */
  method FillFromFlat(flat: seq<Keyed>, first: seq<Keyed>, lookahead: nat) returns (candidates: seq<Keyed>)
    requires |first| < lookahead
    ensures candidates == Take(first + flat, lookahead)
  {
    var needed := lookahead - |first|;
    var some := Take(flat, needed);
    candidates := first;
    var i := 0;
    while i < |some|
      invariant 0 <= i <= |some| && candidates == first + some[..i]
    {
      candidates := candidates + [some[i]];
      i := i + 1;
    }
    assert some[..i] == some;
  }

  /** The second phase in the structured layout: directory by directory until there are enough. */
  method FillFromSeasons(bs: Listing, parse: EpisodeParser, dirs: seq<Keyed>, first: seq<Keyed>, lookahead: nat)
    returns (candidates: seq<Keyed>)
    requires |first| < lookahead
    ensures candidates == Take(first + Blocks(bs, parse, dirs), lookahead)
  {
    candidates := first;
    var i := 0;
    label outer: while i < |dirs|
      invariant 0 <= i <= |dirs| && candidates == Take(Upto(bs, parse, dirs, first, i, 0), lookahead)
    {
      var eps := Sort(Episodes(bs, parse, dirs[i].path));
      var j := 0;
      while j < |eps|
        invariant 0 <= j <= |eps| && candidates == Take(Upto(bs, parse, dirs, first, i, j), lookahead)
      {
        if |candidates| >= lookahead {
          UptoIsPrefix(bs, parse, dirs, first, i, j);
          TakeEnough(Upto(bs, parse, dirs, first, i, j), first + Blocks(bs, parse, dirs), lookahead);
          break outer;
        }
        UptoNext(bs, parse, dirs, first, i, j);
        TakeNext(Upto(bs, parse, dirs, first, i, j), eps[j], lookahead);
        candidates := candidates + [eps[j]];
        j := j + 1;
      }
      UptoNextDir(bs, parse, dirs, first, i);
      i := i + 1;
    }
    if i == |dirs| { UptoAll(bs, parse, dirs, first); }
  }

  /** What has been gone through with the first `i` directories and `j` episodes of the next done. */
  ghost function Upto(bs: Listing, parse: EpisodeParser, dirs: seq<Keyed>, first: seq<Keyed>, i: nat, j: nat): seq<Keyed>
    requires i <= |dirs|
  {
    first + Blocks(bs, parse, dirs[..i]) +
    if i == |dirs| then []
    else var eps := Sort(Episodes(bs, parse, dirs[i].path)); if j <= |eps| then eps[..j] else eps
  }

  lemma UptoNext(bs: Listing, parse: EpisodeParser, dirs: seq<Keyed>, first: seq<Keyed>, i: nat, j: nat)
    requires i < |dirs| && j < |Sort(Episodes(bs, parse, dirs[i].path))|
    ensures Upto(bs, parse, dirs, first, i, j + 1) == Upto(bs, parse, dirs, first, i, j) + [Sort(Episodes(bs, parse, dirs[i].path))[j]]
  {
  }

  lemma UptoNextDir(bs: Listing, parse: EpisodeParser, dirs: seq<Keyed>, first: seq<Keyed>, i: nat)
    requires i < |dirs|
    ensures Upto(bs, parse, dirs, first, i + 1, 0) == Upto(bs, parse, dirs, first, i, |Sort(Episodes(bs, parse, dirs[i].path))|)
  {
    var eps := Sort(Episodes(bs, parse, dirs[i].path));
    assert dirs[..i + 1][..i] == dirs[..i] && eps[..|eps|] == eps;
  }

  lemma UptoAll(bs: Listing, parse: EpisodeParser, dirs: seq<Keyed>, first: seq<Keyed>)
    ensures Upto(bs, parse, dirs, first, |dirs|, 0) == first + Blocks(bs, parse, dirs)
  {
    assert dirs[..|dirs|] == dirs;
  }

  lemma {:induction false} UptoIsPrefix(bs: Listing, parse: EpisodeParser, dirs: seq<Keyed>, first: seq<Keyed>, i: nat, j: nat)
    requires i <= |dirs|
    ensures Upto(bs, parse, dirs, first, i, j) <= first + Blocks(bs, parse, dirs)
    decreases |dirs| - i
  {
    if i == |dirs| {
      UptoAll(bs, parse, dirs, first);
    } else {
      UptoNextDir(bs, parse, dirs, first, i);
      UptoIsPrefix(bs, parse, dirs, first, i + 1, 0);
    }
  }

  lemma TakeNext(xs: seq<Keyed>, x: Keyed, n: nat)
    requires |Take(xs, n)| < n
    ensures Take(xs + [x], n) == Take(xs, n) + [x]
  {
  }

  lemma TakeEnough(xs: seq<Keyed>, ys: seq<Keyed>, n: nat)
    requires xs <= ys && |Take(xs, n)| >= n
    ensures Take(ys, n) == Take(xs, n)
  {
  }

  lemma TakeTwice(xs: seq<Keyed>, n: nat)
    ensures Take(Take(xs, n), n) == Take(xs, n)
  {
  }

  // ---------------------------------------------------------------- the plain specification

  lemma {:induction false} WithKeyFilter(xs: seq<Keyed>, w: Wanted, s: nat, e: nat)
    ensures WithKey(Filter(xs, w), s, e) == if Wants(w, s, e) then WithKey(xs, s, e) else []
  {
    if xs != [] {
      WithKeyFilter(xs[1..], w, s, e);
      if Wants(w, xs[0].season, xs[0].episode) {
        WithKeyAppend([xs[0]], Filter(xs[1..], w), s, e);
      } else {
        assert Filter(xs, w) == Filter(xs[1..], w);
      }
    }
  }

  lemma {:induction false} FilterMembers(xs: seq<Keyed>, w: Wanted)
    ensures forall x :: x in Filter(xs, w) <==> x in xs && Wants(w, x.season, x.episode)
  {
    if xs != [] {
      FilterMembers(xs[1..], w);
      assert forall x :: x in xs <==> x == xs[0] || x in xs[1..];
    }
  }

  lemma SortedAppend(a: seq<Keyed>, b: seq<Keyed>)
    requires IsSorted(a) && IsSorted(b) && forall x, y :: x in a && y in b ==> !Before(y, x)
    ensures IsSorted(a + b)
  {
  }

  /** Flat layout, unchanged listing: the two phases give the first `lookahead` of the stable sort of
      every episode after the current one. */
  lemma {:induction false} FlatIsSortAndTake(bs: Listing, parse: EpisodeParser, parseDir: SeasonParser, dir: Path, season: nat, episode: nat, lookahead: nat)
    requires parseDir(LastName(dir)).None?
    ensures Take(TwoPhases(bs, parse, parseDir, dir, season, episode), lookahead)
         == Take(Sort(Filter(Episodes(bs, parse, dir), Later(season, episode))), lookahead)
  {
    var xs := Episodes(bs, parse, dir);
    var same, higher := Filter(xs, SameSeason(season, episode)), Filter(xs, HigherSeason(season));
    SortIsStable(same);
    SortIsStable(higher);
    FilterMembers(xs, SameSeason(season, episode));
    FilterMembers(xs, HigherSeason(season));
    SortedAppend(Sort(same), Sort(higher));
    forall s: nat, e: nat ensures WithKey(Sort(same) + Sort(higher), s, e) == WithKey(Filter(xs, Later(season, episode)), s, e) {
      WithKeyAppend(Sort(same), Sort(higher), s, e);
      WithKeyFilter(xs, SameSeason(season, episode), s, e);
      WithKeyFilter(xs, HigherSeason(season), s, e);
      WithKeyFilter(xs, Later(season, episode), s, e);
      assert WithKey(Sort(same), s, e) == WithKey(same, s, e) && WithKey(Sort(higher), s, e) == WithKey(higher, s, e);
    }
    SortIsTheOnlyStableSort(Sort(same) + Sort(higher), Filter(xs, Later(season, episode)));
  }

  /** The files of every season directory carry the number of their directory. */
  ghost predicate SeasonsAgree(bs: Listing, parse: EpisodeParser, dirs: seq<Keyed>) {
    forall d, x :: d in dirs && x in Episodes(bs, parse, d.path) ==> x.season == d.season
  }

  predicate DistinctSeasons(dirs: seq<Keyed>) {
    forall i, j :: 0 <= i < j < |dirs| ==> dirs[i].season != dirs[j].season
  }

  lemma {:induction false} InsertKeepsDistinct(x: Keyed, s: seq<Keyed>)
    requires DistinctSeasons(s) && forall y :: y in s ==> y.season != x.season
    ensures DistinctSeasons(Insert(x, s))
    ensures forall y :: y in Insert(x, s) <==> y == x || y in s
  {
    if s != [] {
      assert forall y :: y in s <==> y == s[0] || y in s[1..];
      if Before(s[0], x) {
        InsertKeepsDistinct(x, s[1..]);
        var r := Insert(x, s[1..]);
        forall j | 0 <= j < |r| ensures r[j].season != s[0].season {
          assert r[j] in r && s[0] in s;
          if r[j] != x {
            var k :| 0 <= k < |s[1..]| && s[1..][k] == r[j];
            assert s[k + 1] == r[j];
          }
        }
      }
    }
  }

  lemma {:induction false} SortKeepsDistinct(xs: seq<Keyed>)
    requires DistinctSeasons(xs)
    ensures DistinctSeasons(Sort(xs))
  {
    if xs != [] {
      SortKeepsDistinct(xs[1..]);
      SortIsStable(xs[1..]);
      InsertKeepsDistinct(xs[0], Sort(xs[1..]));
    }
  }

  lemma {:induction false} FilterKeepsDistinct(xs: seq<Keyed>, w: Wanted)
    requires DistinctSeasons(xs)
    ensures DistinctSeasons(Filter(xs, w))
  {
    if xs != [] {
      FilterKeepsDistinct(xs[1..], w);
      FilterMembers(xs[1..], w);
    }
  }

  lemma {:induction false} UnionMembers(bs: Listing, parse: EpisodeParser, dirs: seq<Keyed>)
    ensures forall x :: x in Union(bs, parse, dirs) ==> exists d :: d in dirs && x in Episodes(bs, parse, d.path)
  {
    if dirs != [] {
      UnionMembers(bs, parse, dirs[..|dirs| - 1]);
      assert dirs[|dirs| - 1] in dirs;
    }
  }

  /** With distinct, agreeing season numbers, the episodes with a key all sit in the one directory of
      its season. */
  lemma {:induction false} UnionWithKey(bs: Listing, parse: EpisodeParser, dirs: seq<Keyed>, i: nat, s: nat, e: nat)
    requires i < |dirs| && dirs[i].season == s && DistinctSeasons(dirs) && SeasonsAgree(bs, parse, dirs)
    ensures WithKey(Union(bs, parse, dirs), s, e) == WithKey(Episodes(bs, parse, dirs[i].path), s, e)
  {
    var front, last := dirs[..|dirs| - 1], dirs[|dirs| - 1];
    WithKeyAppend(Union(bs, parse, front), Episodes(bs, parse, last.path), s, e);
    if i == |dirs| - 1 {
      NoneInUnion(bs, parse, front, s, e);
    } else {
      UnionWithKey(bs, parse, front, i, s, e);
      WithKeyMembers(Episodes(bs, parse, last.path), s, e);
      SomeMember(WithKey(Episodes(bs, parse, last.path), s, e));
    }
  }

  lemma SomeMember(xs: seq<Keyed>)
    ensures xs != [] ==> exists x :: x in xs
  {
    if xs != [] { assert xs[0] in xs; }
  }

  lemma NoneInUnion(bs: Listing, parse: EpisodeParser, dirs: seq<Keyed>, s: nat, e: nat)
    requires SeasonsAgree(bs, parse, dirs) && forall d :: d in dirs ==> d.season != s
    ensures WithKey(Union(bs, parse, dirs), s, e) == []
  {
    UnionMembers(bs, parse, dirs);
    WithKeyMembers(Union(bs, parse, dirs), s, e);
    SomeMember(WithKey(Union(bs, parse, dirs), s, e));
  }

  lemma {:induction false} BlocksByKey(bs: Listing, parse: EpisodeParser, dirs: seq<Keyed>)
    ensures SameByKey(Blocks(bs, parse, dirs), Union(bs, parse, dirs))
    ensures forall x :: x in Blocks(bs, parse, dirs) <==> x in Union(bs, parse, dirs)
  {
    if dirs != [] {
      var front, eps := dirs[..|dirs| - 1], Episodes(bs, parse, dirs[|dirs| - 1].path);
      BlocksByKey(bs, parse, front);
      SortIsStable(eps);
      forall s: nat, e: nat ensures WithKey(Blocks(bs, parse, dirs), s, e) == WithKey(Union(bs, parse, dirs), s, e) {
        WithKeyAppend(Blocks(bs, parse, front), Sort(eps), s, e);
        WithKeyAppend(Union(bs, parse, front), eps, s, e);
        assert WithKey(Sort(eps), s, e) == WithKey(eps, s, e);
        assert WithKey(Blocks(bs, parse, front), s, e) == WithKey(Union(bs, parse, front), s, e);
      }
    }
  }

  lemma {:induction false} BlocksAreSorted(bs: Listing, parse: EpisodeParser, dirs: seq<Keyed>)
    requires IsSorted(dirs) && DistinctSeasons(dirs) && SeasonsAgree(bs, parse, dirs)
    ensures IsSorted(Blocks(bs, parse, dirs))
  {
    if dirs != [] {
      var front, last := dirs[..|dirs| - 1], dirs[|dirs| - 1];
      BlocksAreSorted(bs, parse, front);
      SortIsStable(Episodes(bs, parse, last.path));
      BlocksByKey(bs, parse, front);
      UnionMembers(bs, parse, front);
      assert forall i :: 0 <= i < |front| ==> front[i] == dirs[i] && !Before(last, front[i]) && front[i].season != last.season;
      SortedAppend(Blocks(bs, parse, front), Sort(Episodes(bs, parse, last.path)));
    }
  }

  /** Structured layout: with distinct directory numbers that the files agree with, and the current
      directory among the listed ones, the two phases give the first `lookahead` of the stable sort
      of every episode of the show after the current one. */
  lemma {:induction false} StructuredIsSortAndTake(bs: Listing, parse: EpisodeParser, parseDir: SeasonParser, dir: Path, season: nat, episode: nat, lookahead: nat)
    requires dir != [] && LastName(dir) in bs(Parent(dir)) && parseDir(LastName(dir)) == Some(season)
    requires DistinctSeasons(SeasonDirs(bs, parseDir, Parent(dir))) && SeasonsAgree(bs, parse, SeasonDirs(bs, parseDir, Parent(dir)))
    ensures Take(TwoPhases(bs, parse, parseDir, dir, season, episode), lookahead)
         == Take(Sort(Filter(Union(bs, parse, SeasonDirs(bs, parseDir, Parent(dir))), Later(season, episode))), lookahead)
  {
    var dirs := SeasonDirs(bs, parseDir, Parent(dir));
    ListedSeason(Parent(dir), bs(Parent(dir)), parseDir, LastName(dir));
    assert Parent(dir) + [LastName(dir)] == dir;
    var c :| 0 <= c < |dirs| && dirs[c] == Keyed(season, 0, dir);
    HigherSeasonsSorted(bs, parse, dirs, season);
    var same := Sort(Filter(Episodes(bs, parse, dir), SameSeason(season, episode)));
    var blocks := Blocks(bs, parse, Sort(Filter(dirs, HigherSeason(season))));
    SortIsStable(Filter(Episodes(bs, parse, dir), SameSeason(season, episode)));
    FilterMembers(Episodes(bs, parse, dir), SameSeason(season, episode));
    SortedAppend(same, blocks);
    forall s: nat, e: nat ensures WithKey(same + blocks, s, e) == WithKey(Filter(Union(bs, parse, dirs), Later(season, episode)), s, e) {
      ByKey(bs, parse, dirs, c, episode, s, e);
    }
    SortIsTheOnlyStableSort(same + blocks, Filter(Union(bs, parse, dirs), Later(season, episode)));
  }

  lemma {:induction false} ListedSeason(showDir: Path, names: seq<Name>, parseDir: SeasonParser, name: Name)
    requires name in names && parseDir(name).Some?
    ensures Keyed(parseDir(name).value, 0, showDir + [name]) in SeasonDirsNamed(showDir, names, parseDir)
  {
    if name != names[0] { ListedSeason(showDir, names[1..], parseDir, name); }
  }

  /** The second phase visits exactly the higher-numbered directories, in the order of their
      numbers, and what it finds there is sorted. */
  lemma HigherSeasonsSorted(bs: Listing, parse: EpisodeParser, dirs: seq<Keyed>, season: nat)
    requires DistinctSeasons(dirs) && SeasonsAgree(bs, parse, dirs)
    ensures var next := Sort(Filter(dirs, HigherSeason(season)));
      && (forall d :: d in next <==> d in dirs && d.season > season)
      && DistinctSeasons(next) && SeasonsAgree(bs, parse, next)
      && IsSorted(Blocks(bs, parse, next))
      && (forall x :: x in Blocks(bs, parse, next) ==> x.season > season)
  {
    var next := Sort(Filter(dirs, HigherSeason(season)));
    FilterMembers(dirs, HigherSeason(season));
    FilterKeepsDistinct(dirs, HigherSeason(season));
    SortIsStable(Filter(dirs, HigherSeason(season)));
    SortKeepsDistinct(Filter(dirs, HigherSeason(season)));
    BlocksAreSorted(bs, parse, next);
    BlocksByKey(bs, parse, next);
    UnionMembers(bs, parse, next);
  }

  lemma ByKey(bs: Listing, parse: EpisodeParser, dirs: seq<Keyed>, c: nat, episode: nat, s: nat, e: nat)
    requires c < |dirs| && DistinctSeasons(dirs) && SeasonsAgree(bs, parse, dirs)
    ensures var season := dirs[c].season;
      WithKey(Sort(Filter(Episodes(bs, parse, dirs[c].path), SameSeason(season, episode)))
              + Blocks(bs, parse, Sort(Filter(dirs, HigherSeason(season)))), s, e)
      == WithKey(Filter(Union(bs, parse, dirs), Later(season, episode)), s, e)
  {
    var season := dirs[c].season;
    var eps, next := Episodes(bs, parse, dirs[c].path), Sort(Filter(dirs, HigherSeason(season)));
    var same := Filter(eps, SameSeason(season, episode));
    WithKeyAppend(Sort(same), Blocks(bs, parse, next), s, e);
    SortIsStable(same);
    BlocksByKey(bs, parse, next);
    assert WithKey(Sort(same), s, e) == WithKey(same, s, e);
    assert WithKey(Blocks(bs, parse, next), s, e) == WithKey(Union(bs, parse, next), s, e);
    WithKeyFilter(eps, SameSeason(season, episode), s, e);
    WithKeyFilter(Union(bs, parse, dirs), Later(season, episode), s, e);
    HigherSeasonsSorted(bs, parse, dirs, season);
    if s <= season {
      NoneInUnion(bs, parse, next, s, e);
      if s == season { UnionWithKey(bs, parse, dirs, c, s, e); }
    } else {
      UnionsAgree(bs, parse, dirs, next, s, e);
    }
  }

  lemma UnionsAgree(bs: Listing, parse: EpisodeParser, a: seq<Keyed>, b: seq<Keyed>, s: nat, e: nat)
    requires DistinctSeasons(a) && SeasonsAgree(bs, parse, a) && DistinctSeasons(b) && SeasonsAgree(bs, parse, b)
    requires forall d: Keyed :: d.season == s ==> (d in a <==> d in b)
    ensures WithKey(Union(bs, parse, a), s, e) == WithKey(Union(bs, parse, b), s, e)
  {
    if i :| 0 <= i < |a| && a[i].season == s {
      var j :| 0 <= j < |b| && b[j] == a[i];
      UnionWithKey(bs, parse, a, i, s, e);
      UnionWithKey(bs, parse, b, j, s, e);
    } else {
      assert forall d :: d in b ==> d.season != s;
      NoneInUnion(bs, parse, a, s, e);
      NoneInUnion(bs, parse, b, s, e);
    }
  }

  // ---------------------------------------------------------------- from listing and parser alone

  /** `x` is the entry called `name` of `dir`, as the parser reads it. */
  predicate IsEpisode(dir: Path, name: Name, parse: EpisodeParser, x: Keyed) {
    parse(name) == Some((x.season, x.episode)) && x.path == dir + [name]
  }

  lemma {:induction false} EpisodesAreListed(dir: Path, names: seq<Name>, parse: EpisodeParser, x: Keyed)
    ensures x in EpisodesNamed(dir, names, parse) <==> exists name :: name in names && IsEpisode(dir, name, parse, x)
  {
    if names != [] {
      EpisodesAreListed(dir, names[1..], parse, x);
      assert forall name :: name in names <==> name == names[0] || name in names[1..];
      if IsEpisode(dir, names[0], parse, x) { assert x in EpisodesNamed(dir, names, parse); }
    }
  }

  lemma {:induction false} DirsAreListed(showDir: Path, names: seq<Name>, parseDir: SeasonParser, d: Keyed)
    ensures d in SeasonDirsNamed(showDir, names, parseDir) <==>
              d.episode == 0 && exists name :: name in names && parseDir(name) == Some(d.season) && d.path == showDir + [name]
  {
    if names != [] {
      DirsAreListed(showDir, names[1..], parseDir, d);
      assert forall name :: name in names <==> name == names[0] || name in names[1..];
    }
  }

  predicate IsLater(x: Keyed, season: nat, episode: nat) {
    x.season > season || (x.season == season && x.episode > episode)
  }

  /** `r` is a sorted choice of at most `n` of the wanted: it has all of them, or it is full and none
      left out comes before any of its own. */
  ghost predicate FirstOf(r: seq<Keyed>, n: nat, wanted: iset<Keyed>) {
    && |r| <= n && IsSorted(r) && (forall x :: x in r ==> x in wanted)
    && (forall x :: x in wanted ==> x in r || (|r| == n && forall y :: y in r ==> !Before(x, y)))
  }

  lemma TakenIsFirst(xs: seq<Keyed>, n: nat, wanted: iset<Keyed>)
    requires forall x :: x in xs <==> x in wanted
    ensures FirstOf(Take(Sort(xs), n), n, wanted)
  {
    SortIsStable(xs);
    var all, r := Sort(xs), Take(Sort(xs), n);
    forall x | x in wanted ensures x in r || (|r| == n && forall y :: y in r ==> !Before(x, y)) {
      var i :| 0 <= i < |all| && all[i] == x;
      if i < |r| {
        assert r[i] == x;
      } else {
        forall y | y in r ensures !Before(x, y) {
          var j :| 0 <= j < |r| && r[j] == y;
          assert all[j] == y;
        }
      }
    }
  }

  /** Flat layout, from the listing and the parser directly: the result is the first of the listed
      episodes that are later than the current one. */
  lemma FlatFromListing(bs: Listing, parse: EpisodeParser, parseDir: SeasonParser, dir: Path, season: nat, episode: nat, lookahead: nat)
    requires parseDir(LastName(dir)).None?
    ensures FirstOf(Take(TwoPhases(bs, parse, parseDir, dir, season, episode), lookahead), lookahead,
                    iset x: Keyed | IsLater(x, season, episode) && exists name :: name in bs(dir) && IsEpisode(dir, name, parse, x))
  {
    FlatIsSortAndTake(bs, parse, parseDir, dir, season, episode, lookahead);
    var xs := Filter(Episodes(bs, parse, dir), Later(season, episode));
    FilterMembers(Episodes(bs, parse, dir), Later(season, episode));
    forall x ensures x in Episodes(bs, parse, dir) <==> exists name :: name in bs(dir) && IsEpisode(dir, name, parse, x) {
      EpisodesAreListed(dir, bs(dir), parse, x);
    }
    TakenIsFirst(xs, lookahead, iset x: Keyed | IsLater(x, season, episode) && exists name :: name in bs(dir) && IsEpisode(dir, name, parse, x));
  }

  /** `x` is an entry of a listed season directory of the show. */
  ghost predicate IsOfShow(bs: Listing, parse: EpisodeParser, parseDir: SeasonParser, show: Path, x: Keyed) {
    exists sub, name :: sub in bs(show) && parseDir(sub).Some? && name in bs(show + [sub]) && IsEpisode(show + [sub], name, parse, x)
  }

  lemma {:induction false} UnionHasAll(bs: Listing, parse: EpisodeParser, dirs: seq<Keyed>)
    ensures forall d, x :: d in dirs && x in Episodes(bs, parse, d.path) ==> x in Union(bs, parse, dirs)
  {
    if dirs != [] {
      UnionHasAll(bs, parse, dirs[..|dirs| - 1]);
      assert forall d :: d in dirs <==> d in dirs[..|dirs| - 1] || d == dirs[|dirs| - 1];
    }
  }

  lemma UnionIsShow(bs: Listing, parse: EpisodeParser, parseDir: SeasonParser, show: Path, x: Keyed)
    ensures x in Union(bs, parse, SeasonDirs(bs, parseDir, show)) <==> IsOfShow(bs, parse, parseDir, show, x)
  {
    var dirs := SeasonDirs(bs, parseDir, show);
    if x in Union(bs, parse, dirs) {
      UnionMembers(bs, parse, dirs);
      var d :| d in dirs && x in Episodes(bs, parse, d.path);
      DirsAreListed(show, bs(show), parseDir, d);
      EpisodesAreListed(d.path, bs(d.path), parse, x);
    }
    if IsOfShow(bs, parse, parseDir, show, x) {
      var sub, name :| sub in bs(show) && parseDir(sub).Some? && name in bs(show + [sub]) && IsEpisode(show + [sub], name, parse, x);
      var d := Keyed(parseDir(sub).value, 0, show + [sub]);
      DirsAreListed(show, bs(show), parseDir, d);
      EpisodesAreListed(d.path, bs(d.path), parse, x);
      UnionHasAll(bs, parse, dirs);
    }
  }

  /** Structured layout, from listings and parsers directly: the result is the first of the show's
      episodes that are later than the current one. */
  lemma StructuredFromListing(bs: Listing, parse: EpisodeParser, parseDir: SeasonParser, dir: Path, season: nat, episode: nat, lookahead: nat)
    requires dir != [] && LastName(dir) in bs(Parent(dir)) && parseDir(LastName(dir)) == Some(season)
    requires DistinctSeasons(SeasonDirs(bs, parseDir, Parent(dir))) && SeasonsAgree(bs, parse, SeasonDirs(bs, parseDir, Parent(dir)))
    ensures FirstOf(Take(TwoPhases(bs, parse, parseDir, dir, season, episode), lookahead), lookahead,
                    iset x: Keyed | IsLater(x, season, episode) && IsOfShow(bs, parse, parseDir, Parent(dir), x))
  {
    StructuredIsSortAndTake(bs, parse, parseDir, dir, season, episode, lookahead);
    var all := Union(bs, parse, SeasonDirs(bs, parseDir, Parent(dir)));
    FilterMembers(all, Later(season, episode));
    forall x ensures x in all <==> IsOfShow(bs, parse, parseDir, Parent(dir), x) {
      UnionIsShow(bs, parse, parseDir, Parent(dir), x);
    }
    TakenIsFirst(Filter(all, Later(season, episode)), lookahead,
                 iset x: Keyed | IsLater(x, season, episode) && IsOfShow(bs, parse, parseDir, Parent(dir), x));
  }
}
