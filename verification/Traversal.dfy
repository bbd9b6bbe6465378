/** Which files a prefetch gathers around an accessed one: its siblings, or everything to a bounded
    depth below its directory. */
module Traversal {
  import opened Paths

  /** The backing store as the traversal sees it. */
  datatype Store = Store(list: Path -> seq<Name>, isDir: Path -> bool)

  /** Compiled patterns, each the set of names it matches. */
  datatype Patterns = Patterns(whitelist: seq<Name -> bool>, blacklist: seq<Name -> bool>)

  predicate AnyMatches(patterns: seq<Name -> bool>, name: Name) {
    exists i :: 0 <= i < |patterns| && patterns[i](name)
  }

  /** A whitelist, when there is one, decides alone. */
  predicate PassesFilter(f: Patterns, name: Name) {
    if f.whitelist != [] then AnyMatches(f.whitelist, name) else !AnyMatches(f.blacklist, name)
  }

  /** The passing files among the named entries of a directory. */
  function FilesAmong(st: Store, f: Patterns, dir: Path, names: seq<Name>): seq<Path> {
    if names == [] then []
    else
      var name := names[|names| - 1];
      FilesAmong(st, f, dir, names[..|names| - 1]) + if PassesFilter(f, name) && !st.isDir(dir + [name]) then [dir + [name]] else []
  }

  function CollectNeighbors(st: Store, f: Patterns, path: Path): seq<Path> {
    FilesAmong(st, f, Parent(path), st.list(Parent(path)))
  }

  /** What the named entries of a directory contribute, subdirectories included. */
  function CollectedAmong(st: Store, f: Patterns, dir: Path, names: seq<Name>, depth: nat): seq<Path>
    decreases depth, |names|, 0
  {
    if depth == 0 || names == [] then []
    else CollectedAmong(st, f, dir, names[..|names| - 1], depth) + CollectedAt(st, f, dir, names[|names| - 1], depth)
  }

  function CollectedAt(st: Store, f: Patterns, dir: Path, name: Name, depth: nat): seq<Path>
    requires depth > 0
    decreases depth, 0, 1
  {
    if st.isDir(dir + [name]) then CollectedAmong(st, f, dir + [name], st.list(dir + [name]), depth - 1)
    else if PassesFilter(f, name) then [dir + [name]]
    else []
  }

  function Collected(st: Store, f: Patterns, dir: Path, depth: nat): seq<Path> {
    CollectedAmong(st, f, dir, st.list(dir), depth)
  }

  method CollectRecursive(st: Store, f: Patterns, dir: Path, depth: nat) returns (results: seq<Path>)
    ensures results == Collected(st, f, dir, depth)
    decreases depth
  {
    if depth == 0 { return []; }
    results := [];
    var names := st.list(dir);
    var i := 0;
    while i < |names|
      invariant 0 <= i <= |names| && results == CollectedAmong(st, f, dir, names[..i], depth)
    {
      var candidate := dir + [names[i]];
      if st.isDir(candidate) {
        var more := CollectRecursive(st, f, candidate, depth - 1);
        results := results + more;
      } else if PassesFilter(f, names[i]) {
        results := results + [candidate];
      }
      assert names[..i + 1][..i] == names[..i];
      i := i + 1;
    }
    assert names[..i] == names;
  }

  // ---------------------------------------------------------------- what is collected

  /** `p` lies below `dir`, at most `depth` levels down: every name on the way is listed by the
      directory before it, only `p` itself is not a directory, and its name passes. */
  ghost predicate PassingFileBelow(st: Store, f: Patterns, dir: Path, p: Path, depth: nat) {
    && |dir| < |p| <= |dir| + depth && p[..|dir|] == dir
    && (forall i :: |dir| <= i < |p| ==> OnTheWay(st, p, i))
    && PassesFilter(f, p[|p| - 1])
  }

  predicate OnTheWay(st: Store, p: Path, i: nat)
    requires i < |p|
  {
    p[i] in st.list(p[..i]) && (st.isDir(p[..i + 1]) <==> i + 1 < |p|)
  }

  /** It does so through one of the given names. */
  ghost predicate BelowThrough(st: Store, f: Patterns, dir: Path, names: seq<Name>, p: Path, depth: nat) {
    PassingFileBelow(st, f, dir, p, depth) && p[|dir|] in names
  }

  lemma {:induction false} CollectedAmongIff(st: Store, f: Patterns, dir: Path, names: seq<Name>, depth: nat, p: Path)
    requires forall name :: name in names ==> name in st.list(dir)
    ensures p in CollectedAmong(st, f, dir, names, depth) <==> BelowThrough(st, f, dir, names, p, depth)
    decreases depth, |names|, 0
  {
    if depth > 0 && names != [] {
      var front, name := names[..|names| - 1], names[|names| - 1];
      CollectedAmongIff(st, f, dir, front, depth, p);
      CollectedAtIff(st, f, dir, name, depth, p);
      assert forall x :: x in names <==> x in front || x == name;
    }
  }

  lemma {:induction false} CollectedAtIff(st: Store, f: Patterns, dir: Path, name: Name, depth: nat, p: Path)
    requires depth > 0 && name in st.list(dir)
    ensures p in CollectedAt(st, f, dir, name, depth) <==> PassingFileBelow(st, f, dir, p, depth) && p[|dir|] == name
    decreases depth, 0, 1
  {
    var sub := dir + [name];
    if st.isDir(sub) {
      CollectedAmongIff(st, f, sub, st.list(sub), depth - 1, p);
      BelowSubdirectory(st, f, dir, name, depth, p);
    } else {
      AtFile(st, f, dir, name, depth, p);
    }
  }

  lemma BelowSubdirectory(st: Store, f: Patterns, dir: Path, name: Name, depth: nat, p: Path)
    requires depth > 0 && name in st.list(dir) && st.isDir(dir + [name])
    ensures BelowThrough(st, f, dir + [name], st.list(dir + [name]), p, depth - 1) <==>
            PassingFileBelow(st, f, dir, p, depth) && p[|dir|] == name
  {
    var sub := dir + [name];
    if |p| > |dir| && p[..|dir|] == dir && p[|dir|] == name { assert p[..|dir| + 1] == sub; }
    if |p| > |dir| && p[..|dir| + 1] == sub {
      assert p[..|dir|] == sub[..|dir|] == dir && p[|dir|] == sub[|dir|];
      assert OnTheWay(st, p, |dir|) <==> |p| > |sub|;
      if |p| > |sub| && PassingFileBelow(st, f, dir, p, depth) { assert OnTheWay(st, p, |sub|); }
    }
  }

  lemma AtFile(st: Store, f: Patterns, dir: Path, name: Name, depth: nat, p: Path)
    requires depth > 0 && name in st.list(dir) && !st.isDir(dir + [name])
    ensures PassingFileBelow(st, f, dir, p, depth) && p[|dir|] == name <==> p == dir + [name] && PassesFilter(f, name)
  {
    var file := dir + [name];
    assert file[..|dir|] == dir && file[..|file|] == file;
    if PassingFileBelow(st, f, dir, p, depth) && p[|dir|] == name {
      assert p[..|dir| + 1] == file && OnTheWay(st, p, |dir|);
      assert p == file;
    }
  }

  /** The traversal finds every passing file at depth 1 to `depth` below the directory, and nothing
      else. */
  lemma CollectedIff(st: Store, f: Patterns, dir: Path, depth: nat, p: Path)
    ensures p in Collected(st, f, dir, depth) <==> PassingFileBelow(st, f, dir, p, depth)
  {
    CollectedAmongIff(st, f, dir, st.list(dir), depth, p);
    if PassingFileBelow(st, f, dir, p, depth) { assert OnTheWay(st, p, |dir|); }
  }

  ghost predicate NoRepeats<T>(s: seq<T>) {
    forall i, j :: 0 <= i < j < |s| ==> s[i] != s[j]
  }

  ghost predicate DistinctSiblings(st: Store) {
    forall dir :: NoRepeats(st.list(dir))
  }

  lemma NoRepeatsAppend<T>(a: seq<T>, b: seq<T>)
    requires NoRepeats(a) && NoRepeats(b) && forall x :: x in a ==> x !in b
    ensures NoRepeats(a + b)
  {
    forall i, j | 0 <= i < j < |a + b| ensures (a + b)[i] != (a + b)[j] {
      if i < |a| <= j { assert a[i] in a && b[j - |a|] in b; }
    }
  }

  lemma {:induction false} CollectedAmongOnce(st: Store, f: Patterns, dir: Path, names: seq<Name>, depth: nat)
    requires DistinctSiblings(st) && NoRepeats(names) && forall name :: name in names ==> name in st.list(dir)
    ensures NoRepeats(CollectedAmong(st, f, dir, names, depth))
    decreases depth, |names|
  {
    if depth > 0 && names != [] {
      var front, name := names[..|names| - 1], names[|names| - 1];
      CollectedAmongOnce(st, f, dir, front, depth);
      if st.isDir(dir + [name]) { CollectedAmongOnce(st, f, dir + [name], st.list(dir + [name]), depth - 1); }
      forall p | p in CollectedAmong(st, f, dir, front, depth) ensures p !in CollectedAt(st, f, dir, name, depth) {
        CollectedAmongIff(st, f, dir, front, depth, p);
        CollectedAtIff(st, f, dir, name, depth, p);
        assert p[|dir|] in front && name !in front;
      }
      NoRepeatsAppend(CollectedAmong(st, f, dir, front, depth), CollectedAt(st, f, dir, name, depth));
    }
  }

  /** With distinct sibling names, no file is found twice. */
  lemma CollectedOnce(st: Store, f: Patterns, dir: Path, depth: nat)
    requires DistinctSiblings(st)
    ensures NoRepeats(Collected(st, f, dir, depth))
  {
    CollectedAmongOnce(st, f, dir, st.list(dir), depth);
  }

  function NoDeeper(ps: seq<Path>, length: nat): seq<Path> {
    if ps == [] then []
    else NoDeeper(ps[..|ps| - 1], length) + if |ps[|ps| - 1]| <= length then [ps[|ps| - 1]] else []
  }

  lemma {:induction false} NoDeeperAppend(a: seq<Path>, b: seq<Path>, length: nat)
    ensures NoDeeper(a + b, length) == NoDeeper(a, length) + NoDeeper(b, length)
  {
    if b == [] {
      assert a + b == a;
    } else {
      assert (a + b)[..|a + b| - 1] == a + b[..|b| - 1];
      NoDeeperAppend(a, b[..|b| - 1], length);
    }
  }

  /** Looking less deep finds, in the same order, exactly those of the files found deeper that are
      not too deep: the result grows with the depth. */
  lemma {:induction false} ShallowIsFilteredDeep(st: Store, f: Patterns, dir: Path, names: seq<Name>, d: nat, e: nat)
    requires d <= e && forall name :: name in names ==> name in st.list(dir)
    ensures CollectedAmong(st, f, dir, names, d) == NoDeeper(CollectedAmong(st, f, dir, names, e), |dir| + d)
    decreases e, |names|
  {
    if d == 0 {
      NoneIsShallow(st, f, dir, names, e);
    } else if names != [] {
      var front, name := names[..|names| - 1], names[|names| - 1];
      ShallowIsFilteredDeep(st, f, dir, front, d, e);
      if st.isDir(dir + [name]) {
        ShallowIsFilteredDeep(st, f, dir + [name], st.list(dir + [name]), d - 1, e - 1);
      } else {
        assert [dir + [name]][..0] == [];
      }
      NoDeeperAppend(CollectedAmong(st, f, dir, front, e), CollectedAt(st, f, dir, name, e), |dir| + d);
    }
  }

  lemma NoneIsShallow(st: Store, f: Patterns, dir: Path, names: seq<Name>, e: nat)
    requires forall name :: name in names ==> name in st.list(dir)
    ensures NoDeeper(CollectedAmong(st, f, dir, names, e), |dir|) == []
  {
    var found := CollectedAmong(st, f, dir, names, e);
    forall p | p in found ensures |p| > |dir| { CollectedAmongIff(st, f, dir, names, e, p); }
    AllDeeper(found, |dir|);
  }

  lemma {:induction false} AllDeeper(ps: seq<Path>, length: nat)
    requires forall p :: p in ps ==> |p| > length
    ensures NoDeeper(ps, length) == []
  {
    if ps != [] { AllDeeper(ps[..|ps| - 1], length); }
  }

  /** At depth 1 the traversal is the list of neighbours. */
  lemma DepthOneIsNeighbors(st: Store, f: Patterns, path: Path)
    ensures Collected(st, f, Parent(path), 1) == CollectNeighbors(st, f, path)
  {
    FilesAmongIsDepthOne(st, f, Parent(path), st.list(Parent(path)));
  }

  lemma {:induction false} FilesAmongIsDepthOne(st: Store, f: Patterns, dir: Path, names: seq<Name>)
    ensures CollectedAmong(st, f, dir, names, 1) == FilesAmong(st, f, dir, names)
  {
    if names != [] { FilesAmongIsDepthOne(st, f, dir, names[..|names| - 1]); }
  }

  // ---------------------------------------------------------------- what the patterns do

  /** A nonempty whitelist decides alone; without one, a name is kept out exactly by a blacklist
      pattern it matches. */
  lemma FilterLaws(f: Patterns, name: Name)
    ensures f.whitelist != [] ==> (PassesFilter(f, name) <==> exists r :: r in f.whitelist && r(name))
    ensures f.whitelist == [] ==> (PassesFilter(f, name) <==> forall r :: r in f.blacklist ==> !r(name))
  {
  }

  lemma {:induction false} SameFilterSameFiles(st: Store, f: Patterns, g: Patterns, dir: Path, names: seq<Name>, depth: nat)
    requires forall name :: PassesFilter(f, name) <==> PassesFilter(g, name)
    ensures CollectedAmong(st, f, dir, names, depth) == CollectedAmong(st, g, dir, names, depth)
    decreases depth, |names|
  {
    if depth > 0 && names != [] {
      var sub := dir + [names[|names| - 1]];
      SameFilterSameFiles(st, f, g, dir, names[..|names| - 1], depth);
      if st.isDir(sub) { SameFilterSameFiles(st, f, g, sub, st.list(sub), depth - 1); }
    }
  }

  /** Under a nonempty whitelist the blacklist makes no difference to what is collected. */
  lemma BlacklistIrrelevant(st: Store, whitelist: seq<Name -> bool>, a: seq<Name -> bool>, b: seq<Name -> bool>, dir: Path, depth: nat)
    requires whitelist != []
    ensures Collected(st, Patterns(whitelist, a), dir, depth) == Collected(st, Patterns(whitelist, b), dir, depth)
  {
    SameFilterSameFiles(st, Patterns(whitelist, a), Patterns(whitelist, b), dir, st.list(dir), depth);
  }

  /** One more whitelist pattern adds exactly the files it matches, one more blacklist pattern takes
      away exactly those it matches. */
  lemma OneMorePattern(st: Store, f: Patterns, r: Name -> bool, dir: Path, depth: nat, p: Path)
    ensures f.whitelist != [] ==>
              (p in Collected(st, f.(whitelist := f.whitelist + [r]), dir, depth) <==>
                p in Collected(st, f, dir, depth) || p in Collected(st, Patterns([r], []), dir, depth))
    ensures f.whitelist == [] ==>
              (p in Collected(st, f.(blacklist := f.blacklist + [r]), dir, depth) <==>
                p in Collected(st, f, dir, depth) && p !in Collected(st, Patterns([r], []), dir, depth))
  {
    CollectedIff(st, f, dir, depth, p);
    CollectedIff(st, f.(whitelist := f.whitelist + [r]), dir, depth, p);
    CollectedIff(st, f.(blacklist := f.blacklist + [r]), dir, depth, p);
    CollectedIff(st, Patterns([r], []), dir, depth, p);
    if p != [] {
      AnyOfMore(f.whitelist, r, p[|p| - 1]);
      AnyOfMore(f.blacklist, r, p[|p| - 1]);
      AnyOfMore([], r, p[|p| - 1]);
      assert [] + [r] == [r];
    }
  }

  lemma AnyOfMore(patterns: seq<Name -> bool>, r: Name -> bool, name: Name)
    ensures AnyMatches(patterns + [r], name) <==> AnyMatches(patterns, name) || r(name)
  {
    var more := patterns + [r];
    if AnyMatches(patterns, name) {
      var i :| 0 <= i < |patterns| && patterns[i](name);
      assert more[i](name);
    }
    if r(name) { assert more[|patterns|](name); }
  }
}
