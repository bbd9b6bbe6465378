/** Relative paths as the cache and the inode table use them: sequences of components.
    The mount root is the empty path; `starts_with`, `strip_prefix` and `join` are prefix,
    drop and concatenation on components. */
module Paths {
  type Name = string
  type Path = seq<Name>

  const PARTIAL_SUFFIX: Name := ".partial"

  predicate EndsWith(name: Name, suffix: Name) {
    |suffix| <= |name| && name[|name| - |suffix|..] == suffix
  }

  predicate Incomparable(p: Path, q: Path) {
    !(p <= q) && !(q <= p)
  }

  function Parent(p: Path): (dir: Path)
    ensures p == [] ==> dir == []
    ensures p != [] ==> p == dir + [LastName(p)]
  {
    if p == [] then [] else p[..|p| - 1]
  }

  function LastName(p: Path): (name: Name)
    ensures p == [] ==> name == ""
    ensures p != [] ==> p[..|p| - 1] + [name] == p
  {
    if p == [] then "" else p[|p| - 1]
  }

  /** The name a copy is written under before it is renamed into place. */
  function PartialOf(p: Path): Path {
    if p == [] then [PARTIAL_SUFFIX]
    else p[..|p| - 1] + [p[|p| - 1] + PARTIAL_SUFFIX]
  }

  /** The extension is what follows the last dot of a name that does not begin with that dot. */
  predicate HasPartialExtension(p: Path) {
    p != [] && EndsWith(p[|p| - 1], PARTIAL_SUFFIX) && |p[|p| - 1]| > |PARTIAL_SUFFIX|
  }

  /** What a file in a tree is called: some components, none of them empty. */
  predicate IsFilePath(p: Path) {
    p != [] && forall i :: 0 <= i < |p| ==> p[i] != ""
  }

  /** A copy of a file works under a name with that extension. */
  lemma PartialHasExtension(p: Path)
    requires IsFilePath(p)
    ensures HasPartialExtension(PartialOf(p))
  {
    var last := p[|p| - 1];
    assert (last + PARTIAL_SUFFIX)[|last|..] == PARTIAL_SUFFIX;
  }

  /** Files the walk of the cache directory leaves out of the accounting. */
  predicate IsNonMedia(p: Path) {
    p != [] && var name := p[|p| - 1];
      EndsWith(name, PARTIAL_SUFFIX) || EndsWith(name, ".db") || EndsWith(name, ".db-wal") || EndsWith(name, ".db-shm")
  }

  lemma EndsWithIff(name: Name, ending: Name)
    ensures EndsWith(name, ending) <==> exists stem :: name == stem + ending
  {
    if EndsWith(name, ending) {
      assert name == name[..|name| - |ending|] + ending;
    }
    forall stem: Name | name == stem + ending ensures EndsWith(name, ending) {
      assert name[|name| - |ending|..] == ending;
    }
  }

  /** Which names these are: a nonempty stem with ".partial", and any stem with one of four endings. */
  lemma NamesByStem(p: Path)
    requires p != []
    ensures HasPartialExtension(p) <==> p[|p| - 1] != ".partial" && exists stem :: p[|p| - 1] == stem + ".partial"
    ensures IsNonMedia(p) <==>
              var name := p[|p| - 1];
              || (exists stem :: name == stem + ".partial") || (exists stem :: name == stem + ".db")
              || (exists stem :: name == stem + ".db-wal") || (exists stem :: name == stem + ".db-shm")
  {
    var name := p[|p| - 1];
    EndsWithIff(name, ".partial");
    EndsWithIff(name, ".db");
    EndsWithIff(name, ".db-wal");
    EndsWithIff(name, ".db-shm");
    if EndsWith(name, PARTIAL_SUFFIX) && |name| == |PARTIAL_SUFFIX| { assert name[0..] == name; }
  }
}
