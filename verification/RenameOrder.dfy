/** When the order in which a rename meets the descendants matters, nested renames included. */
module RenameOrder {
  import opened Paths
  import opened Inodes

  /** The names a rename moves one by one: the strict descendants found once the top has moved. */
  ghost function Movers(t: Table, src: Path, dst: Path): set<Path> {
    set q | q in TopMoved(t, src, dst).byPath && src <= q && q != src
  }

  /** Every order of the hash map gives the same table. */
  ghost predicate OrderIsFree(t: Table, src: Path, dst: Path) {
    forall a, b :: IsDescendantOrder(TopMoved(t, src, dst), src, a) && IsDescendantOrder(TopMoved(t, src, dst), src, b)
      ==> RenamedIn(t, src, dst, a) == RenamedIn(t, src, dst, b)
  }

  lemma MoversOwned(t: Table, src: Path, dst: Path)
    requires Consistent(t) && src != []
    ensures Owned(TopMoved(t, src, dst), Movers(t, src, dst))
  {
    WithoutPathConsistent(t, dst);
  }

  lemma OrderedMovers(t: Table, src: Path, dst: Path, order: seq<Path>)
    requires IsDescendantOrder(TopMoved(t, src, dst), src, order)
    ensures (set q | q in order) == Movers(t, src, dst)
  {
  }

  // ---------------------------------------------------------------- orders that do not matter

  lemma {:induction false} MovedOntoItself(t: Table, order: seq<Path>, src: Path)
    requires Owned(t, set q | q in order) && forall q :: q in order ==> src <= q
    ensures MovedAll(t, order, src, src) == t
  {
    if order != [] {
      var front, last := order[..|order| - 1], order[|order| - 1];
      assert forall q :: q in order <==> q in front || q == last;
      assert last in (set q | q in order);
      MovedOntoItself(t, front, src);
      assert Shift(last, src, src) == last;
      assert (t.byPath - {last})[last := t.byPath[last]] == t.byPath;
    }
  }

  lemma FreeWithoutTargets(t: Table, src: Path, dst: Path)
    requires Consistent(t) && src != [] && (src == dst || NoTargetIn(Movers(t, src, dst), src, dst))
    ensures OrderIsFree(t, src, dst)
  {
    var top := TopMoved(t, src, dst);
    MoversOwned(t, src, dst);
    forall a | IsDescendantOrder(top, src, a)
      ensures RenamedIn(t, src, dst, a) == if src == dst then top else MovedSet(top, Movers(t, src, dst), src, dst)
    {
      OrderedMovers(t, src, dst, a);
      if src == dst { MovedOntoItself(top, a, src); } else { MovedAllIsMovedSet(top, a, src, dst); }
    }
  }

  // ---------------------------------------------------------------- orders that do

  lemma {:induction false} Furthest(paths: set<Path>, longest: bool) returns (p: Path)
    requires paths != {}
    ensures p in paths && forall q :: q in paths ==> if longest then |q| <= |p| else |p| <= |q|
    decreases |paths|
  {
    p :| p in paths;
    if paths != {p} {
      var q := Furthest(paths - {p}, longest);
      if (if longest then |p| < |q| else |q| < |p|) { p := q; }
    }
  }

  lemma {:induction false} Enumerated(paths: set<Path>) returns (order: seq<Path>)
    ensures forall q :: q in order <==> q in paths
    ensures forall j, k :: 0 <= j < k < |order| ==> order[j] != order[k]
    decreases |paths|
  {
    if paths == {} {
      order := [];
    } else {
      var p :| p in paths;
      var rest := Enumerated(paths - {p});
      order := [p] + rest;
    }
  }

  lemma ChainLengths(a: Path, src: Path, dst: Path)
    requires src <= a && src <= Shift(a, src, dst) && src != dst
    ensures |src| != |dst| && |Shift(a, src, dst)| == |a| + |dst| - |src|
  {
    ShiftBack(a, src, dst);
    var b := Shift(a, src, dst);
    assert b[..|src|] == src && b[..|dst|] == dst;
  }

  /** Where targets are movers themselves there is a last such pair: its second target is no mover. */
  lemma LastPair(movers: set<Path>, src: Path, dst: Path) returns (q: Path)
    requires src != dst && !NoTargetIn(movers, src, dst) && forall m :: m in movers ==> src <= m
    ensures q in movers && Shift(q, src, dst) in movers && Shift(Shift(q, src, dst), src, dst) !in movers
  {
    var firsts := set m | m in movers && Shift(m, src, dst) in movers;
    var a, b :| a in movers && b in movers && Shift(a, src, dst) == b;
    assert a in firsts;
    q := Furthest(firsts, |dst| > |src|);
    ChainLengths(q, src, dst);
    assert Shift(q, src, dst) !in firsts;
  }

  /** Moving paths that neither are `s` nor land on it leaves `s` alone. */
  lemma {:induction false} Untouched(t: Table, order: seq<Path>, src: Path, dst: Path, s: Path)
    requires s in t.byPath && forall o :: o in order ==> o != s && Shift(o, src, dst) != s
    ensures s in MovedAll(t, order, src, dst).byPath && MovedAll(t, order, src, dst).byPath[s] == t.byPath[s]
  {
    if order != [] {
      var front, last := order[..|order| - 1], order[|order| - 1];
      assert last in order && forall o :: o in front ==> o in order;
      Untouched(t, front, src, dst, s);
    }
  }

  lemma PairMatters(top: Table, q: Path, rest: seq<Path>, src: Path, dst: Path)
    requires var r := Shift(q, src, dst); var s := Shift(r, src, dst);
      && src <= q && src <= r && src != dst && q in top.byPath && r in top.byPath && top.byPath[q] != top.byPath[r]
      && forall o :: o in rest ==> src <= o && o != q && o != r && o != s
    ensures var r := Shift(q, src, dst);
      MovedAll(top, [q, r] + rest, src, dst) != MovedAll(top, [r, q] + rest, src, dst)
  {
    var r := Shift(q, src, dst);
    var s := Shift(r, src, dst);
    ChainLengths(q, src, dst);
    ShiftBack(r, src, dst);
    assert |s| == |r| + |dst| - |src|;
    ChainDependsOnOrder(top, q, r, s, src, dst);
    forall o | o in rest ensures Shift(o, src, dst) != s { ShiftBack(o, src, dst); }
    MovedAllAppend(top, [q, r], rest, src, dst);
    MovedAllAppend(top, [r, q], rest, src, dst);
    Untouched(MovedAll(top, [q, r], src, dst), rest, src, dst, s);
    Untouched(MovedAll(top, [r, q], src, dst), rest, src, dst, s);
  }

  lemma OwnedApart(t: Table, names: set<Path>, a: Path, b: Path)
    requires Owned(t, names) && a in names && b in names && a != b
    ensures t.byPath[a] != t.byPath[b]
  {
  }

  lemma PairThenRest(top: Table, src: Path, movers: set<Path>, q: Path, r: Path, rest: seq<Path>)
    requires forall m :: m in movers <==> m in top.byPath && src <= m && m != src
    requires q in movers && r in movers && q != r && forall o :: o in rest <==> o in movers && o != q && o != r
    requires forall j, k :: 0 <= j < k < |rest| ==> rest[j] != rest[k]
    ensures IsDescendantOrder(top, src, [q, r] + rest)
  {
    var order := [q, r] + rest;
    assert forall o :: o in order <==> o == q || o == r || o in rest;
    forall j, k | 0 <= j < k < |order| ensures order[j] != order[k] {
      if k >= 2 { assert order[k] == rest[k - 2] && rest[k - 2] in rest; }
    }
  }

  lemma PairBreaks(t: Table, src: Path, dst: Path, q: Path, rest: seq<Path>)
    requires var m, r := Movers(t, src, dst), Shift(q, src, dst);
      && src != [] && src != dst && q in m && r in m && q != r && Shift(r, src, dst) !in m
      && (forall o :: o in rest <==> o in m && o != q && o != r)
    requires forall j, k :: 0 <= j < k < |rest| ==> rest[j] != rest[k]
    requires Owned(TopMoved(t, src, dst), Movers(t, src, dst))
    ensures !OrderIsFree(t, src, dst)
  {
    var top, movers, r := TopMoved(t, src, dst), Movers(t, src, dst), Shift(q, src, dst);
    OwnedApart(top, movers, q, r);
    PairMatters(top, q, rest, src, dst);
    PairThenRest(top, src, movers, q, r, rest);
    PairThenRest(top, src, movers, r, q, rest);
    assert RenamedIn(t, src, dst, [q, r] + rest) != RenamedIn(t, src, dst, [r, q] + rest);
  }

  lemma TargetsMatter(t: Table, src: Path, dst: Path)
    requires Consistent(t) && src != [] && src != dst && !NoTargetIn(Movers(t, src, dst), src, dst)
    ensures !OrderIsFree(t, src, dst)
  {
    var movers := Movers(t, src, dst);
    var q := LastPair(movers, src, dst);
    ChainLengths(q, src, dst);
    MoversOwned(t, src, dst);
    var rest := Enumerated(movers - {q, Shift(q, src, dst)});
    PairBreaks(t, src, dst, q, rest);
  }

  /** The order matters exactly when a name to be moved is where another one is moved to, and the
      rename is not onto itself. */
  lemma OrderFreeIff(t: Table, src: Path, dst: Path)
    requires Consistent(t) && src != []
    ensures OrderIsFree(t, src, dst) <==> src == dst || NoTargetIn(Movers(t, src, dst), src, dst)
  {
    if src == dst || NoTargetIn(Movers(t, src, dst), src, dst) {
      FreeWithoutTargets(t, src, dst);
    } else {
      TargetsMatter(t, src, dst);
    }
  }
}
