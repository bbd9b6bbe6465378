/** Inode numbers and the paths they stand for: how lookups, renames, removals and forgets keep the
    two directions in step, and exactly when they do not. */
module Inodes {
  import opened Paths

  const ROOT_INO: nat := 1
  const MAX_REFCOUNT: nat := 0xFFFF_FFFF_FFFF_FFFF

  datatype Entry = Entry(path: Path, refcount: nat)

  datatype Table = Table(byIno: map<nat, Entry>, byPath: map<Path, nat>, nextIno: nat)

  const EMPTY_TABLE: Table :=
    Table(map[ROOT_INO := Entry([], MAX_REFCOUNT)], map[[] := ROOT_INO], 2)

  /** What every operation keeps: each path's inode names that path back, numbers in use are
      below the next one to issue, and the root path belongs to inode 1 alone. */
  ghost predicate Consistent(t: Table) {
    && [] in t.byPath && t.byPath[[]] == ROOT_INO
    && (forall p :: p in t.byPath ==> t.byPath[p] in t.byIno && t.byIno[t.byPath[p]].path == p)
    && (forall i :: i in t.byIno ==> i < t.nextIno)
    && (forall i :: i in t.byIno && t.byIno[i].path == [] ==> i == ROOT_INO)
  }

  /** The converse direction: every inode is reachable through its own path. */
  ghost predicate Linked(t: Table) {
    forall i :: i in t.byIno ==> t.byIno[i].path in t.byPath && t.byPath[t.byIno[i].path] == i
  }

  // ---------------------------------------------------------------- operations on values

  function WithoutPath(t: Table, p: Path): Table {
    if p == [] || p !in t.byPath then t
    else t.(byPath := t.byPath - {p}, byIno := t.byIno - {t.byPath[p]})
  }

  function SaturatingInc(n: nat): nat {
    if n < MAX_REFCOUNT then n + 1 else MAX_REFCOUNT
  }

  function LookedUp(t: Table, p: Path): Table
    requires p in t.byPath ==> t.byPath[p] in t.byIno
  {
    if p in t.byPath then
      var i := t.byPath[p];
      t.(byIno := t.byIno[i := t.byIno[i].(refcount := SaturatingInc(t.byIno[i].refcount))])
    else
      Table(t.byIno[t.nextIno := Entry(p, 1)], t.byPath[p := t.nextIno], t.nextIno + 1)
  }

  function Forgotten(t: Table, ino: nat, n: nat): Table {
    if ino == ROOT_INO || ino !in t.byIno then t
    else
      var e := t.byIno[ino];
      if e.refcount > n then t.(byIno := t.byIno[ino := e.(refcount := e.refcount - n)])
      else t.(byIno := t.byIno - {ino}, byPath := t.byPath - {e.path})
  }

  ghost function Under(t: Table, p: Path): set<Path> {
    set q | q in t.byPath && p <= q
  }

  ghost function InosOf(t: Table, qs: set<Path>): set<nat> {
    set q | q in qs && q in t.byPath :: t.byPath[q]
  }

  ghost function WithoutNames(t: Table, qs: set<Path>): Table {
    t.(byPath := t.byPath - qs, byIno := t.byIno - InosOf(t, qs))
  }

  ghost function WithoutSubtree(t: Table, p: Path): Table {
    if p == [] then t else WithoutNames(t, Under(t, p))
  }

  /** `join(dst, strip_prefix(q, src))`, for the paths at or below `src`. */
  function Shift(q: Path, src: Path, dst: Path): Path {
    if src <= q then dst + q[|src|..] else q
  }

  lemma ShiftBack(q: Path, src: Path, dst: Path)
    requires src <= q
    ensures dst <= Shift(q, src, dst)
    ensures Shift(Shift(q, src, dst), dst, src) == q
    ensures Incomparable(src, dst) ==> !(src <= Shift(q, src, dst))
  {
    var d := Shift(q, src, dst);
    assert d[..|dst|] == dst && d[|dst|..] == q[|src|..];
  }

  /** One step of a rename: the entry at `q`, if any, moves to its name under `dst`. */
  function MovedOne(t: Table, q: Path, src: Path, dst: Path): Table {
    if !(src <= q) || q !in t.byPath then t
    else
      var i, d := t.byPath[q], Shift(q, src, dst);
      Table(if i in t.byIno then t.byIno[i := t.byIno[i].(path := d)] else t.byIno,
            (t.byPath - {q})[d := i], t.nextIno)
  }

  function MovedAll(t: Table, order: seq<Path>, src: Path, dst: Path): Table {
    if order == [] then t
    else MovedOne(MovedAll(t, order[..|order| - 1], src, dst), order[|order| - 1], src, dst)
  }

  /** The strict descendants of `src`, once each, in some order of the hash map. */
  ghost predicate IsDescendantOrder(t: Table, src: Path, order: seq<Path>) {
    && (forall q :: q in order <==> q in t.byPath && src <= q && q != src)
    && (forall j, k :: 0 <= j < k < |order| ==> order[j] != order[k])
  }

  /** The table just before the descendants are moved. */
  function TopMoved(t: Table, src: Path, dst: Path): Table {
    MovedOne(WithoutPath(t, dst), src, src, dst)
  }

  /** A rename that meets the descendants in the given order. */
  function RenamedIn(t: Table, src: Path, dst: Path, order: seq<Path>): Table {
    if src == [] then t else MovedAll(TopMoved(t, src, dst), order, src, dst)
  }

  /** Does the name `q` under `dst` come from a moved path? */
  predicate Arrives(moved: set<Path>, q: Path, src: Path, dst: Path) {
    dst <= q && Shift(q, dst, src) in moved
  }

  /** All of `moved` carried over at once. */
  ghost function MovedSet(t: Table, moved: set<Path>, src: Path, dst: Path): Table
    requires forall m :: m in moved ==> m in t.byPath && src <= m
  {
    Table(
      map i | i in t.byIno ::
        var e := t.byIno[i];
        if e.path in moved && t.byPath[e.path] == i then e.(path := Shift(e.path, src, dst)) else e,
      map q | q in (t.byPath.Keys - moved) + (set m | m in moved :: Shift(m, src, dst)) ::
        if Arrives(moved, q, src, dst) then t.byPath[Shift(q, dst, src)]
        else if q in t.byPath then t.byPath[q] else 0,
      t.nextIno)
  }

  /** The closed form of a rename between paths neither of which contains the other. */
  ghost function Renamed(t: Table, src: Path, dst: Path): Table {
    var t1 := WithoutPath(t, dst);
    MovedSet(t1, Under(t1, src), src, dst)
  }

  // ---------------------------------------------------------------- invariants

  lemma WithoutPathConsistent(t: Table, p: Path)
    requires Consistent(t)
    ensures Consistent(WithoutPath(t, p))
  {
  }

  lemma MovedOneConsistent(t: Table, q: Path, src: Path, dst: Path)
    requires Consistent(t) && q != [] && dst != []
    ensures Consistent(MovedOne(t, q, src, dst))
  {
  }

  lemma {:induction false} MovedAllConsistent(t: Table, order: seq<Path>, src: Path, dst: Path)
    requires Consistent(t) && [] !in order && dst != []
    ensures Consistent(MovedAll(t, order, src, dst))
  {
    if order != [] {
      var front := order[..|order| - 1];
      MovedAllConsistent(t, front, src, dst);
      MovedOneConsistent(MovedAll(t, front, src, dst), order[|order| - 1], src, dst);
    }
  }

  // ---------------------------------------------------------------- order independence

  /** Each of these names is tracked and its inode names it back. */
  ghost predicate Owned(t: Table, names: set<Path>) {
    forall m :: m in names ==> m in t.byPath && t.byPath[m] in t.byIno && t.byIno[t.byPath[m]].path == m
  }

  /** None of these names is where another of them, or itself, is moved to. */
  ghost predicate NoTargetIn(names: set<Path>, src: Path, dst: Path) {
    forall a, b :: a in names && b in names ==> Shift(a, src, dst) != b
  }

  lemma IncomparableHasNoTarget(names: set<Path>, src: Path, dst: Path)
    requires Incomparable(src, dst) && forall m :: m in names ==> src <= m
    ensures NoTargetIn(names, src, dst)
  {
    forall a | a in names ensures !(src <= Shift(a, src, dst)) { ShiftBack(a, src, dst); }
  }

  /** The names after a set of paths has moved, without the comprehension's image. */
  lemma MovedSetNames(t: Table, moved: set<Path>, q: Path, src: Path, dst: Path)
    requires forall m :: m in moved ==> m in t.byPath && src <= m
    ensures q in MovedSet(t, moved, src, dst).byPath <==>
              Arrives(moved, q, src, dst) || (q in t.byPath && q !in moved)
  {
    if Arrives(moved, q, src, dst) {
      ShiftBack(q, dst, src);
      assert q == Shift(Shift(q, dst, src), src, dst);
    }
    forall m | m in moved ensures Arrives(moved, Shift(m, src, dst), src, dst) {
      ShiftBack(m, src, dst);
    }
  }

  lemma MovedSetStepAt(t: Table, moved: set<Path>, q: Path, src: Path, dst: Path, p: Path)
    requires Owned(t, moved + {q}) && NoTargetIn(moved + {q}, src, dst)
    requires forall m :: m in moved ==> m in t.byPath && src <= m
    requires q in t.byPath && src <= q && q !in moved
    ensures var a, b := MovedOne(MovedSet(t, moved, src, dst), q, src, dst), MovedSet(t, moved + {q}, src, dst);
      (p in a.byPath <==> p in b.byPath) && (p in a.byPath ==> a.byPath[p] == b.byPath[p])
  {
    var s := MovedSet(t, moved, src, dst);
    MovedSetNames(t, moved, q, src, dst);
    MovedSetNames(t, moved, p, src, dst);
    MovedSetNames(t, moved + {q}, p, src, dst);
    ShiftBack(q, src, dst);
    if dst <= p { ShiftBack(p, dst, src); }
    if dst <= q { ShiftBack(q, dst, src); }
    assert q in s.byPath && s.byPath[q] == t.byPath[q];
  }

  lemma MovedSetStepInoAt(t: Table, moved: set<Path>, q: Path, src: Path, dst: Path, i: nat)
    requires Owned(t, moved + {q}) && NoTargetIn(moved + {q}, src, dst)
    requires forall m :: m in moved ==> m in t.byPath && src <= m
    requires q in t.byPath && src <= q && q !in moved && i in t.byIno
    ensures var a, b := MovedOne(MovedSet(t, moved, src, dst), q, src, dst), MovedSet(t, moved + {q}, src, dst);
      i in a.byIno && a.byIno[i] == b.byIno[i]
  {
    StillAt(t, moved, q, src, dst);
    assert q in moved + {q};
  }

  lemma MovedSetStepIno(t: Table, moved: set<Path>, q: Path, src: Path, dst: Path)
    requires Owned(t, moved + {q}) && NoTargetIn(moved + {q}, src, dst)
    requires forall m :: m in moved ==> m in t.byPath && src <= m
    requires q in t.byPath && src <= q && q !in moved
    ensures MovedOne(MovedSet(t, moved, src, dst), q, src, dst).byIno == MovedSet(t, moved + {q}, src, dst).byIno
  {
    var a, b := MovedOne(MovedSet(t, moved, src, dst), q, src, dst), MovedSet(t, moved + {q}, src, dst);
    assert a.byIno.Keys == t.byIno.Keys == b.byIno.Keys;
    forall i | i in t.byIno ensures a.byIno[i] == b.byIno[i] { MovedSetStepInoAt(t, moved, q, src, dst, i); }
  }

  /** A path that has not moved and is no one's target is where it was. */
  lemma StillAt(t: Table, moved: set<Path>, q: Path, src: Path, dst: Path)
    requires NoTargetIn(moved + {q}, src, dst) && q in t.byPath && src <= q && q !in moved
    requires forall m :: m in moved ==> m in t.byPath && src <= m
    ensures q in MovedSet(t, moved, src, dst).byPath && MovedSet(t, moved, src, dst).byPath[q] == t.byPath[q]
  {
    MovedSetNames(t, moved, q, src, dst);
    if dst <= q { ShiftBack(q, dst, src); }
  }

  /** Moving one more path after a set of them is moving the larger set. */
  lemma MovedSetStep(t: Table, moved: set<Path>, q: Path, src: Path, dst: Path)
    requires Owned(t, moved + {q}) && NoTargetIn(moved + {q}, src, dst)
    requires forall m :: m in moved ==> m in t.byPath && src <= m
    requires q in t.byPath && src <= q && q !in moved
    ensures MovedOne(MovedSet(t, moved, src, dst), q, src, dst) == MovedSet(t, moved + {q}, src, dst)
  {
    MovedSetStepNames(t, moved, q, src, dst);
    MovedSetStepIno(t, moved, q, src, dst);
  }

  lemma MovedSetStepNames(t: Table, moved: set<Path>, q: Path, src: Path, dst: Path)
    requires Owned(t, moved + {q}) && NoTargetIn(moved + {q}, src, dst)
    requires forall m :: m in moved ==> m in t.byPath && src <= m
    requires q in t.byPath && src <= q && q !in moved
    ensures MovedOne(MovedSet(t, moved, src, dst), q, src, dst).byPath == MovedSet(t, moved + {q}, src, dst).byPath
  {
    var a, b := MovedOne(MovedSet(t, moved, src, dst), q, src, dst), MovedSet(t, moved + {q}, src, dst);
    forall p ensures p in a.byPath <==> p in b.byPath
             ensures p in a.byPath ==> a.byPath[p] == b.byPath[p] {
      MovedSetStepAt(t, moved, q, src, dst, p);
    }
  }

  lemma MovedSetNone(t: Table, src: Path, dst: Path)
    ensures MovedSet(t, {}, src, dst) == t
  {
  }

  /** Whatever prefix of the order has been processed, the table is the set form of it. */
  lemma {:induction false} MovedAllIsMovedSet(t: Table, order: seq<Path>, src: Path, dst: Path)
    requires Owned(t, set q | q in order) && NoTargetIn((set q | q in order), src, dst)
    requires forall q :: q in order ==> q in t.byPath && src <= q
    requires forall j, k :: 0 <= j < k < |order| ==> order[j] != order[k]
    ensures MovedAll(t, order, src, dst) == MovedSet(t, (set q | q in order), src, dst)
  {
    if order == [] {
      MovedSetNone(t, src, dst);
      assert (set q | q in order) == {};
    } else {
      var front, last := order[..|order| - 1], order[|order| - 1];
      var done := set q | q in front;
      assert order == front + [last];
      assert (set q | q in order) == done + {last};
      MovedAllIsMovedSet(t, front, src, dst);
      MovedSetStep(t, done, last, src, dst);
    }
  }

  /** The iteration order of the hash map does not matter between incomparable paths. */
  lemma RenameOrderIndependent(t: Table, src: Path, dst: Path, order: seq<Path>)
    requires Consistent(t) && Incomparable(src, dst)
    requires IsDescendantOrder(TopMoved(t, src, dst), src, order)
    ensures RenamedIn(t, src, dst, order) == Renamed(t, src, dst)
  {
    var t1 := WithoutPath(t, dst);
    WithoutPathConsistent(t, dst);
    ShiftBack(src, src, dst);
    var head := if src in t1.byPath then [src] else [];
    var full := head + order;
    forall q ensures q in full <==> q in Under(t1, src) {
      if q in full { assert q in head || q in order; }
      if q in Under(t1, src) && q != src { assert q in order; }
    }
    assert (set q | q in full) == Under(t1, src);
    assert src !in order;
    assert forall j, k :: 0 <= j < k < |full| ==> full[j] != full[k];
    MovedAllAppend(t1, head, order, src, dst);
    assert MovedAll(t1, head, src, dst) == TopMoved(t, src, dst) by {
      if src in t1.byPath { assert head[..0] == []; }
    }
    IncomparableHasNoTarget(Under(t1, src), src, dst);
    MovedAllIsMovedSet(t1, full, src, dst);
  }

  lemma {:induction false} MovedAllAppend(t: Table, a: seq<Path>, b: seq<Path>, src: Path, dst: Path)
    ensures MovedAll(t, a + b, src, dst) == MovedAll(MovedAll(t, a, src, dst), b, src, dst)
  {
    if b == [] {
      assert a + b == a;
    } else {
      var front := b[..|b| - 1];
      MovedAllAppend(t, a, front, src, dst);
      assert (a + b)[..|a + b| - 1] == a + front;
    }
  }

  const OUTER: Path := ["a"]
  const INNER: Path := ["a", "b"]
  const OUTER_CHILD: Path := ["a", "x"]
  const INNER_CHILD: Path := ["a", "b", "x"]
  const NESTED_TABLE: Table :=
    Table(map[1 := Entry([], MAX_REFCOUNT), 2 := Entry(OUTER_CHILD, 1), 3 := Entry(INNER_CHILD, 1)],
          map[[] := 1, OUTER_CHILD := 2, INNER_CHILD := 3], 4)

  /** Into its own subtree the order does matter: two orders, two different tables. */
  lemma NestedRenameDependsOnOrder()
    ensures Consistent(NESTED_TABLE)
    ensures IsDescendantOrder(TopMoved(NESTED_TABLE, OUTER, INNER), OUTER, [OUTER_CHILD, INNER_CHILD])
    ensures IsDescendantOrder(TopMoved(NESTED_TABLE, OUTER, INNER), OUTER, [INNER_CHILD, OUTER_CHILD])
    ensures RenamedIn(NESTED_TABLE, OUTER, INNER, [OUTER_CHILD, INNER_CHILD])
         != RenamedIn(NESTED_TABLE, OUTER, INNER, [INNER_CHILD, OUTER_CHILD])
  {
    var x, bx := OUTER_CHILD, INNER_CHILD;
    NestedPaths();
    NestedOrders();
    ChainDependsOnOrder(NESTED_TABLE, x, bx, Shift(bx, OUTER, INNER), OUTER, INNER);
  }

  lemma NestedOrders()
    ensures Consistent(NESTED_TABLE)
    ensures TopMoved(NESTED_TABLE, OUTER, INNER) == NESTED_TABLE
    ensures IsDescendantOrder(NESTED_TABLE, OUTER, [OUTER_CHILD, INNER_CHILD])
    ensures IsDescendantOrder(NESTED_TABLE, OUTER, [INNER_CHILD, OUTER_CHILD])
  {
    NestedPaths();
    assert INNER !in NESTED_TABLE.byPath && OUTER !in NESTED_TABLE.byPath;
  }

  lemma NestedPaths()
    ensures |OUTER| == 1 && OUTER <= OUTER_CHILD && OUTER <= INNER_CHILD
    ensures Shift(OUTER_CHILD, OUTER, INNER) == INNER_CHILD
    ensures |OUTER_CHILD| == 2 && |INNER_CHILD| == 3 && |Shift(INNER_CHILD, OUTER, INNER)| == 4
    ensures INNER != OUTER_CHILD && |INNER| == 2
  {
  }

  lemma ChainDependsOnOrder(t: Table, p: Path, q: Path, r: Path, src: Path, dst: Path)
    requires src <= p && src <= q && Shift(p, src, dst) == q && Shift(q, src, dst) == r
    requires p in t.byPath && q in t.byPath && t.byPath[p] != t.byPath[q]
    requires p != q && q != r && p != r
    ensures var a, b := MovedAll(t, [p, q], src, dst), MovedAll(t, [q, p], src, dst);
      r in a.byPath && a.byPath[r] == t.byPath[p] && r in b.byPath && b.byPath[r] == t.byPath[q]
  {
    MovedAllTwo(t, p, q, src, dst);
    MovedAllTwo(t, q, p, src, dst);
  }

  lemma MovedAllTwo(t: Table, p: Path, q: Path, src: Path, dst: Path)
    ensures MovedAll(t, [p, q], src, dst) == MovedOne(MovedOne(t, p, src, dst), q, src, dst)
  {
    assert [p, q][..1] == [p] && [p][..0] == [];
    assert MovedAll(t, [p], src, dst) == MovedOne(MovedAll(t, [], src, dst), p, src, dst);
  }

  // ---------------------------------------------------------------- what a rename does

  /** The subtree arrives whole with its inodes and refcounts and nothing stays behind. A stale
      name below `dst` survives exactly when no moved name lands on it. */
  lemma RenameMovesSubtree(t: Table, src: Path, dst: Path, s: Path)
    requires Consistent(t) && Incomparable(src, dst)
    ensures var r := Renamed(t, src, dst);
      && (src + s in t.byPath ==>
            && dst + s in r.byPath && r.byPath[dst + s] == t.byPath[src + s]
            && r.byPath[dst + s] in r.byIno
            && r.byIno[r.byPath[dst + s]] == Entry(dst + s, t.byIno[t.byPath[src + s]].refcount))
      && src + s !in r.byPath
      && (src + s !in t.byPath ==>
            (dst + s in r.byPath <==> s != [] && dst + s in t.byPath)
            && (dst + s in r.byPath ==> r.byPath[dst + s] == t.byPath[dst + s]))
  {
    var t1 := WithoutPath(t, dst);
    WithoutPathConsistent(t, dst);
    var a, b := src + s, dst + s;
    assert src <= a && dst <= b;
    ShiftBack(a, src, dst);
    ShiftBack(b, dst, src);
    assert Shift(a, src, dst) == b && Shift(b, dst, src) == a;
    MovedSetNames(t1, Under(t1, src), a, src, dst);
    MovedSetNames(t1, Under(t1, src), b, src, dst);
    assert b == dst ==> s == [];
    assert s == [] ==> b == dst;
  }

  /** Names outside both subtrees keep their inodes and entries. */
  lemma {:induction false} RenameLeavesOthers(t: Table, src: Path, dst: Path, q: Path)
    requires Consistent(t) && Incomparable(src, dst) && !(src <= q) && !(dst <= q)
    ensures var r := Renamed(t, src, dst);
      && (q in r.byPath <==> q in t.byPath)
      && (q in t.byPath ==>
            && r.byPath[q] == t.byPath[q]
            && r.byPath[q] in r.byIno && r.byIno[r.byPath[q]] == t.byIno[t.byPath[q]])
  {
    var t1 := WithoutPath(t, dst);
    WithoutPathConsistent(t, dst);
    MovedSetNames(t1, Under(t1, src), q, src, dst);
  }

  /** Renaming there and back restores the table when the target subtree was free. */
  lemma RenameRoundTrip(t: Table, src: Path, dst: Path)
    requires Consistent(t) && Incomparable(src, dst) && Under(t, dst) == {}
    ensures Renamed(Renamed(t, src, dst), dst, src) == t
  {
    RoundTripNames(t, src, dst);
    RoundTripInos(t, src, dst);
  }

  lemma RoundTripNames(t: Table, src: Path, dst: Path)
    requires Consistent(t) && Incomparable(src, dst) && Under(t, dst) == {}
    ensures Renamed(Renamed(t, src, dst), dst, src).byPath == t.byPath
  {
    var back := Renamed(Renamed(t, src, dst), dst, src);
    forall q
      ensures q in back.byPath <==> q in t.byPath
      ensures q in t.byPath ==> back.byPath[q] == t.byPath[q]
    {
      RoundTripAt(t, src, dst, q);
    }
  }

  lemma RoundTripInos(t: Table, src: Path, dst: Path)
    requires Consistent(t) && Incomparable(src, dst) && Under(t, dst) == {}
    ensures var back := Renamed(Renamed(t, src, dst), dst, src); back.byIno == t.byIno && back.nextIno == t.nextIno
  {
    var back := Renamed(Renamed(t, src, dst), dst, src);
    FreeTarget(t, src, dst);
    assert back.byIno.Keys == t.byIno.Keys;
    forall i | i in t.byIno ensures back.byIno[i] == t.byIno[i] { RoundTripIno(t, src, dst, i); }
  }

  lemma FreeTarget(t: Table, src: Path, dst: Path)
    requires Consistent(t) && Incomparable(src, dst) && Under(t, dst) == {}
    ensures WithoutPath(t, dst) == t
    ensures WithoutPath(Renamed(t, src, dst), src) == Renamed(t, src, dst)
    ensures Under(Renamed(t, src, dst), src) == {}
  {
    assert dst !in Under(t, dst);
    forall q | src <= q ensures q !in Renamed(t, src, dst).byPath {
      RenameMovesSubtree(t, src, dst, q[|src|..]);
      assert src + q[|src|..] == q;
    }
  }

  lemma RoundTripAt(t: Table, src: Path, dst: Path, q: Path)
    requires Consistent(t) && Incomparable(src, dst) && Under(t, dst) == {}
    ensures var back := Renamed(Renamed(t, src, dst), dst, src);
      (q in back.byPath <==> q in t.byPath) && (q in t.byPath ==> back.byPath[q] == t.byPath[q])
  {
    RenamedConsistent(t, src, dst);
    var r := Renamed(t, src, dst);
    FreeTarget(t, src, dst);
    if src <= q {
      var s := q[|src|..];
      assert src + s == q;
      RenameMovesSubtree(t, src, dst, s);
      RenameMovesSubtree(r, dst, src, s);
      assert dst + s !in Under(t, dst) && q !in Under(r, src);
    } else if dst <= q {
      var s := q[|dst|..];
      assert dst + s == q;
      assert q !in Under(t, dst);
      RenameMovesSubtree(r, dst, src, s);
    } else {
      RenameLeavesOthers(t, src, dst, q);
      RenameLeavesOthers(r, dst, src, q);
    }
  }

  lemma RoundTripIno(t: Table, src: Path, dst: Path, i: nat)
    requires Consistent(t) && Incomparable(src, dst) && Under(t, dst) == {}
    requires i in t.byIno
    ensures var back := Renamed(Renamed(t, src, dst), dst, src);
      i in back.byIno && back.byIno[i] == t.byIno[i]
  {
    var r := Renamed(t, src, dst);
    FreeTarget(t, src, dst);
    var p := t.byIno[i].path;
    if src <= p && p in t.byPath && t.byPath[p] == i {
      var s := p[|src|..];
      assert src + s == p && dst + s == Shift(p, src, dst);
      ShiftBack(p, src, dst);
      RenameMovesSubtree(t, src, dst, s);
    } else if dst <= p && p in r.byPath {
      var s := p[|dst|..];
      assert dst + s == p;
      RenameMovesSubtree(t, src, dst, s);
      assert p !in Under(t, dst);
      assert src + s != p;
    }
  }

  lemma RenamedConsistent(t: Table, src: Path, dst: Path)
    requires Consistent(t) && Incomparable(src, dst)
    ensures Consistent(Renamed(t, src, dst))
  {
    var r := Renamed(t, src, dst);
    var t1 := WithoutPath(t, dst);
    WithoutPathConsistent(t, dst);
    forall q ensures q in r.byPath <==> Arrives(Under(t1, src), q, src, dst) || (q in t1.byPath && !(src <= q)) {
      MovedSetNames(t1, Under(t1, src), q, src, dst);
    }
    forall q | q in r.byPath ensures r.byPath[q] in r.byIno && r.byIno[r.byPath[q]].path == q {
      if dst <= q { ShiftBack(q, dst, src); }
    }
    assert [] in r.byPath;
  }

  /** A collision is a moved name landing on a stale one. */
  ghost predicate Collides(t: Table, src: Path, dst: Path) {
    exists q :: q in t.byPath && src <= q && q != src && Shift(q, src, dst) in t.byPath
  }

  lemma CollisionUnlinks(t: Table, src: Path, dst: Path, q: Path)
    requires Consistent(t) && Incomparable(src, dst)
    requires q in t.byPath && src <= q && q != src && Shift(q, src, dst) in t.byPath
    ensures !Linked(Renamed(t, src, dst))
  {
    var r, t1, d := Renamed(t, src, dst), WithoutPath(t, dst), Shift(q, src, dst);
    WithoutPathConsistent(t, dst);
    ShiftBack(q, src, dst);
    assert |d| > |dst|;
    MovedSetNames(t1, Under(t1, src), d, src, dst);
    var lost := t.byPath[d];
    assert lost in r.byIno && r.byIno[lost].path == d && r.byPath[d] == t.byPath[q] != lost;
  }

  lemma NoCollisionKeepsEntry(t: Table, src: Path, dst: Path, i: nat)
    requires Consistent(t) && Linked(t) && Incomparable(src, dst) && !Collides(t, src, dst)
    ensures var r := Renamed(t, src, dst);
      i in r.byIno ==> r.byIno[i].path in r.byPath && r.byPath[r.byIno[i].path] == i
  {
    var r, t1 := Renamed(t, src, dst), WithoutPath(t, dst);
    WithoutPathConsistent(t, dst);
    if i in r.byIno {
      var p := t.byIno[i].path;
      assert t.byPath[p] == i && p != dst;
      MovedSetNames(t1, Under(t1, src), p, src, dst);
      MovedSetNames(t1, Under(t1, src), r.byIno[i].path, src, dst);
      if src <= p {
        ShiftBack(p, src, dst);
      } else if dst <= p {
        ShiftBack(p, dst, src);
      }
    }
  }

  /** The two maps stay inverse to each other under a rename exactly when nothing collides:
      an inode whose name is taken over stays behind in `byIno` with a path that is not its own. */
  lemma RenameKeepsLinkedIff(t: Table, src: Path, dst: Path)
    requires Consistent(t) && Linked(t) && Incomparable(src, dst)
    ensures Linked(Renamed(t, src, dst)) <==> !Collides(t, src, dst)
  {
    if q :| q in t.byPath && src <= q && q != src && Shift(q, src, dst) in t.byPath {
      CollisionUnlinks(t, src, dst, q);
    } else {
      forall i | i in Renamed(t, src, dst).byIno
        ensures Renamed(t, src, dst).byIno[i].path in Renamed(t, src, dst).byPath
             && Renamed(t, src, dst).byPath[Renamed(t, src, dst).byIno[i].path] == i
      {
        NoCollisionKeepsEntry(t, src, dst, i);
      }
    }
  }

  /** A rename keeps the invariant unless it puts a tracked path onto the root. */
  lemma RenameConsistentIff(t: Table, src: Path, dst: Path, order: seq<Path>)
    requires Consistent(t)
    requires src != [] ==> IsDescendantOrder(TopMoved(t, src, dst), src, order)
    ensures Consistent(RenamedIn(t, src, dst, order)) <==> src == [] || dst != [] || src !in t.byPath
  {
    if src != [] {
      var top := TopMoved(t, src, dst);
      WithoutPathConsistent(t, dst);
      if dst != [] {
        MovedOneConsistent(WithoutPath(t, dst), src, src, dst);
        MovedAllConsistent(top, order, src, dst);
      } else if src !in t.byPath {
        MovedToRoot(top, order, src);
      } else {
        MovedToRoot(top, order, src);
        assert t.byPath[src] != ROOT_INO;
      }
    }
  }

  lemma {:induction false} MovedToRoot(t: Table, order: seq<Path>, src: Path)
    requires src != [] && src !in order && [] in t.byPath
    ensures [] in MovedAll(t, order, src, []).byPath
    ensures MovedAll(t, order, src, []).byPath[[]] == t.byPath[[]]
    ensures Consistent(t) ==> Consistent(MovedAll(t, order, src, []))
  {
    if order != [] {
      var front, last := order[..|order| - 1], order[|order| - 1];
      MovedToRoot(t, front, src);
      assert last in order;
      if src <= last { assert last[..|last|] == last && last[..|src|] == src; }
    }
  }

  // ---------------------------------------------------------------- subtree removal

  function WithoutAll(t: Table, order: seq<Path>): Table {
    if order == [] then t else WithoutPath(WithoutAll(t, order[..|order| - 1]), order[|order| - 1])
  }

  lemma WithoutNamesStep(t: Table, qs: set<Path>, q: Path)
    requires Consistent(t) && q in t.byPath && q !in qs && q != []
    ensures WithoutPath(WithoutNames(t, qs), q) == WithoutNames(t, qs + {q})
  {
    assert InosOf(t, qs + {q}) == InosOf(t, qs) + {t.byPath[q]};
    assert t.byPath[q] !in InosOf(t, qs);
    assert t.byPath - qs - {q} == t.byPath - (qs + {q});
  }

  /** Removing the names one at a time, in any order, removes them and their inodes at once. */
  lemma {:induction false} WithoutAllIsSet(t: Table, order: seq<Path>)
    requires Consistent(t) && [] !in order
    requires forall q :: q in order ==> q in t.byPath
    requires forall j, k :: 0 <= j < k < |order| ==> order[j] != order[k]
    ensures WithoutAll(t, order) == WithoutNames(t, set q | q in order)
  {
    if order == [] {
      assert (set q | q in order) == {} && InosOf(t, {}) == {};
    } else {
      var front, last := order[..|order| - 1], order[|order| - 1];
      WithoutAllIsSet(t, front);
      assert order == front + [last];
      assert (set q | q in order) == (set q | q in front) + {last};
      WithoutNamesStep(t, (set q | q in front), last);
    }
  }

  lemma WithoutSubtreeConsistent(t: Table, p: Path)
    requires Consistent(t)
    ensures Consistent(WithoutSubtree(t, p))
  {
  }

  // ---------------------------------------------------------------- whole runs

  datatype Op =
    | Lookup(path: Path)
    | Unlink(path: Path)
    | Rmdir(path: Path)
    | Rename(src: Path, dst: Path, order: seq<Path>)
    | Forget(ino: nat, nlookup: nat)

  ghost predicate Legal(t: Table, op: Op) {
    op.Rename? ==> op.dst != [] && (op.src != [] ==> IsDescendantOrder(TopMoved(t, op.src, op.dst), op.src, op.order))
  }

  /** The lookup of a path whose inode is missing from `byIno` would panic. */
  predicate Panics(t: Table, op: Op) {
    op.Lookup? && op.path in t.byPath && t.byPath[op.path] !in t.byIno
  }

  ghost function Apply(t: Table, op: Op): Table {
    match op
    case Lookup(p) => if Panics(t, op) then t else LookedUp(t, p)
    case Unlink(p) => WithoutPath(t, p)
    case Rmdir(p) => WithoutSubtree(t, p)
    case Rename(src, dst, order) => RenamedIn(t, src, dst, order)
    case Forget(i, n) => Forgotten(t, i, n)
  }

  lemma ApplyConsistent(t: Table, op: Op)
    requires Consistent(t) && Legal(t, op)
    ensures Consistent(Apply(t, op)) && !Panics(t, op)
    ensures Apply(t, op).nextIno == t.nextIno + if op.Lookup? && op.path !in t.byPath then 1 else 0
  {
    match op
    case Lookup(p) =>
    case Unlink(p) =>
    case Rmdir(p) => WithoutSubtreeConsistent(t, p);
    case Rename(src, dst, order) =>
      RenameConsistentIff(t, src, dst, order);
      if src != [] { MovedAllNextIno(TopMoved(t, src, dst), order, src, dst); }
    case Forget(i, n) =>
  }

  lemma {:induction false} MovedAllNextIno(t: Table, order: seq<Path>, src: Path, dst: Path)
    ensures MovedAll(t, order, src, dst).nextIno == t.nextIno
  {
    if order != [] { MovedAllNextIno(t, order[..|order| - 1], src, dst); }
  }

  /** The tables a run of operations passes through, first to last. */
  ghost predicate IsRun(ts: seq<Table>, ops: seq<Op>) {
    && |ts| == |ops| + 1
    && ts[0] == EMPTY_TABLE
    && forall k :: 0 <= k < |ops| ==> Legal(ts[k], ops[k]) && ts[k + 1] == Apply(ts[k], ops[k])
  }

  /** The inode number issued by step `k`, if that step issued one. */
  ghost predicate Issues(ts: seq<Table>, ops: seq<Op>, k: nat, ino: nat)
    requires |ts| == |ops| + 1 && k < |ops|
  {
    ops[k].Lookup? && ops[k].path !in ts[k].byPath && ops[k].path in ts[k + 1].byPath && ts[k + 1].byPath[ops[k].path] == ino
  }

  lemma {:induction false} RunInvariant(ts: seq<Table>, ops: seq<Op>, j: nat, k: nat)
    requires IsRun(ts, ops) && j <= k <= |ops|
    ensures Consistent(ts[k]) && ts[j].nextIno <= ts[k].nextIno
    decreases k
  {
    if k > 0 {
      if j < k { RunInvariant(ts, ops, j, k - 1); } else { RunInvariant(ts, ops, k - 1, k - 1); }
      ApplyConsistent(ts[k - 1], ops[k - 1]);
    }
  }

  /** In every table of every run: the root stays inode 1, no two paths share an inode, every
      number in use is below the next; no lookup panics; and no number is ever issued twice. */
  lemma {:induction false} RunsAreSafe(ts: seq<Table>, ops: seq<Op>)
    requires IsRun(ts, ops)
    ensures forall k :: 0 <= k <= |ops| ==> Consistent(ts[k])
    ensures forall k :: 0 <= k < |ops| ==> !Panics(ts[k], ops[k])
    ensures forall k, p, q :: 0 <= k <= |ops| && p in ts[k].byPath && q in ts[k].byPath && p != q
              ==> ts[k].byPath[p] != ts[k].byPath[q]
    ensures forall j: nat, k: nat, a, b :: j < k < |ops| && Issues(ts, ops, j, a) && Issues(ts, ops, k, b) ==> a < b
  {
    forall k | 0 <= k <= |ops| ensures Consistent(ts[k]) { RunInvariant(ts, ops, k, k); }
    forall j: nat, k: nat, a, b | j < k < |ops| && Issues(ts, ops, j, a) && Issues(ts, ops, k, b) ensures a < b {
      ApplyConsistent(ts[j], ops[j]);
      RunInvariant(ts, ops, j + 1, k);
    }
  }

  // ---------------------------------------------------------------- the table itself

  class InodeTable {
    var byIno: map<nat, Entry>
    var byPath: map<Path, nat>
    var nextIno: nat

    ghost function Abs(): Table reads this { Table(byIno, byPath, nextIno) }

    constructor ()
      ensures Abs() == EMPTY_TABLE && Consistent(Abs()) && Linked(Abs())
    {
      byIno := map[ROOT_INO := Entry([], MAX_REFCOUNT)];
      byPath := map[[] := ROOT_INO];
      nextIno := 2;
    }

    method GetOrCreate(path: Path) returns (ino: nat)
      requires Consistent(Abs())
      modifies this
      ensures Abs() == LookedUp(old(Abs()), path) && Consistent(Abs())
      ensures path in byPath && byPath[path] == ino
      ensures if path in old(byPath) then ino == old(byPath[path]) else ino == old(nextIno) && ino !in old(byIno)
      ensures ino in byIno && byIno[ino].path == path
      ensures path !in old(byPath) ==> byIno[ino].refcount == 1
      ensures path in old(byPath) && old(byIno)[ino].refcount < MAX_REFCOUNT ==> byIno[ino].refcount == old(byIno)[ino].refcount + 1
      ensures forall q :: q != path ==> (q in byPath <==> q in old(byPath)) && (q in byPath ==> byPath[q] == old(byPath)[q])
      ensures forall i :: i != ino ==> (i in byIno <==> i in old(byIno)) && (i in byIno ==> byIno[i] == old(byIno)[i])
    {
      if path in byPath {
        ino := byPath[path];
        byIno := byIno[ino := byIno[ino].(refcount := SaturatingInc(byIno[ino].refcount))];
        return;
      }
      ino := nextIno;
      nextIno := nextIno + 1;
      byIno := byIno[ino := Entry(path, 1)];
      byPath := byPath[path := ino];
    }

    method RemovePath(path: Path)
      modifies this
      ensures Abs() == WithoutPath(old(Abs()), path)
      ensures byPath == if path == [] then old(byPath) else old(byPath) - {path}
      ensures forall i :: i in byIno <==> i in old(byIno) && !(path != [] && path in old(byPath) && old(byPath)[path] == i)
      ensures forall i :: i in byIno ==> byIno[i] == old(byIno)[i]
    {
      if path == [] { return; }
      if path in byPath {
        var ino := byPath[path];
        byPath := byPath - {path};
        byIno := byIno - {ino};
      }
    }

    method MoveEntry(q: Path, src: Path, dst: Path)
      requires src <= q
      modifies this
      ensures Abs() == MovedOne(old(Abs()), q, src, dst)
    {
      var target := dst + q[|src|..];
      if q in byPath {
        var ino := byPath[q];
        byPath := byPath - {q};
        if ino in byIno { byIno := byIno[ino := byIno[ino].(path := target)]; }
        byPath := byPath[target := ino];
      }
    }

    method RenamePath(src: Path, dst: Path) returns (ghost order: seq<Path>)
      requires Consistent(Abs())
      modifies this
      ensures src != [] ==> IsDescendantOrder(TopMoved(old(Abs()), src, dst), src, order)
      ensures Abs() == RenamedIn(old(Abs()), src, dst, order)
      ensures Consistent(Abs()) <==> src == [] || dst != [] || src !in old(byPath)
      ensures Incomparable(src, dst) ==> Abs() == Renamed(old(Abs()), src, dst)
    {
      order := [];
      if src == [] { return; }
      RemovePath(dst);
      MoveEntry(src, src, dst);
      ghost var top := Abs();
      var descendants := set q | q in byPath && src <= q && q != src;
      var todo := descendants;
      while todo != {}
        invariant todo <= descendants
        invariant forall q :: q in order <==> q in descendants && q !in todo
        invariant forall j, k :: 0 <= j < k < |order| ==> order[j] != order[k]
        invariant Abs() == MovedAll(top, order, src, dst)
      {
        var child :| child in todo;
        todo := todo - {child};
        MoveEntry(child, src, dst);
        assert (order + [child])[..|order|] == order;
        order := order + [child];
      }
      RenameConsistentIff(old(Abs()), src, dst, order);
      if Incomparable(src, dst) { RenameOrderIndependent(old(Abs()), src, dst, order); }
    }

    method RemoveSubtree(path: Path)
      requires Consistent(Abs())
      modifies this
      ensures Abs() == WithoutSubtree(old(Abs()), path) && Consistent(Abs())
      ensures forall q :: q in byPath <==> q in old(byPath) && (path == [] || !(path <= q))
      ensures forall q :: q in byPath ==> byPath[q] == old(byPath)[q] && byPath[q] in byIno && byIno[byPath[q]] == old(byIno)[byPath[q]]
      ensures forall q :: q in old(byPath) && q !in byPath ==> old(byPath)[q] !in byIno
    {
      if path == [] { return; }
      var paths := set q | q in byPath && path <= q;
      var todo := paths;
      ghost var order: seq<Path> := [];
      while todo != {}
        invariant todo <= paths
        invariant forall q :: q in order <==> q in paths && q !in todo
        invariant forall j, k :: 0 <= j < k < |order| ==> order[j] != order[k]
        invariant Abs() == WithoutAll(old(Abs()), order)
      {
        var q :| q in todo;
        todo := todo - {q};
        RemovePath(q);
        assert (order + [q])[..|order|] == order;
        order := order + [q];
      }
      WithoutAllIsSet(old(Abs()), order);
      assert (set q | q in order) == Under(old(Abs()), path);
      WithoutSubtreeConsistent(old(Abs()), path);
    }

    method Forget(ino: nat, nlookup: nat)
      requires Consistent(Abs())
      modifies this
      ensures Abs() == Forgotten(old(Abs()), ino, nlookup) && Consistent(Abs())
      ensures ino == ROOT_INO || ino !in old(byIno) ==> Abs() == old(Abs())
      ensures ino != ROOT_INO && ino in old(byIno) && old(byIno)[ino].refcount > nlookup ==>
                byPath == old(byPath) && byIno == old(byIno)[ino := Entry(old(byIno)[ino].path, old(byIno)[ino].refcount - nlookup)]
      ensures ino != ROOT_INO && ino in old(byIno) && old(byIno)[ino].refcount <= nlookup ==>
                byPath == old(byPath) - {old(byIno)[ino].path} && byIno == old(byIno) - {ino}
    {
      if ino == ROOT_INO { return; }
      if ino in byIno {
        var left := if byIno[ino].refcount > nlookup then byIno[ino].refcount - nlookup else 0;
        byIno := byIno[ino := byIno[ino].(refcount := left)];
        if left == 0 {
          var path := byIno[ino].path;
          byIno := byIno - {ino};
          byPath := byPath - {path};
        }
      }
    }
  }
}
