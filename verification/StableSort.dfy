/** The stable sort by (season, episode): what it is, and that nothing else is one. */
module StableSort {
  import opened Paths

  /** A path under its sort key; a season directory is keyed by its number and episode 0. */
  datatype Keyed = Keyed(season: nat, episode: nat, path: Path)

  predicate Before(a: Keyed, b: Keyed) {
    a.season < b.season || (a.season == b.season && a.episode < b.episode)
  }

  predicate HasKey(x: Keyed, season: nat, episode: nat) { x.season == season && x.episode == episode }

  function Insert(x: Keyed, s: seq<Keyed>): seq<Keyed> {
    if s == [] || !Before(s[0], x) then [x] + s else [s[0]] + Insert(x, s[1..])
  }

  function Sort(xs: seq<Keyed>): seq<Keyed> {
    if xs == [] then [] else Insert(xs[0], Sort(xs[1..]))
  }

  ghost predicate IsSorted(s: seq<Keyed>) {
    forall i, j :: 0 <= i < j < |s| ==> !Before(s[j], s[i])
  }

  /** The elements with one key, in their order. */
  function WithKey(xs: seq<Keyed>, season: nat, episode: nat): seq<Keyed> {
    if xs == [] then []
    else (if HasKey(xs[0], season, episode) then [xs[0]] else []) + WithKey(xs[1..], season, episode)
  }

  ghost predicate SameByKey(a: seq<Keyed>, b: seq<Keyed>) {
    forall s: nat, e: nat :: WithKey(a, s, e) == WithKey(b, s, e)
  }

  lemma {:induction false} WithKeyAppend(a: seq<Keyed>, b: seq<Keyed>, s: nat, e: nat)
    ensures WithKey(a + b, s, e) == WithKey(a, s, e) + WithKey(b, s, e)
  {
    if a == [] {
      assert a + b == b;
    } else {
      var head := if HasKey(a[0], s, e) then [a[0]] else [];
      WithKeyAppend(a[1..], b, s, e);
      assert (a + b)[0] == a[0] && (a + b)[1..] == a[1..] + b;
      assert WithKey(a + b, s, e) == head + (WithKey(a[1..], s, e) + WithKey(b, s, e));
    }
  }

  lemma {:induction false} WithKeyMembers(xs: seq<Keyed>, s: nat, e: nat)
    ensures forall x :: x in WithKey(xs, s, e) <==> x in xs && HasKey(x, s, e)
  {
    if xs != [] {
      WithKeyMembers(xs[1..], s, e);
      assert forall x :: x in xs <==> x == xs[0] || x in xs[1..];
    }
  }

  lemma {:induction false} InsertByKey(x: Keyed, s: seq<Keyed>, k: nat, e: nat)
    ensures WithKey(Insert(x, s), k, e) == WithKey([x] + s, k, e)
  {
    if s != [] && Before(s[0], x) {
      InsertByKey(x, s[1..], k, e);
      WithKeyAppend([s[0]], Insert(x, s[1..]), k, e);
      assert ([x] + s)[1..] == s && ([x] + s[1..])[1..] == s[1..];
    }
  }

  lemma {:induction false} InsertIsStable(x: Keyed, s: seq<Keyed>)
    requires IsSorted(s)
    ensures IsSorted(Insert(x, s)) && SameByKey(Insert(x, s), [x] + s)
    ensures forall y :: y in Insert(x, s) <==> y == x || y in s
  {
    if s != [] && Before(s[0], x) {
      InsertIsStable(x, s[1..]);
      assert forall y :: y in s <==> y == s[0] || y in s[1..];
      assert forall y :: y in Insert(x, s[1..]) ==> !Before(y, s[0]);
    }
    forall k: nat, e: nat ensures WithKey(Insert(x, s), k, e) == WithKey([x] + s, k, e) { InsertByKey(x, s, k, e); }
  }

  lemma {:induction false} InsertKeepsAll(x: Keyed, s: seq<Keyed>)
    ensures multiset(Insert(x, s)) == multiset(s) + multiset{x}
  {
    if s != [] && Before(s[0], x) {
      InsertKeepsAll(x, s[1..]);
      assert s == [s[0]] + s[1..];
    }
  }

  /** Sorting loses and adds nothing. */
  lemma {:induction false} SortKeepsAll(xs: seq<Keyed>)
    ensures multiset(Sort(xs)) == multiset(xs)
  {
    if xs != [] {
      SortKeepsAll(xs[1..]);
      InsertKeepsAll(xs[0], Sort(xs[1..]));
      assert xs == [xs[0]] + xs[1..];
    }
  }

  /** Sorting orders by key and keeps, for each key, the elements with it in their order. */
  lemma {:induction false} SortIsStable(xs: seq<Keyed>)
    ensures IsSorted(Sort(xs)) && SameByKey(Sort(xs), xs)
    ensures forall x :: x in Sort(xs) <==> x in xs
  {
    if xs != [] {
      SortIsStable(xs[1..]);
      InsertIsStable(xs[0], Sort(xs[1..]));
      assert forall x :: x in xs <==> x == xs[0] || x in xs[1..];
      forall s: nat, e: nat ensures WithKey(Sort(xs), s, e) == WithKey(xs, s, e) {
        assert ([xs[0]] + Sort(xs[1..]))[1..] == Sort(xs[1..]);
        assert WithKey(Sort(xs), s, e) == WithKey([xs[0]] + Sort(xs[1..]), s, e);
        assert WithKey(Sort(xs[1..]), s, e) == WithKey(xs[1..], s, e);
      }
    }
  }

  lemma SameHead(a: seq<Keyed>, b: seq<Keyed>)
    requires IsSorted(a) && IsSorted(b) && SameByKey(a, b) && a != []
    ensures b != [] && a[0] == b[0]
  {
    var x := a[0];
    WithKeyMembers(a, x.season, x.episode);
    WithKeyMembers(b, x.season, x.episode);
    assert x in WithKey(b, x.season, x.episode);
    var y := b[0];
    WithKeyMembers(a, y.season, y.episode);
    WithKeyMembers(b, y.season, y.episode);
    assert y in WithKey(a, y.season, y.episode);
    assert HasKey(y, x.season, x.episode);
    assert WithKey(a, x.season, x.episode)[0] == x && WithKey(b, x.season, x.episode)[0] == y;
  }

  lemma {:induction false} SortedByKeyIsUnique(a: seq<Keyed>, b: seq<Keyed>)
    requires IsSorted(a) && IsSorted(b) && SameByKey(a, b)
    ensures a == b
  {
    if a == [] {
      if b != [] { SameHead(b, a); }
    } else {
      SameHead(a, b);
      forall s: nat, e: nat ensures WithKey(a[1..], s, e) == WithKey(b[1..], s, e) {
        var head := if HasKey(a[0], s, e) then [a[0]] else [];
        assert (head + WithKey(a[1..], s, e))[|head|..] == WithKey(a[1..], s, e);
        assert (head + WithKey(b[1..], s, e))[|head|..] == WithKey(b[1..], s, e);
        assert WithKey(a, s, e) == WithKey(b, s, e);
      }
      SortedByKeyIsUnique(a[1..], b[1..]);
    }
  }

  /** The sorted arrangement that keeps the elements of each key in order is the sort, however it was
      come by. */
  lemma SortIsTheOnlyStableSort(r: seq<Keyed>, xs: seq<Keyed>)
    ensures r == Sort(xs) <==> IsSorted(r) && SameByKey(r, xs)
  {
    SortIsStable(xs);
    if IsSorted(r) && SameByKey(r, xs) {
      forall s: nat, e: nat ensures WithKey(r, s, e) == WithKey(Sort(xs), s, e) {
        assert WithKey(r, s, e) == WithKey(xs, s, e) && WithKey(Sort(xs), s, e) == WithKey(xs, s, e);
      }
      SortedByKeyIsUnique(r, Sort(xs));
    }
  }
}
