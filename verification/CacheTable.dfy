/** The table of cached files shared by all mounts: sums, candidate lists and what evictions take. */
module CacheTable {
  import opened Paths
  import opened CacheRows

  type Mount = string
  type RowKey = (Path, Mount)
  type Table = map<RowKey, Row>

  // ---------------------------------------------------------------- byte sums

  ghost function Sum(rows: Table): nat {
    if rows == map[] then 0
    else
      var k :| k in rows;
      rows[k].size + Sum(rows - {k})
  }

  lemma {:induction false} SumWithout(rows: Table, k: RowKey)
    requires k in rows
    ensures Sum(rows) == rows[k].size + Sum(rows - {k})
    decreases |rows|
  {
    var j :| j in rows && Sum(rows) == rows[j].size + Sum(rows - {j});
    if j != k {
      SumWithout(rows - {j}, k);
      SumWithout(rows - {k}, j);
      assert rows - {j} - {k} == rows - {k} - {j};
    }
  }

  lemma {:induction false} SumFewer(rows: Table, ks: set<RowKey>)
    ensures Sum(rows - ks) <= Sum(rows)
    decreases |ks|
  {
    if k :| k in ks {
      SumFewer(rows - {k}, ks - {k});
      assert rows - {k} - (ks - {k}) == rows - ks;
      if k in rows { SumWithout(rows, k); } else { assert rows - {k} == rows; }
    } else {
      assert rows - ks == rows;
    }
  }

  ghost function KeysOfMount(rows: Table, mount: Mount): set<RowKey> {
    set k | k in rows && k.1 == mount
  }

  ghost predicate OtherMountsKept(rows: Table, rows': Table, mount: Mount) {
    forall k: RowKey :: k.1 != mount ==> (k in rows <==> k in rows') && (k in rows ==> rows[k] == rows'[k])
  }

  // ---------------------------------------------------------------- candidates

  type Candidate = (Path, nat)

  ghost predicate DistinctFiles(cands: seq<Candidate>) {
    forall i, j :: 0 <= i < j < |cands| ==> cands[i].0 != cands[j].0
  }

  /** Every entry names a row of the mount, with its size, and no row is named twice. */
  ghost predicate Lists(cands: seq<Candidate>, rows: Table, mount: Mount) {
    && DistinctFiles(cands)
    && (forall i :: 0 <= i < |cands| ==> (cands[i].0, mount) in rows && rows[(cands[i].0, mount)].size == cands[i].1)
  }

  /** The mount's rows in `last_hit_at` order, oldest first; ties may come in any order. */
  ghost predicate IsCandidateList(cands: seq<Candidate>, rows: Table, mount: Mount) {
    && Lists(cands, rows, mount)
    && (forall k :: k in KeysOfMount(rows, mount) ==> exists i :: 0 <= i < |cands| && cands[i].0 == k.0)
    && (forall i, j :: 0 <= i < j < |cands| ==> rows[(cands[i].0, mount)].lastHit <= rows[(cands[j].0, mount)].lastHit)
  }

  ghost predicate DistinctHits(rows: Table, mount: Mount) {
    forall j, k :: j in KeysOfMount(rows, mount) && k in KeysOfMount(rows, mount) && j != k ==> rows[j].lastHit != rows[k].lastHit
  }

  lemma ListTail(rows: Table, mount: Mount, cands: seq<Candidate>)
    requires IsCandidateList(cands, rows, mount) && cands != []
    ensures IsCandidateList(cands[1..], rows - {(cands[0].0, mount)}, mount)
  {
  }

  lemma ListHeads(rows: Table, mount: Mount, a: seq<Candidate>, b: seq<Candidate>)
    requires IsCandidateList(a, rows, mount) && IsCandidateList(b, rows, mount) && DistinctHits(rows, mount) && a != []
    ensures b != [] && a[0] == b[0]
  {
  }

  /** Without ties there is only one candidate list. */
  lemma {:induction false} OneCandidateList(rows: Table, mount: Mount, a: seq<Candidate>, b: seq<Candidate>)
    requires IsCandidateList(a, rows, mount) && IsCandidateList(b, rows, mount) && DistinctHits(rows, mount)
    ensures a == b
  {
    if a != [] {
      ListHeads(rows, mount, a, b);
      ListTail(rows, mount, a);
      ListTail(rows, mount, b);
      OneCandidateList(rows - {(a[0].0, mount)}, mount, a[1..], b[1..]);
    } else if b != [] {
      ListHeads(rows, mount, b, a);
    }
  }

  function Sizes(cands: seq<Candidate>): nat {
    if cands == [] then 0 else cands[0].1 + Sizes(cands[1..])
  }

  function Deletable(cands: seq<Candidate>, ok: set<Path>): seq<Candidate> {
    if cands == [] then []
    else (if cands[0].0 in ok then [cands[0]] else []) + Deletable(cands[1..], ok)
  }

  /** The files an eviction removes from the list, in turn, until `need` bytes are freed. */
  function Victims(cands: seq<Candidate>, ok: set<Path>, need: nat): seq<Candidate> {
    if cands == [] || need == 0 then []
    else if cands[0].0 in ok then [cands[0]] + Victims(cands[1..], ok, if need > cands[0].1 then need - cands[0].1 else 0)
    else Victims(cands[1..], ok, need)
  }

  function KeySet(cands: seq<Candidate>, mount: Mount): set<RowKey> {
    set c | c in cands :: (c.0, mount)
  }

  function FileSet(cands: seq<Candidate>): set<Path> {
    set c | c in cands :: c.0
  }

  lemma SetsAppend(cands: seq<Candidate>, c: Candidate, mount: Mount)
    ensures KeySet(cands + [c], mount) == KeySet(cands, mount) + {(c.0, mount)}
    ensures FileSet(cands + [c]) == FileSet(cands) + {c.0}
  {
  }

  lemma {:induction false} SizesAppend(a: seq<Candidate>, c: Candidate)
    ensures Sizes(a + [c]) == Sizes(a) + c.1
  {
    if a == [] {
      assert a + [c] == [c];
    } else {
      SizesAppend(a[1..], c);
      assert (a + [c])[1..] == a[1..] + [c];
    }
  }

  /** The victims are a prefix of the deletable rows in LRU order, free what is needed unless they
      are all there is, and no shorter prefix does. */
  lemma {:induction false} VictimsAreShortestPrefix(cands: seq<Candidate>, ok: set<Path>, need: nat)
    ensures var v, d := Victims(cands, ok, need), Deletable(cands, ok);
      && v <= d
      && (Sizes(v) >= need || v == d)
      && (forall n :: 0 <= n < |v| ==> Sizes(d[..n]) < need)
  {
    if cands != [] && need > 0 {
      var c, rest := cands[0], cands[1..];
      var left := if c.0 in ok then if need > c.1 then need - c.1 else 0 else need;
      VictimsAreShortestPrefix(rest, ok, left);
      var v, d := Victims(cands, ok, need), Deletable(cands, ok);
      if c.0 in ok {
        var rv, rd := Victims(rest, ok, left), Deletable(rest, ok);
        assert v == [c] + rv && d == [c] + rd;
        forall n | 0 <= n < |v| ensures Sizes(d[..n]) < need {
          if n == 0 {
            assert d[..n] == [];
          } else {
            assert d[..n] == [c] + rd[..n - 1];
            assert Sizes(d[..n]) == c.1 + Sizes(rd[..n - 1]);
          }
        }
      } else {
        assert d == Deletable(rest, ok);
      }
    }
  }

  lemma {:induction false} DeletableMembers(cands: seq<Candidate>, ok: set<Path>)
    ensures forall c :: c in Deletable(cands, ok) <==> c in cands && c.0 in ok
  {
    if cands != [] { DeletableMembers(cands[1..], ok); }
  }

  lemma VictimMembers(cands: seq<Candidate>, ok: set<Path>, need: nat)
    ensures forall c :: c in Victims(cands, ok, need) ==> c in cands && c.0 in ok
  {
  }

  /** Taking listed rows out lowers the sum by exactly their sizes. */
  lemma {:induction false} SumOfRemoved(rows: Table, mount: Mount, gone: seq<Candidate>)
    requires DistinctFiles(gone)
    requires forall i :: 0 <= i < |gone| ==> (gone[i].0, mount) in rows && rows[(gone[i].0, mount)].size == gone[i].1
    ensures Sum(rows) == Sum(rows - KeySet(gone, mount)) + Sizes(gone)
    decreases |gone|
  {
    if gone == [] {
      assert rows - KeySet(gone, mount) == rows;
    } else {
      var k := (gone[0].0, mount);
      SumWithout(rows, k);
      SumOfRemoved(rows - {k}, mount, gone[1..]);
      assert KeySet(gone, mount) == {k} + KeySet(gone[1..], mount);
      assert rows - {k} - KeySet(gone[1..], mount) == rows - KeySet(gone, mount);
    }
  }

  lemma {:induction false} DistinctVictims(cands: seq<Candidate>, ok: set<Path>, need: nat)
    requires DistinctFiles(cands)
    ensures DistinctFiles(Victims(cands, ok, need))
  {
    if cands != [] && need > 0 {
      var left := if cands[0].0 in ok then if need > cands[0].1 then need - cands[0].1 else 0 else need;
      DistinctVictims(cands[1..], ok, left);
      VictimMembers(cands[1..], ok, left);
    }
  }

  // ---------------------------------------------------------------- one eviction run

  function Over(total: nat, target: nat): nat {
    if total > target then total - target else 0
  }

  function FitTarget(maxBytes: nat, pending: nat): nat {
    if maxBytes > pending then maxBytes - pending else 0
  }

  ghost function ExpiredKeys(rows: Table, mount: Mount, cutoff: nat, ok: set<Path>): set<RowKey> {
    set k | k in rows && k.1 == mount && rows[k].lastHit < cutoff && k.0 in ok
  }

  /** What an eviction leaves once the order of its LRU list is fixed. */
  ghost predicate IsEviction(rows: Table, rows': Table, mount: Mount, ok: set<Path>, target: nat, order: seq<Candidate>) {
    && IsCandidateList(order, rows, mount)
    && rows' == rows - KeySet(Victims(order, ok, Over(Sum(rows), target)), mount)
  }

  lemma {:induction false} EvictionEffect(rows: Table, rows': Table, mount: Mount, ok: set<Path>, target: nat, order: seq<Candidate>)
    requires IsEviction(rows, rows', mount, ok, target, order)
    ensures OtherMountsKept(rows, rows', mount)
    ensures Sum(rows) == Sum(rows') + Sizes(Victims(order, ok, Over(Sum(rows), target)))
    ensures Sum(rows') <= target || forall k :: k in KeysOfMount(rows', mount) ==> k.0 !in ok
  {
    var need := Over(Sum(rows), target);
    var v, d := Victims(order, ok, need), Deletable(order, ok);
    VictimMembers(order, ok, need);
    DistinctVictims(order, ok, need);
    VictimsAreShortestPrefix(order, ok, need);
    forall i | 0 <= i < |v| ensures (v[i].0, mount) in rows && rows[(v[i].0, mount)].size == v[i].1 {
      assert v[i] in order;
    }
    SumOfRemoved(rows, mount, v);
    if Sum(rows') > target {
      assert v == d;
      DeletableMembers(order, ok);
      forall k | k in KeysOfMount(rows', mount) ensures k.0 !in ok {
        assert k in KeysOfMount(rows, mount);
        var i :| 0 <= i < |order| && order[i].0 == k.0;
        assert order[i] in v ==> k in KeySet(v, mount);
      }
    }
  }

  lemma {:induction false} TakenOrNot(cands: seq<Candidate>, ok: set<Path>, need: nat, i: nat, j: nat)
    requires i < j < |cands| && DistinctFiles(cands) && cands[i].0 in ok && cands[j] in Victims(cands, ok, need)
    ensures cands[i] in Victims(cands, ok, need)
  {
    if need > 0 {
      var left := if cands[0].0 in ok then if need > cands[0].1 then need - cands[0].1 else 0 else need;
      if i > 0 {
        assert cands[1..][i - 1] == cands[i] && cands[1..][j - 1] == cands[j];
        TakenOrNot(cands[1..], ok, left, i - 1, j - 1);
      }
    }
  }

  lemma RowOfKey(rows: Table, mount: Mount, order: seq<Candidate>, k: RowKey) returns (i: nat)
    requires IsCandidateList(order, rows, mount) && k in KeysOfMount(rows, mount)
    ensures i < |order| && order[i] == (k.0, rows[k].size)
  {
    i :| 0 <= i < |order| && order[i].0 == k.0;
  }

  lemma GoneIsVictim(rows: Table, rows': Table, mount: Mount, ok: set<Path>, target: nat, order: seq<Candidate>, k: RowKey)
    requires IsEviction(rows, rows', mount, ok, target, order) && k in KeysOfMount(rows, mount)
    ensures k !in rows' <==> (k.0, rows[k].size) in Victims(order, ok, Over(Sum(rows), target))
  {
    VictimMembers(order, ok, Over(Sum(rows), target));
    var i := RowOfKey(rows, mount, order, k);
    if k !in rows' {
      var c :| c in Victims(order, ok, Over(Sum(rows), target)) && (c.0, mount) == k;
      var j :| 0 <= j < |order| && order[j] == c;
    }
  }

  /** Rows go oldest first: whichever row went, so did every deletable one hit before it. */
  lemma OldestGoFirst(rows: Table, rows': Table, mount: Mount, ok: set<Path>, target: nat, order: seq<Candidate>, j: RowKey, k: RowKey)
    requires IsEviction(rows, rows', mount, ok, target, order)
    requires j in KeysOfMount(rows, mount) && k in KeysOfMount(rows, mount) && k !in rows' && j.0 in ok
    requires rows[j].lastHit < rows[k].lastHit
    ensures j !in rows'
  {
    var a := RowOfKey(rows, mount, order, j);
    var b := RowOfKey(rows, mount, order, k);
    GoneIsVictim(rows, rows', mount, ok, target, order, j);
    GoneIsVictim(rows, rows', mount, ok, target, order, k);
    assert a < b;
    TakenOrNot(order, ok, Over(Sum(rows), target), a, b);
  }

  /** No row goes needlessly: nothing goes from a table within the target, only deletable rows go, and
      with the newest row that went put back the sum would still be above the target. */
  lemma NoneGoNeedlessly(rows: Table, rows': Table, mount: Mount, ok: set<Path>, target: nat, order: seq<Candidate>)
    requires IsEviction(rows, rows', mount, ok, target, order)
    ensures Sum(rows) <= target ==> rows' == rows
    ensures forall k :: k in rows && k !in rows' ==> k.1 == mount && k.0 in ok
    ensures rows' != rows ==> exists k :: NewestGone(rows, rows', k) && Sum(rows') + rows[k].size > target
  {
    var need := Over(Sum(rows), target);
    var v, d := Victims(order, ok, need), Deletable(order, ok);
    VictimMembers(order, ok, need);
    VictimsAreShortestPrefix(order, ok, need);
    EvictionEffect(rows, rows', mount, ok, target, order);
    if v == [] {
      assert rows' == rows;
    } else {
      LastVictimNeeded(order, ok, need);
      var last := v[|v| - 1];
      var k := (last.0, mount);
      assert last in v && k in KeySet(v, mount);
      forall j | j in rows && j !in rows' ensures rows[j].lastHit <= rows[k].lastHit {
        var c :| c in v && (c.0, mount) == j;
        LastIsNewest(rows, mount, order, ok, need, c);
      }
      assert NewestGone(rows, rows', k);
    }
  }

  ghost predicate NewestGone(rows: Table, rows': Table, k: RowKey) {
    k in rows && k !in rows' && forall j :: j in rows && j !in rows' ==> rows[j].lastHit <= rows[k].lastHit
  }

  lemma LastVictimNeeded(order: seq<Candidate>, ok: set<Path>, need: nat)
    requires Victims(order, ok, need) != []
    ensures var v := Victims(order, ok, need); Sizes(v) - v[|v| - 1].1 < need
  {
    VictimsAreShortestPrefix(order, ok, need);
    var v, d := Victims(order, ok, need), Deletable(order, ok);
    var front := v[..|v| - 1];
    assert d[..|v| - 1] == front && v == front + [v[|v| - 1]];
    SizesAppend(front, v[|v| - 1]);
  }

  lemma {:induction false} VictimsInOrder(order: seq<Candidate>, ok: set<Path>, need: nat, c: Candidate) returns (i: nat, j: nat)
    requires c in Victims(order, ok, need)
    ensures var v := Victims(order, ok, need); i <= j < |order| && order[i] == c && v != [] && order[j] == v[|v| - 1]
  {
    var left := if order[0].0 in ok then if need > order[0].1 then need - order[0].1 else 0 else need;
    var rest := Victims(order[1..], ok, left);
    if order[0].0 in ok && c == order[0] {
      i := 0;
      if rest == [] { j := 0; } else {
        var a, b := VictimsInOrder(order[1..], ok, left, rest[0]);
        j := b + 1;
      }
    } else {
      var a, b := VictimsInOrder(order[1..], ok, left, c);
      i, j := a + 1, b + 1;
    }
  }

  lemma LastIsNewest(rows: Table, mount: Mount, order: seq<Candidate>, ok: set<Path>, need: nat, c: Candidate)
    requires IsCandidateList(order, rows, mount) && c in Victims(order, ok, need)
    ensures var v := Victims(order, ok, need);
      && (c.0, mount) in rows && v != [] && (v[|v| - 1].0, mount) in rows
      && rows[(c.0, mount)].lastHit <= rows[(v[|v| - 1].0, mount)].lastHit
  {
    var i, j := VictimsInOrder(order, ok, need, c);
  }

  // ---------------------------------------------------------------- all mounts in turn

  /** The guarantee one mount's eviction gives when its deletes succeed. */
  ghost predicate BroughtWithin(rows: Table, rows': Table, mount: Mount, maxBytes: nat) {
    && OtherMountsKept(rows, rows', mount)
    && Sum(rows') <= Sum(rows)
    && (Sum(rows') <= maxBytes || KeysOfMount(rows', mount) == {})
    && (KeysOfMount(rows, mount) == {} ==> KeysOfMount(rows', mount) == {})
  }

  lemma NoRowsLeft(rows: Table, mounts: seq<Mount>)
    requires forall i :: 0 <= i < |mounts| ==> KeysOfMount(rows, mounts[i]) == {}
    requires forall k :: k in rows ==> k.1 in mounts
    ensures rows == map[]
  {
    assert forall k :: k in rows ==> k in KeysOfMount(rows, k.1);
  }

  /** One run on each mount that owns rows, in any order, with no inserts between, brings the sum of
      all mounts within the budget. */
  lemma {:induction false} AllMountsWithin(tables: seq<Table>, mounts: seq<Mount>, maxBytes: nat)
    requires |tables| == |mounts| + 1
    requires forall i :: 0 <= i < |mounts| ==> BroughtWithin(tables[i], tables[i + 1], mounts[i], maxBytes)
    requires forall k :: k in tables[0] ==> k.1 in mounts
    ensures Sum(tables[|mounts|]) <= maxBytes
  {
    var n := |mounts|;
    if Sum(tables[n]) > maxBytes {
      forall i | 0 <= i < n ensures KeysOfMount(tables[n], mounts[i]) == {} {
        SumsFall(tables, mounts, maxBytes, i + 1, n);
        assert BroughtWithin(tables[i], tables[i + 1], mounts[i], maxBytes);
        StaysEmpty(tables, mounts, maxBytes, i + 1, n, mounts[i]);
      }
      OnlyOldMounts(tables, mounts, maxBytes, n);
      NoRowsLeft(tables[n], mounts);
    }
  }

  lemma {:induction false} SumsFall(tables: seq<Table>, mounts: seq<Mount>, maxBytes: nat, i: nat, j: nat)
    requires |tables| == |mounts| + 1 && i <= j <= |mounts|
    requires forall i :: 0 <= i < |mounts| ==> BroughtWithin(tables[i], tables[i + 1], mounts[i], maxBytes)
    ensures Sum(tables[j]) <= Sum(tables[i])
    decreases j
  {
    if i < j {
      SumsFall(tables, mounts, maxBytes, i, j - 1);
      assert BroughtWithin(tables[j - 1], tables[j], mounts[j - 1], maxBytes);
    }
  }

  lemma {:induction false} StaysEmpty(tables: seq<Table>, mounts: seq<Mount>, maxBytes: nat, i: nat, j: nat, m: Mount)
    requires |tables| == |mounts| + 1 && i <= j <= |mounts| && KeysOfMount(tables[i], m) == {}
    requires forall i :: 0 <= i < |mounts| ==> BroughtWithin(tables[i], tables[i + 1], mounts[i], maxBytes)
    ensures KeysOfMount(tables[j], m) == {}
    decreases j
  {
    if i < j {
      StaysEmpty(tables, mounts, maxBytes, i, j - 1, m);
      assert BroughtWithin(tables[j - 1], tables[j], mounts[j - 1], maxBytes);
      assert m != mounts[j - 1] ==> forall k :: k in KeysOfMount(tables[j], m) ==> k in KeysOfMount(tables[j - 1], m);
    }
  }

  lemma {:induction false} OnlyOldMounts(tables: seq<Table>, mounts: seq<Mount>, maxBytes: nat, j: nat)
    requires |tables| == |mounts| + 1 && j <= |mounts|
    requires forall i :: 0 <= i < |mounts| ==> BroughtWithin(tables[i], tables[i + 1], mounts[i], maxBytes)
    requires forall k :: k in tables[0] ==> k.1 in mounts
    ensures forall k :: k in tables[j] ==> k.1 in mounts
  {
    if j > 0 {
      OnlyOldMounts(tables, mounts, maxBytes, j - 1);
      assert BroughtWithin(tables[j - 1], tables[j], mounts[j - 1], maxBytes);
    }
  }
}
