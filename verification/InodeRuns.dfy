/** Inodes over whole runs of the table: how long both directions agree, what a forget takes, and
    what a refcount counts. */
module InodeRuns {
  import opened Paths
  import opened Inodes

  // ---------------------------------------------------------------- what a forget takes

  /** The last forget of an inode takes no name but its own exactly when the name it holds has not
      been taken over by another inode. */
  lemma ForgetTakesOwnNameIff(t: Table, i: nat, n: nat)
    requires i != ROOT_INO && i in t.byIno && t.byIno[i].refcount <= n
    ensures var p := t.byIno[i].path;
      (forall q :: q in t.byPath && t.byPath[q] != i ==> q in Forgotten(t, i, n).byPath) <==> (p in t.byPath ==> t.byPath[p] == i)
  {
  }

  /** Otherwise the inode that has taken the name over is still there under that path, but the next
      lookup of the path makes a second one. */
  lemma ForgetOrphans(t: Table, i: nat, n: nat)
    requires Consistent(t) && i != ROOT_INO && i in t.byIno && t.byIno[i].refcount <= n
    requires t.byIno[i].path in t.byPath && t.byPath[t.byIno[i].path] != i
    ensures var p, f := t.byIno[i].path, Forgotten(t, i, n);
      && p !in f.byPath && t.byPath[p] in f.byIno && f.byIno[t.byPath[p]].path == p
      && LookedUp(f, p).byPath[p] == t.nextIno != t.byPath[p]
  {
  }

  // ---------------------------------------------------------------- how long both directions agree

  /** Renames as the kernel sends them: neither path inside the other. */
  predicate Ordinary(op: Op) { op.Rename? ==> Incomparable(op.src, op.dst) }

  ghost predicate Colliding(t: Table, op: Op) { op.Rename? && Collides(t, op.src, op.dst) }

  lemma StepKeepsLinkedIff(t: Table, op: Op)
    requires Consistent(t) && Linked(t) && Legal(t, op) && Ordinary(op)
    ensures Linked(Apply(t, op)) <==> !Colliding(t, op)
  {
    match op
    case Rename(src, dst, order) =>
      RenameOrderIndependent(t, src, dst, order);
      RenameKeepsLinkedIff(t, src, dst);
    case _ =>
  }

  ghost predicate LinkedUpTo(ts: seq<Table>, m: nat)
    requires m < |ts|
  {
    forall k :: 0 <= k <= m ==> Linked(ts[k])
  }

  ghost predicate NoneCollides(ts: seq<Table>, ops: seq<Op>, m: nat)
    requires m < |ts| == |ops| + 1
  {
    forall k :: 0 <= k < m ==> !Colliding(ts[k], ops[k])
  }

  /** Over any run of ordinary operations: every table up to the `m`th has two inverse maps if and only
      if no rename before it collided. */
  lemma {:induction false} RunLinkedIff(ts: seq<Table>, ops: seq<Op>, m: nat)
    requires IsRun(ts, ops) && m <= |ops| && forall k :: 0 <= k < |ops| ==> Ordinary(ops[k])
    ensures LinkedUpTo(ts, m) <==> NoneCollides(ts, ops, m)
  {
    if m > 0 {
      RunLinkedIff(ts, ops, m - 1);
      RunInvariant(ts, ops, m - 1, m - 1);
      if LinkedUpTo(ts, m - 1) { StepKeepsLinkedIff(ts[m - 1], ops[m - 1]); }
      assert LinkedUpTo(ts, m) <==> LinkedUpTo(ts, m - 1) && Linked(ts[m]);
      assert NoneCollides(ts, ops, m) <==> NoneCollides(ts, ops, m - 1) && !Colliding(ts[m - 1], ops[m - 1]);
    }
  }

  // ---------------------------------------------------------------- what a refcount counts

  /** Lookups among the first `k` operations that were answered with inode `i`. */
  ghost function LookupsOf(ts: seq<Table>, ops: seq<Op>, i: nat, k: nat): nat
    requires |ts| == |ops| + 1 && k <= |ops|
  {
    if k == 0 then 0
    else
      var op, t := ops[k - 1], ts[k];
      LookupsOf(ts, ops, i, k - 1) + if op.Lookup? && op.path in t.byPath && t.byPath[op.path] == i then 1 else 0
  }

  /** What forgets among the first `k` operations gave back of inode `i` while it was there. */
  ghost function ForgetsOf(ts: seq<Table>, ops: seq<Op>, i: nat, k: nat): nat
    requires |ts| == |ops| + 1 && k <= |ops|
  {
    if k == 0 then 0
    else
      var op, t := ops[k - 1], ts[k - 1];
      ForgetsOf(ts, ops, i, k - 1) + if op.Forget? && op.ino == i && i in t.byIno then op.nlookup else 0
  }

  lemma {:induction false} MovedAllRefs(t: Table, order: seq<Path>, src: Path, dst: Path, i: nat)
    ensures i in MovedAll(t, order, src, dst).byIno <==> i in t.byIno
    ensures i in t.byIno ==> MovedAll(t, order, src, dst).byIno[i].refcount == t.byIno[i].refcount
  {
    if order != [] { MovedAllRefs(t, order[..|order| - 1], src, dst, i); }
  }

  lemma RenamedRefs(t: Table, src: Path, dst: Path, order: seq<Path>, i: nat)
    requires i in RenamedIn(t, src, dst, order).byIno
    ensures i in t.byIno && RenamedIn(t, src, dst, order).byIno[i].refcount == t.byIno[i].refcount
  {
    MovedAllRefs(TopMoved(t, src, dst), order, src, dst, i);
  }

  /** How one operation changes the refcount of an inode that outlasts it. */
  lemma RefStep(t: Table, op: Op, i: nat)
    requires Consistent(t) && Legal(t, op) && i != ROOT_INO && i in t.byIno && i in Apply(t, op).byIno
    ensures var was, now := t.byIno[i].refcount, Apply(t, op).byIno[i].refcount;
      now == if op.Lookup? && op.path in Apply(t, op).byPath && Apply(t, op).byPath[op.path] == i then SaturatingInc(was)
              else if op.Forget? && op.ino == i then was - op.nlookup else was
    ensures op.Forget? && op.ino == i ==> t.byIno[i].refcount > op.nlookup
  {
    if op.Rename? { RenamedRefs(t, op.src, op.dst, op.order, i); }
  }

  lemma AppearsByLookup(t: Table, op: Op, i: nat)
    requires Consistent(t) && Legal(t, op) && i !in t.byIno && i in Apply(t, op).byIno
    ensures i == t.nextIno && op.Lookup? && op.path in Apply(t, op).byPath && Apply(t, op).byPath[op.path] == i
    ensures Apply(t, op).byIno[i].refcount == 1
  {
    if op.Rename? { RenamedRefs(t, op.src, op.dst, op.order, i); }
  }

  lemma {:induction false} NothingBeforeIssue(ts: seq<Table>, ops: seq<Op>, i: nat, k: nat)
    requires IsRun(ts, ops) && k <= |ops| && i >= ts[k].nextIno
    ensures LookupsOf(ts, ops, i, k) == 0 && ForgetsOf(ts, ops, i, k) == 0
  {
    if k > 0 {
      RunInvariant(ts, ops, k - 1, k);
      RunInvariant(ts, ops, k - 1, k - 1);
      NothingBeforeIssue(ts, ops, i, k - 1);
    }
  }

  /** In every table of every run the refcount of an inode is the number of lookups it answered less
      what forgets have given back, and positive, as long as its lookups stay below the 64-bit
      maximum. */
  lemma {:induction false} RefcountIsBalance(ts: seq<Table>, ops: seq<Op>, i: nat, k: nat)
    requires IsRun(ts, ops) && k <= |ops| && i != ROOT_INO && i in ts[k].byIno && LookupsOf(ts, ops, i, k) <= MAX_REFCOUNT
    ensures ts[k].byIno[i].refcount == LookupsOf(ts, ops, i, k) - ForgetsOf(ts, ops, i, k) > 0
  {
    if k > 0 {
      RunInvariant(ts, ops, k - 1, k - 1);
      if i in ts[k - 1].byIno {
        RefcountIsBalance(ts, ops, i, k - 1);
        RefStep(ts[k - 1], ops[k - 1], i);
      } else {
        AppearsByLookup(ts[k - 1], ops[k - 1], i);
        NothingBeforeIssue(ts, ops, i, k - 1);
      }
    }
  }

  // ---------------------------------------------------------------- when an inode is there

  /** A forget of an inode with more references than it returns leaves it where it is. */
  lemma PartialForgetKeeps(t: Table, i: nat, n: nat)
    requires Consistent(t) && i != ROOT_INO && i in t.byIno && t.byIno[i].refcount > n
    ensures var f, e := Apply(t, Forget(i, n)), t.byIno[i];
      && i in f.byIno && f.byIno[i].path == e.path && f.byIno[i].refcount == e.refcount - n
      && f.byPath == t.byPath && forall j :: j != i ==> (j in f.byIno <==> j in t.byIno) && (j in t.byIno ==> f.byIno[j] == t.byIno[j])
  {
  }

  /** The operation takes away the name inode `i` goes by: it unlinks it, removes a directory it is in
      or under, or renames something onto it. */
  predicate TakesName(t: Table, op: Op, i: nat) {
    && i in t.byIno
    && var p := t.byIno[i].path;
      && p != [] && p in t.byPath && t.byPath[p] == i
      && match op
        case Unlink(q) => q == p
        case Rmdir(q) => q != [] && q <= p
        case Rename(src, dst, _) => src != [] && dst == p
        case _ => false
  }

  lemma {:induction false} MovedAllInos(t: Table, order: seq<Path>, src: Path, dst: Path)
    ensures MovedAll(t, order, src, dst).byIno.Keys == t.byIno.Keys
  {
    if order != [] {
      var before := MovedAll(t, order[..|order| - 1], src, dst);
      MovedAllInos(t, order[..|order| - 1], src, dst);
      assert MovedOne(before, order[|order| - 1], src, dst).byIno.Keys == before.byIno.Keys;
    }
  }

  lemma RenamePresence(t: Table, src: Path, dst: Path, order: seq<Path>, i: nat)
    requires Consistent(t) && src != [] && i in t.byIno
    ensures i in RenamedIn(t, src, dst, order).byIno <==> !(dst != [] && dst in t.byPath && t.byPath[dst] == i)
  {
    MovedAllInos(TopMoved(t, src, dst), order, src, dst);
    assert TopMoved(t, src, dst).byIno.Keys == WithoutPath(t, dst).byIno.Keys;
  }

  /** An inode outlasts an operation unless that takes its name or returns all its references. */
  lemma PresenceStep(t: Table, op: Op, i: nat)
    requires Consistent(t) && Legal(t, op) && i in t.byIno && i != ROOT_INO
    ensures i in Apply(t, op).byIno <==> !TakesName(t, op, i) && !(op.Forget? && op.ino == i && op.nlookup >= t.byIno[i].refcount)
  {
    match op
    case Rename(src, dst, order) => if src != [] { RenamePresence(t, src, dst, order, i); }
    case Rmdir(q) => RmdirPresence(t, q, i);
    case _ =>
  }

  lemma RmdirPresence(t: Table, q: Path, i: nat)
    requires Consistent(t) && i in t.byIno && i != ROOT_INO
    ensures i in WithoutSubtree(t, q).byIno <==>
              !(q != [] && t.byIno[i].path in t.byPath && t.byPath[t.byIno[i].path] == i && q <= t.byIno[i].path)
  {
    var p := t.byIno[i].path;
    if q != [] && p in t.byPath && t.byPath[p] == i && q <= p { assert p in Under(t, q); }
  }

  /** An inode that is not there after an operation that took no name from it owes nothing. */
  lemma GoneOwesNothing(ts: seq<Table>, ops: seq<Op>, i: nat, k: nat)
    requires IsRun(ts, ops) && k < |ops| && Consistent(ts[k]) && Consistent(ts[k + 1])
    requires i !in ts[k + 1].byIno && i != ROOT_INO && !TakesName(ts[k], ops[k], i)
    requires var owed := LookupsOf(ts, ops, i, k) - ForgetsOf(ts, ops, i, k);
      if i in ts[k].byIno then ts[k].byIno[i].refcount == owed else owed <= 0
    ensures LookupsOf(ts, ops, i, k + 1) <= ForgetsOf(ts, ops, i, k + 1)
  {
    var t, op := ts[k], ops[k];
    if i in t.byIno { PresenceStep(t, op, i); }
    assert LookupsOf(ts, ops, i, k + 1) == LookupsOf(ts, ops, i, k);
  }

  /** No step after the `j`th and before the `k`th takes the name of inode `i`. */
  ghost predicate NameKept(ts: seq<Table>, ops: seq<Op>, i: nat, j: nat, k: nat)
    requires |ts| == |ops| + 1 && k <= |ops|
  {
    forall m :: j < m < k ==> !TakesName(ts[m], ops[m], i)
  }

  lemma LookupsGrow(ts: seq<Table>, ops: seq<Op>, i: nat, k: nat)
    requires |ts| == |ops| + 1 && 0 < k <= |ops|
    ensures LookupsOf(ts, ops, i, k - 1) <= LookupsOf(ts, ops, i, k)
  {
  }

  lemma NameKeptBefore(ts: seq<Table>, ops: seq<Op>, i: nat, j: nat, k: nat)
    requires |ts| == |ops| + 1 && j < k < |ops| && NameKept(ts, ops, i, j, k + 1)
    ensures NameKept(ts, ops, i, j, k) && !TakesName(ts[k], ops[k], i)
  {
  }

  lemma {:induction false} AbsentOwesNothing(ts: seq<Table>, ops: seq<Op>, i: nat, j: nat, k: nat)
    requires IsRun(ts, ops) && j < k <= |ops| && i in ts[j + 1].byIno && i != ROOT_INO && NameKept(ts, ops, i, j, k)
    requires LookupsOf(ts, ops, i, k) <= MAX_REFCOUNT && i !in ts[k].byIno
    ensures LookupsOf(ts, ops, i, k) <= ForgetsOf(ts, ops, i, k)
    decreases k
  {
    if k > j + 1 {
      var m := k - 1;
      RunInvariant(ts, ops, k, k);
      RunInvariant(ts, ops, m, m);
      LookupsGrow(ts, ops, i, k);
      NameKeptBefore(ts, ops, i, j, m);
      if i in ts[m].byIno { RefcountIsBalance(ts, ops, i, m); } else { AbsentOwesNothing(ts, ops, i, j, m); }
      GoneOwesNothing(ts, ops, i, m);
    }
  }

  /** Once issued, and as long as no step takes its name, an inode is in the table exactly when the
      lookups it answered exceed what forgets have given back. */
  lemma PresentIff(ts: seq<Table>, ops: seq<Op>, i: nat, j: nat, k: nat)
    requires IsRun(ts, ops) && j < k <= |ops| && Issues(ts, ops, j, i) && i != ROOT_INO && NameKept(ts, ops, i, j, k)
    requires LookupsOf(ts, ops, i, k) <= MAX_REFCOUNT
    ensures i in ts[k].byIno <==> LookupsOf(ts, ops, i, k) > ForgetsOf(ts, ops, i, k)
  {
    RunInvariant(ts, ops, j + 1, j + 1);
    if i in ts[k].byIno { RefcountIsBalance(ts, ops, i, k); } else { AbsentOwesNothing(ts, ops, i, j, k); }
  }
}
