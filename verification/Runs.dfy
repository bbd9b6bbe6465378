/** Finite runs of any step relation. */
module Runs {
  ghost predicate LeadsBy<S(!new), E>(next: (S, E, S) -> bool, s: S, es: seq<E>, t: S)
    decreases |es|
  {
    if es == [] then s == t else exists m :: next(s, es[0], m) && LeadsBy(next, m, es[1..], t)
  }

  lemma {:induction false} LeadsAppend<S(!new), E>(next: (S, E, S) -> bool, s: S, es: seq<E>, t: S, fs: seq<E>, u: S)
    requires LeadsBy(next, s, es, t) && LeadsBy(next, t, fs, u)
    ensures LeadsBy(next, s, es + fs, u)
    decreases |es|
  {
    if es == [] {
      assert es + fs == fs;
    } else {
      var m :| next(s, es[0], m) && LeadsBy(next, m, es[1..], t);
      LeadsAppend(next, m, es[1..], t, fs, u);
      assert (es + fs)[1..] == es[1..] + fs;
    }
  }

  lemma LeadsSnoc<S(!new), E>(next: (S, E, S) -> bool, s: S, es: seq<E>, t: S, e: E, u: S)
    requires LeadsBy(next, s, es, t) && next(t, e, u)
    ensures LeadsBy(next, s, es + [e], u)
  {
    assert LeadsBy(next, t, [e], u) by {
      assert [e][0] == e && [e][1..] == [] && LeadsBy(next, u, [], u);
      assert next(t, [e][0], u) && LeadsBy(next, u, [e][1..], u);
    }
    LeadsAppend(next, s, es, t, [e], u);
  }
}
