/** Sequences of pieces. */
module Sequences {

  function Concat<T>(ps: seq<seq<T>>): seq<T> {
    if ps == [] then [] else ps[0] + Concat(ps[1..])
  }

  lemma {:induction false} ConcatSnoc<T>(ps: seq<seq<T>>, p: seq<T>)
    ensures Concat(ps + [p]) == Concat(ps) + p
  {
    if ps == [] {
      assert [] + [p] == [p];
      assert Concat([p]) == p + Concat([]);
    } else {
      assert (ps + [p])[1..] == ps[1..] + [p];
      ConcatSnoc(ps[1..], p);
      Associate(ps[0], Concat(ps[1..]), p);
    }
  }

  lemma NotIn<T>(a: seq<T>, b: seq<T>, c: T)
    requires c !in a && c !in b
    ensures c !in a + b
  {
  }

  lemma Associate<T>(a: seq<T>, b: seq<T>, c: seq<T>)
    ensures (a + b) + c == a + (b + c)
  {
  }
}
