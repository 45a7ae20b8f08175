/** Querysets as the views iterate them: the ids of a set of rows, in an order the
    database chooses, and sums taken along such a listing. */
module Querysets {
  import opened Sums

  /** `xs` lists the ids of `s`, each once: the order in which a queryset over the
      rows `s` yields them. */
  ghost predicate Lists(xs: seq<nat>, s: set<nat>) {
    && (forall i, j :: 0 <= i < j < |xs| ==> xs[i] != xs[j])
    && (forall x :: x in s <==> x in xs)
  }

  /** A listing has as many entries as the set has ids. */
  lemma {:induction false} ListsCard(xs: seq<nat>, s: set<nat>)
    requires Lists(xs, s)
    ensures |xs| == |s|
    decreases |xs|
  {
    if xs == [] {
      assert s == {};
    } else {
      var init, last := xs[..|xs| - 1], xs[|xs| - 1];
      assert last in s;
      forall x
        ensures x in s - {last} <==> x in init
      {
        if x in xs {
          var i :| 0 <= i < |xs| && xs[i] == x;
          assert x != last ==> i < |xs| - 1 && init[i] == x;
        }
        assert x in init ==> x in xs;
      }
      ListsCard(init, s - {last});
    }
  }

  /** Evaluating a queryset: its ids, one after another, in an order the database
      chooses. */
  method Evaluate(s: set<nat>) returns (xs: seq<nat>)
    ensures Lists(xs, s)
  {
    xs := [];
    var todo := s;
    while todo != {}
      invariant todo <= s
      invariant forall x :: x in s <==> x in todo || x in xs
      invariant forall x :: x in xs ==> x !in todo
      invariant forall i, j :: 0 <= i < j < |xs| ==> xs[i] != xs[j]
      decreases |todo|
    {
      var x :| x in todo;
      xs, todo := xs + [x], todo - {x};
    }
  }

  /** Adding up along a listing of a set gives the set's sum. */
  lemma ListsSum(xs: seq<nat>, s: set<nat>, f: nat -> int)
    requires Lists(xs, s)
    ensures SeqSum(xs, f) == SetSum(s, f)
  {
    SeqSumIsSetSum(xs, s, f);
  }
}
