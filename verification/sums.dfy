/** Sums over finite sets of row ids, standing for the ORM's loops that add up a
    value over the rows of a queryset. */
module Sums {

  /** The sum of `f` over the ids in `s`, in no particular order. */
  ghost function SetSum(s: set<nat>, f: nat -> int): int
    decreases s
  {
    if s == {} then 0 else var x :| x in s; f(x) + SetSum(s - {x}, f)
  }

  /** Any element can be taken out first: the sum does not depend on the order. */
  lemma {:induction false} SetSumRemove(s: set<nat>, y: nat, f: nat -> int)
    requires y in s
    ensures SetSum(s, f) == f(y) + SetSum(s - {y}, f)
    decreases s
  {
    var x :| x in s && SetSum(s, f) == f(x) + SetSum(s - {x}, f);
    if x != y {
      SetSumRemove(s - {x}, y, f);
      SetSumRemove(s - {y}, x, f);
      assert s - {x} - {y} == s - {y} - {x};
    }
  }

  lemma SetSumAdd(s: set<nat>, y: nat, f: nat -> int)
    requires y !in s
    ensures SetSum(s + {y}, f) == SetSum(s, f) + f(y)
  {
    SetSumRemove(s + {y}, y, f);
    assert s + {y} - {y} == s;
  }

  /** Two summands that agree on the set give the same sum. */
  lemma {:induction false} SetSumCongruent(s: set<nat>, f: nat -> int, g: nat -> int)
    requires forall x :: x in s ==> f(x) == g(x)
    ensures SetSum(s, f) == SetSum(s, g)
    decreases s
  {
    if s != {} {
      var x :| x in s;
      SetSumRemove(s, x, f);
      SetSumRemove(s, x, g);
      SetSumCongruent(s - {x}, f, g);
    }
  }

  /** A summand that is zero on the whole set sums to zero. */
  lemma {:induction false} SetSumZero(s: set<nat>, f: nat -> int)
    requires forall x :: x in s ==> f(x) == 0
    ensures SetSum(s, f) == 0
    decreases s
  {
    if s != {} {
      var x :| x in s;
      SetSumRemove(s, x, f);
      SetSumZero(s - {x}, f);
    }
  }

  /** The sum of `f` over the ids of `xs`, in the order of `xs`. */
  function SeqSum(xs: seq<nat>, f: nat -> int): int {
    if xs == [] then 0 else SeqSum(xs[..|xs| - 1], f) + f(xs[|xs| - 1])
  }

  /** Adding up along an ordering of a set without repetitions gives the set's sum. */
  lemma {:induction false} SeqSumIsSetSum(xs: seq<nat>, s: set<nat>, f: nat -> int)
    requires forall i, j :: 0 <= i < j < |xs| ==> xs[i] != xs[j]
    requires forall x :: x in s <==> x in xs
    ensures SeqSum(xs, f) == SetSum(s, f)
    decreases |xs|
  {
    if xs == [] {
      assert s == {};
    } else {
      var init, last := xs[..|xs| - 1], xs[|xs| - 1];
      assert last in s;
      assert last !in init by {
        forall i | 0 <= i < |init|
          ensures init[i] != last
        {
          assert xs[i] != xs[|xs| - 1];
        }
      }
      forall x
        ensures x in s - {last} <==> x in init
      {
        if x in xs {
          var i :| 0 <= i < |xs| && xs[i] == x;
          assert x != last ==> i < |xs| - 1 && init[i] == x;
        }
        assert x in init ==> x in xs;
      }
      SeqSumIsSetSum(init, s - {last}, f);
      SetSumRemove(s, last, f);
    }
  }
}
