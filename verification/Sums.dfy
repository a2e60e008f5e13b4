/** Sums over sequences and filtered sequences. */
module Sums {

  function Sum<T>(s: seq<T>, f: T -> nat): nat {
    if s == [] then 0 else Sum(s[..|s| - 1], f) + f(s[|s| - 1])
  }

  /** The elements that satisfy `keep`, in order. */
  function Filter<T>(s: seq<T>, keep: T -> bool): (r: seq<T>)
    ensures forall x :: x in r ==> x in s && keep(x)
  {
    if s == [] then []
    else if keep(s[|s| - 1]) then Filter(s[..|s| - 1], keep) + [s[|s| - 1]]
    else Filter(s[..|s| - 1], keep)
  }

  lemma {:induction false} SumSnoc<T>(s: seq<T>, x: T, f: T -> nat)
    ensures Sum(s + [x], f) == Sum(s, f) + f(x)
  {
    assert (s + [x])[..|s|] == s;
  }

  lemma {:induction false} SumUpdate<T>(s: seq<T>, i: nat, x: T, f: T -> nat)
    requires i < |s|
    ensures f(s[i]) <= Sum(s, f)
    ensures Sum(s[i := x], f) == Sum(s, f) - f(s[i]) + f(x)
  {
    var n := |s| - 1;
    if i < n {
      SumUpdate(s[..n], i, x, f);
      assert s[i := x][..n] == s[..n][i := x];
    } else {
      assert s[i := x][..n] == s[..n];
    }
  }

  lemma {:induction false} SumFilter<T>(s: seq<T>, keep: T -> bool, f: T -> nat)
    ensures Sum(Filter(s, keep), f) <= Sum(s, f)
    ensures (forall x :: x in s && f(x) > 0 ==> keep(x)) ==> Sum(Filter(s, keep), f) == Sum(s, f)
  {
    if s != [] {
      var n := |s| - 1;
      SumFilter(s[..n], keep, f);
      if keep(s[n]) {
        SumSnoc(Filter(s[..n], keep), s[n], f);
      }
    }
  }

  lemma {:induction false} SumSame<S, T>(s: seq<S>, t: seq<T>, f: S -> nat, g: T -> nat)
    requires |s| == |t| && forall i :: 0 <= i < |s| ==> f(s[i]) == g(t[i])
    ensures Sum(s, f) == Sum(t, g)
  {
    if s != [] {
      SumSame(s[..|s| - 1], t[..|t| - 1], f, g);
    }
  }
}
