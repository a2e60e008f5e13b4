/** Lists without adjacent repeats. */
module Collapsing {

  /** The elements whose key is not that of the element just before. */
  function Collapse<T>(s: seq<T>, key: T -> string): seq<T> {
    if s == [] then []
    else
      var init, x := s[..|s| - 1], s[|s| - 1];
      Collapse(init, key) + if init != [] && key(init[|init| - 1]) == key(x) then [] else [x]
  }

  lemma {:induction false} CollapseKeepsLast<T>(s: seq<T>, key: T -> string)
    requires s != []
    ensures Collapse(s, key) != [] && key(Collapse(s, key)[|Collapse(s, key)| - 1]) == key(s[|s| - 1])
  {
    if |s| > 1 { CollapseKeepsLast(s[..|s| - 1], key); }
  }

  /** No two adjacent elements of the result have the same key, and all are from the list. */
  lemma {:induction false} CollapseHasNoRepeat<T>(s: seq<T>, key: T -> string)
    ensures forall i :: 0 < i < |Collapse(s, key)| ==> key(Collapse(s, key)[i]) != key(Collapse(s, key)[i - 1])
    ensures forall x :: x in Collapse(s, key) ==> x in s
  {
    if s != [] {
      var init := s[..|s| - 1];
      CollapseHasNoRepeat(init, key);
      if init != [] { CollapseKeepsLast(init, key); }
    }
  }

  lemma {:induction false} CollapseSnoc<T>(s: seq<T>, x: T, key: T -> string)
    ensures Collapse(s + [x], key) == Collapse(s, key) + if s != [] && key(s[|s| - 1]) == key(x) then [] else [x]
  {
    assert (s + [x])[..|s|] == s;
  }

  lemma {:induction false} CollapseStep<T>(a: seq<T>, b: seq<T>, x: T, key: T -> string)
    requires Collapse(a, key) == Collapse(b, key)
    ensures Collapse(a + [x], key) == Collapse(b + [x], key)
  {
    CollapseSnoc(a, x, key);
    CollapseSnoc(b, x, key);
    if a != [] { CollapseKeepsLast(a, key); }
    if b != [] { CollapseKeepsLast(b, key); }
  }

  /** Collapsing depends only on what the parts collapse to. */
  lemma {:induction false} CollapseCongruence<T>(a: seq<T>, b: seq<T>, c: seq<T>, key: T -> string)
    requires Collapse(a, key) == Collapse(b, key)
    ensures Collapse(a + c, key) == Collapse(b + c, key)
  {
    hide Collapse;
    if c == [] {
      assert a + c == a && b + c == b;
    } else {
      var init, x := c[..|c| - 1], c[|c| - 1];
      CollapseCongruence(a, b, init, key);
      CollapseStep(a + init, b + init, x, key);
      assert a + c == (a + init) + [x] && b + c == (b + init) + [x];
    }
  }
}
