/** How many records of a list hold a given value: the bookkeeping of conservation laws. */
module Counting {
  import opened Orders

  function One(b: bool): nat { if b then 1 else 0 }

  /** The records of `list` from which `f` reads `x`. */
  function Count<T, X(==)>(f: T -> Option<X>, list: seq<T>, x: X): nat {
    if list == [] then 0
    else Count(f, list[..|list| - 1], x) + One(f(list[|list| - 1]) == Some(x))
  }

  lemma CountSnoc<T, X>(f: T -> Option<X>, list: seq<T>, r: T, x: X)
    ensures Count(f, list + [r], x) == Count(f, list, x) + One(f(r) == Some(x))
  {
    assert (list + [r])[..|list|] == list;
  }

  lemma {:induction false} CountUpdate<T, X>(f: T -> Option<X>, list: seq<T>, i: nat, r: T, x: X)
    requires i < |list|
    ensures Count(f, list[i := r], x) + One(f(list[i]) == Some(x)) == Count(f, list, x) + One(f(r) == Some(x))
  {
    var n := |list| - 1;
    var after := list[i := r];
    if i < n {
      assert after[..n] == list[..n][i := r];
      CountUpdate(f, list[..n], i, r, x);
    } else {
      assert after[..n] == list[..n];
    }
  }

  lemma {:induction false} CountHas<T, X>(f: T -> Option<X>, list: seq<T>, i: nat, x: X)
    requires i < |list| && f(list[i]) == Some(x)
    ensures Count(f, list, x) >= 1
  {
    if i < |list| - 1 { CountHas(f, list[..|list| - 1], i, x); }
  }

  lemma {:induction false} CountFind<T, X>(f: T -> Option<X>, list: seq<T>, x: X) returns (i: nat)
    requires Count(f, list, x) >= 1
    ensures i < |list| && f(list[i]) == Some(x)
  {
    var n := |list| - 1;
    if f(list[n]) == Some(x) { i := n; } else { i := CountFind(f, list[..n], x); }
  }

  /** A value counted once is read from one record only. */
  lemma {:induction false} CountOnce<T, X>(f: T -> Option<X>, list: seq<T>, i: nat, j: nat, x: X)
    requires i < j < |list| && f(list[i]) == Some(x) && f(list[j]) == Some(x)
    ensures Count(f, list, x) >= 2
  {
    var n := |list| - 1;
    if j < n { CountOnce(f, list[..n], i, j, x); } else { CountHas(f, list[..n], i, x); }
  }

  lemma {:induction false} CountNone<T, X>(f: T -> Option<X>, list: seq<T>, x: X)
    requires forall r :: r in list ==> f(r) != Some(x)
    ensures Count(f, list, x) == 0
  {
    if list != [] { CountNone(f, list[..|list| - 1], x); }
  }
}
