/** Lists gathered element by element: what a loop of pushes builds. */
module Lists {
  function Gather<T, X>(f: T -> seq<X>, list: seq<T>): seq<X> {
    if list == [] then [] else Gather(f, list[..|list| - 1]) + f(list[|list| - 1])
  }

  lemma GatherStep<T, X>(f: T -> seq<X>, list: seq<T>, k: nat)
    requires k < |list|
    ensures Gather(f, list[..k + 1]) == Gather(f, list[..k]) + f(list[k])
  {
    assert list[..k + 1][..k] == list[..k];
  }

  lemma GatherWhole<T, X>(f: T -> seq<X>, list: seq<T>)
    ensures Gather(f, list[..|list|]) == Gather(f, list)
  {
    assert list[..|list|] == list;
  }

  lemma {:induction false} GatherHas<T, X>(f: T -> seq<X>, list: seq<T>, x: X)
    ensures x in Gather(f, list) <==> exists t :: t in list && x in f(t)
  {
    if list != [] {
      var n := |list| - 1;
      GatherHas(f, list[..n], x);
      assert forall t :: t in list <==> t in list[..n] || t == list[n];
    }
  }

  lemma {:induction false} GatherJoin<T, X>(f: T -> seq<X>, a: seq<T>, b: seq<T>)
    ensures Gather(f, a + b) == Gather(f, a) + Gather(f, b)
    decreases |b|
  {
    if b == [] {
      assert a + b == a;
    } else {
      var front := b[..|b| - 1];
      assert (a + b)[..|a + b| - 1] == a + front;
      GatherJoin(f, a, front);
    }
  }

  /** Every element passes: what a loop that stops at the first failure finds. */
  predicate All<T>(p: T -> bool, list: seq<T>) {
    list == [] || (All(p, list[..|list| - 1]) && p(list[|list| - 1]))
  }

  lemma AllStep<T>(p: T -> bool, list: seq<T>, k: nat)
    requires k < |list|
    ensures All(p, list[..k + 1]) <==> All(p, list[..k]) && p(list[k])
  {
    assert list[..k + 1][..k] == list[..k];
  }

  lemma {:induction false} AllPass<T>(p: T -> bool, list: seq<T>, k: nat)
    requires All(p, list) && k < |list|
    ensures p(list[k])
  {
    if k < |list| - 1 { AllPass(p, list[..|list| - 1], k); }
  }
}
