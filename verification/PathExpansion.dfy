/**
  The expansion of templated route paths in scripts/verify-openapi.ts. A path is its text and its
  `${…}` parts in order; `lookup` is what a file and its imports bind an identifier to.
 */
module PathExpansion {
  import opened Lists
  import opened Orders

  /** Text, an identifier in `${…}`, or any other expression in `${…}`. */
  datatype Part = Text(text: string) | Name(ident: string) | Other(expr: string)

  type Path = seq<Part>

  function Named(part: Part): seq<string> {
    if part.Name? then [part.ident] else []
  }

  /** The identifiers of a path, each as often as it stands there. */
  function Idents(p: Path): seq<string> {
    Gather(Named, p)
  }

  predicate HasHole(p: Path) {
    exists k :: 0 <= k < |p| && !p[k].Text?
  }

  function Put(ident: string, literal: Path): Part -> Path {
    part => if part == Name(ident) then literal else [part]
  }

  /** Every `${ident}` of the path replaced by the literal. */
  function Substitute(p: Path, ident: string, literal: Path): Path {
    Gather(Put(ident, literal), p)
  }

  function Substitutions(ident: string, literals: seq<Path>): Path -> seq<Path> {
    p => seq(|literals|, k requires 0 <= k < |literals| => Substitute(p, ident, literals[k]))
  }

  type Lookup = string -> seq<Path>

  /** The paths after the first `n` identifiers were replaced; `None` when one of them has no literal. */
  function Replaced(p: Path, idents: seq<string>, n: nat, lookup: Lookup): Option<seq<Path>>
    requires n <= |idents|
  {
    if n == 0 then Some([p])
    else
      var before := Replaced(p, idents, n - 1, lookup);
      var literals := lookup(idents[n - 1]);
      if before.None? || literals == [] then None
      else Some(Gather(Substitutions(idents[n - 1], literals), before.value))
  }

  const MAX_DEPTH := 10

  function Resolve(p: Path, lookup: Lookup, depth: nat): Option<seq<Path>>
    decreases MAX_DEPTH + 1 - depth, 1, 0
  {
    if depth > MAX_DEPTH then None
    else
      var idents := Idents(p);
      if idents == [] then Some([p])
      else
        var paths := Replaced(p, idents, |idents|, lookup);
        if paths.None? then None else ResolveAll(paths.value, lookup, depth)
  }

  /** The paths that still hold a `${…}` resolved one level deeper. */
  function ResolveAll(paths: seq<Path>, lookup: Lookup, depth: nat): Option<seq<Path>>
    requires depth <= MAX_DEPTH
    decreases MAX_DEPTH + 1 - depth, 0, |paths|
  {
    if paths == [] then Some([])
    else
      var n := |paths| - 1;
      var before := ResolveAll(paths[..n], lookup, depth);
      var last := ResolveOne(paths[n], lookup, depth + 1);
      if before.None? || last.None? then None else Some(before.value + last.value)
  }

  function ResolveOne(x: Path, lookup: Lookup, depth: nat): Option<seq<Path>>
    decreases MAX_DEPTH + 1 - depth, 2, 0
  {
    if HasHole(x) then Resolve(x, lookup, depth) else Some([x])
  }

  // ---------- the loops of the source ----------

  method ReplaceIdents(p: Path, idents: seq<string>, lookup: Lookup) returns (r: Option<seq<Path>>)
    ensures r == Replaced(p, idents, |idents|, lookup)
  {
    var paths: seq<Path> := [p];
    for n := 0 to |idents|
      invariant Replaced(p, idents, n, lookup) == Some(paths)
    {
      var literals := lookup(idents[n]);
      if literals == [] {
        NoneStays(p, idents, n + 1, |idents|, lookup);
        return None;
      }
      ReplacedOn(p, idents, n, lookup, paths);
      paths := Gather(Substitutions(idents[n], literals), paths);
    }
    r := Some(paths);
  }

  lemma ReplacedOn(p: Path, idents: seq<string>, n: nat, lookup: Lookup, paths: seq<Path>)
    requires n < |idents| && Replaced(p, idents, n, lookup) == Some(paths) && lookup(idents[n]) != []
    ensures Replaced(p, idents, n + 1, lookup) == Some(Gather(Substitutions(idents[n], lookup(idents[n])), paths))
  {
  }

  lemma {:induction false} NoneStays(p: Path, idents: seq<string>, n: nat, m: nat, lookup: Lookup)
    requires n <= m <= |idents| && Replaced(p, idents, n, lookup).None?
    ensures Replaced(p, idents, m, lookup).None?
  {
    if n < m { NoneStays(p, idents, n, m - 1, lookup); }
  }

  lemma {:induction false} NoneLasts(paths: seq<Path>, lookup: Lookup, depth: nat, n: nat)
    requires depth <= MAX_DEPTH && n <= |paths| && ResolveAll(paths[..n], lookup, depth).None?
    ensures ResolveAll(paths, lookup, depth).None?
    decreases |paths|
  {
    if n < |paths| {
      assert paths[..|paths| - 1][..n] == paths[..n];
      NoneLasts(paths[..|paths| - 1], lookup, depth, n);
    } else {
      assert paths[..n] == paths;
    }
  }

  method ResolveTemplatedPath(p: Path, lookup: Lookup, depth: nat) returns (r: Option<seq<Path>>)
    ensures r == Resolve(p, lookup, depth)
    decreases MAX_DEPTH + 1 - depth
  {
    if depth > MAX_DEPTH { return None; }
    var idents := Idents(p);
    if idents == [] { return Some([p]); }
    var replaced := ReplaceIdents(p, idents, lookup);
    if replaced.None? { return None; }
    var paths := replaced.value;
    var out: seq<Path> := [];
    for n := 0 to |paths|
      invariant ResolveAll(paths[..n], lookup, depth) == Some(out)
    {
      assert paths[..n + 1][..n] == paths[..n];
      if HasHole(paths[n]) {
        var nested := ResolveTemplatedPath(paths[n], lookup, depth + 1);
        if nested.None? {
          NoneLasts(paths, lookup, depth, n + 1);
          return None;
        }
        out := out + nested.value;
      } else {
        out := out + [paths[n]];
      }
    }
    assert paths[..|paths|] == paths;
    r := Some(out);
  }

  // ---------- what an expansion is ----------

  /** One literal chosen for each identifier, in order. */
  predicate Choice(idents: seq<string>, choices: seq<Path>, lookup: Lookup) {
    |choices| == |idents| && forall k :: 0 <= k < |idents| ==> choices[k] in lookup(idents[k])
  }

  /** The path with its identifiers replaced, one after the other, by the literals chosen for them. */
  function Chosen(p: Path, idents: seq<string>, choices: seq<Path>): Path
    requires |choices| == |idents|
  {
    if idents == [] then p
    else
      var n := |idents| - 1;
      Substitute(Chosen(p, idents[..n], choices[..n]), idents[n], choices[n])
  }

  predicate Picks(p: Path, idents: seq<string>, choices: seq<Path>, lookup: Lookup, q: Path) {
    Choice(idents, choices, lookup) && q == Chosen(p, idents, choices)
  }

  ghost predicate Reached(p: Path, idents: seq<string>, lookup: Lookup, q: Path) {
    exists choices :: Picks(p, idents, choices, lookup, q)
  }

  predicate Missing(idents: seq<string>, lookup: Lookup) {
    exists k :: 0 <= k < |idents| && lookup(idents[k]) == []
  }

  lemma {:induction false} ReplacedIs(p: Path, idents: seq<string>, n: nat, lookup: Lookup)
    requires n <= |idents|
    ensures Replaced(p, idents, n, lookup).None? <==> Missing(idents[..n], lookup)
    ensures Replaced(p, idents, n, lookup).Some? ==>
      forall q :: q in Replaced(p, idents, n, lookup).value <==> Reached(p, idents[..n], lookup, q)
  {
    if n == 0 {
      forall q ensures q == p <==> Reached(p, [], lookup, q) {
        assert Picks(p, [], [], lookup, p);
      }
    } else {
      ReplacedIs(p, idents, n - 1, lookup);
      assert idents[..n][..n - 1] == idents[..n - 1];
      assert Missing(idents[..n], lookup) <==> Missing(idents[..n - 1], lookup) || lookup(idents[n - 1]) == [];
      if Replaced(p, idents, n, lookup).Some? {
        var before := Replaced(p, idents, n - 1, lookup).value;
        forall q ensures q in Replaced(p, idents, n, lookup).value <==> Reached(p, idents[..n], lookup, q) {
          ReplacedStep(p, idents[..n], lookup, before, q);
        }
      }
    }
  }

  lemma ReplacedStep(p: Path, idents: seq<string>, lookup: Lookup, before: seq<Path>, q: Path)
    requires idents != []
    requires forall x :: x in before <==> Reached(p, idents[..|idents| - 1], lookup, x)
    ensures var ident := idents[|idents| - 1];
            q in Gather(Substitutions(ident, lookup(ident)), before) <==> Reached(p, idents, lookup, q)
  {
    var ident := idents[|idents| - 1];
    var f := Substitutions(ident, lookup(ident));
    GatherHas(f, before, q);
    if x :| x in before && q in f(x) {
      var k: nat :| k < |lookup(ident)| && f(x)[k] == q;
      ReachedForward(p, idents, lookup, x, k);
    }
    if Reached(p, idents, lookup, q) {
      var x, k := ReachedBack(p, idents, lookup, q);
      assert f(x)[k] == q;
    }
  }

  lemma ReachedForward(p: Path, idents: seq<string>, lookup: Lookup, x: Path, k: nat)
    requires idents != [] && Reached(p, idents[..|idents| - 1], lookup, x)
    requires k < |lookup(idents[|idents| - 1])|
    ensures var ident := idents[|idents| - 1]; Reached(p, idents, lookup, Substitute(x, ident, lookup(ident)[k]))
  {
    var n := |idents| - 1;
    var choices :| Picks(p, idents[..n], choices, lookup, x);
    var longer := choices + [lookup(idents[n])[k]];
    assert longer[..n] == choices;
    assert Picks(p, idents, longer, lookup, Substitute(x, idents[n], longer[n]));
  }

  lemma ReachedBack(p: Path, idents: seq<string>, lookup: Lookup, q: Path) returns (x: Path, k: nat)
    requires idents != [] && Reached(p, idents, lookup, q)
    ensures var ident := idents[|idents| - 1];
            k < |lookup(ident)| && q == Substitute(x, ident, lookup(ident)[k])
    ensures Reached(p, idents[..|idents| - 1], lookup, x)
  {
    var n := |idents| - 1;
    var choices :| Picks(p, idents, choices, lookup, q);
    x := Chosen(p, idents[..n], choices[..n]);
    k :| k < |lookup(idents[n])| && lookup(idents[n])[k] == choices[n];
    assert Picks(p, idents[..n], choices[..n], lookup, x);
  }

  /** `q` comes of `p` in at most `rounds` rounds of replacement. */
  ghost predicate Derives(p: Path, q: Path, lookup: Lookup, rounds: nat)
    decreases rounds, 0
  {
    rounds > 0 &&
    if Idents(p) == [] then q == p
    else exists x :: Reached(p, Idents(p), lookup, x) && Ends(x, q, lookup, rounds - 1)
  }

  ghost predicate Ends(x: Path, q: Path, lookup: Lookup, rounds: nat)
    decreases rounds, 1
  {
    if HasHole(x) then Derives(x, q, lookup, rounds) else q == x
  }

  /** Some path that comes of `p` has an identifier without a literal, or a `${…}` after the last round. */
  ghost predicate Stuck(p: Path, lookup: Lookup, rounds: nat)
    decreases rounds, 0
  {
    || rounds == 0
    || Missing(Idents(p), lookup)
    || (Idents(p) != [] && exists x :: Reached(p, Idents(p), lookup, x) && Fails(x, lookup, rounds - 1))
  }

  ghost predicate Fails(x: Path, lookup: Lookup, rounds: nat)
    decreases rounds, 1
  {
    HasHole(x) && Stuck(x, lookup, rounds)
  }

  /** The expansion fails exactly when a path gets stuck, and otherwise gives exactly the paths that come of it. */
  lemma {:induction false} ResolveIs(p: Path, lookup: Lookup, rounds: nat)
    requires rounds <= MAX_DEPTH + 1
    ensures Resolve(p, lookup, MAX_DEPTH + 1 - rounds).None? <==> Stuck(p, lookup, rounds)
    ensures var r := Resolve(p, lookup, MAX_DEPTH + 1 - rounds);
            r.Some? ==> forall q :: q in r.value <==> Derives(p, q, lookup, rounds)
    decreases rounds, 1, 0
  {
    if rounds > 0 && Idents(p) != [] {
      var idents := Idents(p);
      ReplacedIs(p, idents, |idents|, lookup);
      assert idents[..|idents|] == idents;
      var paths := Replaced(p, idents, |idents|, lookup);
      if paths.Some? {
        ResolveAllIs(paths.value, lookup, rounds);
        assert forall x :: x in paths.value <==> Reached(p, idents, lookup, x);
      }
    }
  }

  lemma {:induction false} ResolveOneIs(x: Path, lookup: Lookup, rounds: nat)
    requires rounds <= MAX_DEPTH
    ensures var r := ResolveOne(x, lookup, MAX_DEPTH + 1 - rounds);
            && (r.None? <==> Fails(x, lookup, rounds))
            && (r.Some? ==> forall q :: q in r.value <==> Ends(x, q, lookup, rounds))
    decreases rounds, 2
  {
    if HasHole(x) { ResolveIs(x, lookup, rounds); }
  }

  lemma OneMore(
    paths: seq<Path>, before: Option<seq<Path>>, last: Option<seq<Path>>,
    fails: Path -> bool, ends: (Path, Path) -> bool)
    requires paths != []
    requires before.None? <==> exists x :: x in paths[..|paths| - 1] && fails(x)
    requires before.Some? ==>
      forall q :: q in before.value <==> exists x :: x in paths[..|paths| - 1] && ends(x, q)
    requires last.None? <==> fails(paths[|paths| - 1])
    requires last.Some? ==> forall q :: q in last.value <==> ends(paths[|paths| - 1], q)
    ensures before.None? || last.None? <==> exists x :: x in paths && fails(x)
    ensures before.Some? && last.Some? ==>
      forall q :: q in before.value + last.value <==> exists x :: x in paths && ends(x, q)
  {
    assert forall x :: x in paths <==> x in paths[..|paths| - 1] || x == paths[|paths| - 1];
  }

  ghost function Failing(lookup: Lookup, rounds: nat): Path -> bool {
    x => Fails(x, lookup, rounds)
  }

  ghost function Ending(lookup: Lookup, rounds: nat): (Path, Path) -> bool {
    (x, q) => Ends(x, q, lookup, rounds)
  }

  lemma {:induction false} ResolveAllIs(paths: seq<Path>, lookup: Lookup, rounds: nat)
    requires 0 < rounds <= MAX_DEPTH + 1
    ensures var r, fails, ends :=
              ResolveAll(paths, lookup, MAX_DEPTH + 1 - rounds),
              Failing(lookup, rounds - 1), Ending(lookup, rounds - 1);
            && (r.None? <==> exists x :: x in paths && fails(x))
            && (r.Some? ==> forall q :: q in r.value <==> exists x :: x in paths && ends(x, q))
    decreases rounds, 0, |paths|
  {
    if paths != [] {
      var n := |paths| - 1;
      ResolveAllIs(paths[..n], lookup, rounds);
      ResolveOneIs(paths[n], lookup, rounds - 1);
      OneMore(paths, ResolveAll(paths[..n], lookup, MAX_DEPTH + 1 - rounds),
        ResolveOne(paths[n], lookup, MAX_DEPTH + 2 - rounds), Failing(lookup, rounds - 1), Ending(lookup, rounds - 1));
    }
  }

  // ---------- what stays in a result ----------

  predicate HasOther(p: Path) {
    exists k :: 0 <= k < |p| && p[k].Other?
  }

  /** No literal holds an expression that is not an identifier. */
  ghost predicate NamesOnly(lookup: Lookup) {
    forall ident, literal :: literal in lookup(ident) ==> !HasOther(literal)
  }

  lemma IdentsHas(p: Path, ident: string)
    ensures ident in Idents(p) <==> Name(ident) in p
  {
    GatherHas(Named, p, ident);
    assert Name(ident) in p ==> ident in Named(Name(ident));
  }

  lemma SubstituteHas(p: Path, ident: string, literal: Path, part: Part)
    ensures part in Substitute(p, ident, literal) <==>
      (part != Name(ident) && part in p) || (Name(ident) in p && part in literal)
  {
    GatherHas(Put(ident, literal), p, part);
    assert part != Name(ident) && part in p ==> part in Put(ident, literal)(part);
    assert Name(ident) in p && part in literal ==> part in Put(ident, literal)(Name(ident));
  }

  lemma SubstituteOther(p: Path, ident: string, literal: Path)
    ensures HasOther(p) ==> HasOther(Substitute(p, ident, literal))
    ensures !HasOther(literal) && HasOther(Substitute(p, ident, literal)) ==> HasOther(p)
  {
    var q := Substitute(p, ident, literal);
    if k: nat :| k < |p| && p[k].Other? {
      SubstituteHas(p, ident, literal, p[k]);
    }
    if k: nat :| k < |q| && q[k].Other? {
      SubstituteHas(p, ident, literal, q[k]);
    }
  }

  lemma {:induction false} ChosenOther(p: Path, idents: seq<string>, choices: seq<Path>, lookup: Lookup)
    requires Choice(idents, choices, lookup)
    ensures HasOther(p) ==> HasOther(Chosen(p, idents, choices))
    ensures NamesOnly(lookup) && HasOther(Chosen(p, idents, choices)) ==> HasOther(p)
  {
    if idents != [] {
      var n := |idents| - 1;
      ChosenOther(p, idents[..n], choices[..n], lookup);
      SubstituteOther(Chosen(p, idents[..n], choices[..n]), idents[n], choices[n]);
    }
  }

  lemma {:induction false} DerivedIs(p: Path, q: Path, lookup: Lookup, rounds: nat)
    requires Derives(p, q, lookup, rounds)
    ensures Idents(q) == []
    ensures HasOther(p) ==> HasOther(q)
    ensures NamesOnly(lookup) && HasOther(q) ==> HasOther(p)
    decreases rounds
  {
    if Idents(p) != [] {
      var x :| Reached(p, Idents(p), lookup, x) && Ends(x, q, lookup, rounds - 1);
      var choices :| Picks(p, Idents(p), choices, lookup, x);
      ChosenOther(p, Idents(p), choices, lookup);
      if HasHole(x) {
        DerivedIs(x, q, lookup, rounds - 1);
      } else if Idents(x) != [] {
        IdentsHas(x, Idents(x)[0]);
      }
    }
  }

  /**
    A result names no identifier any more. An expression that is not an identifier is never resolved and
    never refused: where the literals hold none, a result keeps a `${…}` exactly when the path holds one.
   */
  lemma ResultsAreConcreteExactly(p: Path, lookup: Lookup, q: Path)
    requires Resolve(p, lookup, 0).Some? && q in Resolve(p, lookup, 0).value
    ensures Idents(q) == []
    ensures HasOther(p) ==> HasHole(q)
    ensures NamesOnly(lookup) ==> (HasHole(q) <==> HasOther(p))
  {
    ResolveIs(p, lookup, MAX_DEPTH + 1);
    DerivedIs(p, q, lookup, MAX_DEPTH + 1);
    if k: nat :| k < |q| && !q[k].Text? && !q[k].Other? {
      IdentsHas(q, q[k].ident);
    }
  }

  /** The part stands in the path, or in a literal at most `n` choices away from it. */
  ghost predicate Comes(p: Path, part: Part, lookup: Lookup, n: nat)
    decreases n, 1
  {
    part in p || exists ident, literal :: ComesBy(p, ident, literal, part, lookup, n)
  }

  ghost predicate ComesBy(p: Path, ident: string, literal: Path, part: Part, lookup: Lookup, n: nat)
    decreases n, 0
  {
    n > 0 && Name(ident) in p && literal in lookup(ident) && Comes(literal, part, lookup, n - 1)
  }

  ghost predicate ComesTo(p: Path, part: Part, lookup: Lookup) {
    exists n: nat :: Comes(p, part, lookup, n)
  }

  /** The path, or a literal that can come into it, holds an expression that is no identifier. */
  ghost predicate OtherComes(p: Path, lookup: Lookup) {
    exists part: Part :: part.Other? && ComesTo(p, part, lookup)
  }

  lemma ComesFrom(p: Path, part: Part, lookup: Lookup, n: nat) returns (ident: string, literal: Path)
    requires Comes(p, part, lookup, n) && part !in p
    ensures ComesBy(p, ident, literal, part, lookup, n)
  {
    ident, literal :| ComesBy(p, ident, literal, part, lookup, n);
  }

  lemma ComesAfter(p: Path, ident: string, literal: Path, part: Part, lookup: Lookup, n: nat)
    requires ComesBy(p, ident, literal, part, lookup, n)
    ensures Comes(p, part, lookup, n)
  {
  }

  lemma {:induction false} ComesOn(p: Path, ident: string, literal: Path, part: Part, lookup: Lookup, n: nat)
    requires Comes(p, Name(ident), lookup, n) && literal in lookup(ident) && part in literal
    ensures Comes(p, part, lookup, n + 1)
    decreases n
  {
    if Name(ident) in p {
      assert ComesBy(p, ident, literal, part, lookup, n + 1);
    } else {
      var i, l := ComesFrom(p, Name(ident), lookup, n);
      ComesOn(l, ident, literal, part, lookup, n - 1);
      assert ComesBy(p, i, l, part, lookup, n + 1);
    }
  }

  lemma {:induction false} ChosenComes(p: Path, idents: seq<string>, choices: seq<Path>, lookup: Lookup, part: Part)
    requires Choice(idents, choices, lookup) && part in Chosen(p, idents, choices)
    ensures ComesTo(p, part, lookup)
  {
    if idents == [] {
      assert Comes(p, part, lookup, 0);
    } else {
      var n := |idents| - 1;
      var y := Chosen(p, idents[..n], choices[..n]);
      SubstituteHas(y, idents[n], choices[n], part);
      if part in y {
        ChosenComes(p, idents[..n], choices[..n], lookup, part);
      } else {
        ChosenComes(p, idents[..n], choices[..n], lookup, Name(idents[n]));
        var m: nat :| Comes(p, Name(idents[n]), lookup, m);
        ComesOn(p, idents[n], choices[n], part, lookup, m);
      }
    }
  }

  lemma {:induction false} ComesThrough(p: Path, x: Path, part: Part, lookup: Lookup, n: nat)
    requires (forall t :: t in x ==> ComesTo(p, t, lookup)) && Comes(x, part, lookup, n)
    ensures ComesTo(p, part, lookup)
    decreases n
  {
    if part !in x {
      var i, l := ComesFrom(x, part, lookup, n);
      var m: nat :| Comes(p, Name(i), lookup, m);
      forall t | t in l ensures ComesTo(p, t, lookup) { ComesOn(p, i, l, t, lookup, m); }
      ComesThrough(p, l, part, lookup, n - 1);
    }
  }

  lemma {:induction false} DerivedComes(p: Path, q: Path, part: Part, lookup: Lookup, rounds: nat)
    requires Derives(p, q, lookup, rounds) && part in q
    ensures ComesTo(p, part, lookup)
    decreases rounds
  {
    if Idents(p) == [] {
      assert Comes(p, part, lookup, 0);
    } else {
      var x :| Reached(p, Idents(p), lookup, x) && Ends(x, q, lookup, rounds - 1);
      var choices :| Picks(p, Idents(p), choices, lookup, x);
      forall t | t in x ensures ComesTo(p, t, lookup) { ChosenComes(p, Idents(p), choices, lookup, t); }
      if HasHole(x) {
        DerivedComes(x, q, part, lookup, rounds - 1);
        var n: nat :| Comes(x, part, lookup, n);
        ComesThrough(p, x, part, lookup, n);
      }
    }
  }

  lemma ComesWithin(x: Path, y: Path, part: Part, lookup: Lookup, n: nat)
    requires (forall t :: t in x ==> t in y) && Comes(x, part, lookup, n)
    ensures Comes(y, part, lookup, n)
  {
    if part !in x {
      var i, l := ComesFrom(x, part, lookup, n);
      assert ComesBy(y, i, l, part, lookup, n);
    }
  }

  /** One more choice that the part survives. */
  lemma ChooseToward(y: Path, ident: string, part: Part, lookup: Lookup) returns (literal: Path)
    requires ComesTo(y, part, lookup) && part.Other? && lookup(ident) != []
    ensures literal in lookup(ident) && ComesTo(Substitute(y, ident, literal), part, lookup)
  {
    var n: nat :| Comes(y, part, lookup, n);
    literal := lookup(ident)[0];
    if part in y {
      SubstituteHas(y, ident, literal, part);
      assert Comes(Substitute(y, ident, literal), part, lookup, 0);
    } else {
      var i, l := ComesFrom(y, part, lookup, n);
      if i == ident {
        literal := l;
        forall t | t in l ensures t in Substitute(y, ident, l) { SubstituteHas(y, ident, l, t); }
        ComesWithin(l, Substitute(y, ident, l), part, lookup, n - 1);
      } else {
        SubstituteHas(y, ident, literal, Name(i));
        ComesAfter(Substitute(y, ident, literal), i, l, part, lookup, n);
      }
    }
  }

  lemma {:induction false} ReachToward(p: Path, idents: seq<string>, part: Part, lookup: Lookup)
    returns (choices: seq<Path>)
    requires ComesTo(p, part, lookup) && part.Other? && !Missing(idents, lookup)
    ensures Choice(idents, choices, lookup) && ComesTo(Chosen(p, idents, choices), part, lookup)
  {
    if idents == [] {
      choices := [];
    } else {
      var n := |idents| - 1;
      assert forall k :: 0 <= k < n ==> idents[..n][k] == idents[k];
      var before := ReachToward(p, idents[..n], part, lookup);
      var literal := ChooseToward(Chosen(p, idents[..n], before), idents[n], part, lookup);
      choices := before + [literal];
      assert choices[..n] == before;
    }
  }

  lemma ComesIsHole(x: Path, part: Part, lookup: Lookup)
    requires ComesTo(x, part, lookup) && part.Other?
    ensures HasHole(x)
  {
    var n: nat :| Comes(x, part, lookup, n);
    if part in x {
      var k: nat :| k < |x| && x[k] == part;
    } else {
      var i, l := ComesFrom(x, part, lookup, n);
      var k: nat :| k < |x| && x[k] == Name(i);
    }
  }

  /** Where nothing gets stuck, a part that can come into the path comes into some result. */
  lemma {:induction false} ComesOut(p: Path, part: Part, lookup: Lookup, rounds: nat) returns (q: Path)
    requires ComesTo(p, part, lookup) && part.Other? && !Stuck(p, lookup, rounds)
    ensures Derives(p, q, lookup, rounds) && part in q
    decreases rounds
  {
    var idents := Idents(p);
    if idents == [] {
      q := p;
      var n: nat :| Comes(p, part, lookup, n);
      if part !in p {
        var i, l := ComesFrom(p, part, lookup, n);
        IdentsHas(p, i);
      }
    } else {
      var choices := ReachToward(p, idents, part, lookup);
      var x := Chosen(p, idents, choices);
      assert Picks(p, idents, choices, lookup, x);
      ComesIsHole(x, part, lookup);
      if Stuck(x, lookup, rounds - 1) { StuckBy(p, x, lookup, rounds); }
      q := ComesOut(x, part, lookup, rounds - 1);
      DerivesBy(p, x, q, lookup, rounds);
    }
  }

  lemma DerivesBy(p: Path, x: Path, q: Path, lookup: Lookup, rounds: nat)
    requires rounds > 0 && Idents(p) != [] && Reached(p, Idents(p), lookup, x) && Ends(x, q, lookup, rounds - 1)
    ensures Derives(p, q, lookup, rounds)
  {
  }

  /** Some result keeps a `${…}` exactly when the path or a literal that can come into it holds another expression. */
  lemma ResultsKeepExactly(p: Path, lookup: Lookup)
    requires Resolve(p, lookup, 0).Some?
    ensures (exists q :: q in Resolve(p, lookup, 0).value && HasHole(q)) <==> OtherComes(p, lookup)
  {
    var results := Resolve(p, lookup, 0).value;
    ResolveIs(p, lookup, MAX_DEPTH + 1);
    if q: Path :| q in results && HasHole(q) {
      DerivedIs(p, q, lookup, MAX_DEPTH + 1);
      var k: nat :| k < |q| && !q[k].Text?;
      if q[k].Name? { IdentsHas(q, q[k].ident); }
      DerivedComes(p, q, q[k], lookup, MAX_DEPTH + 1);
    }
    if part: Part :| part.Other? && ComesTo(p, part, lookup) {
      var q := ComesOut(p, part, lookup, MAX_DEPTH + 1);
      var k: nat :| k < |q| && q[k] == part;
      assert q in results && HasHole(q);
    }
  }

  /** The path `/${a.b}` is returned as it stands. */
  lemma ExpressionIsReturned(lookup: Lookup)
    ensures var p := [Text("/"), Other("a.b")];
            Resolve(p, lookup, 0) == Some([p]) && HasHole(p)
  {
    var p := [Text("/"), Other("a.b")];
    if Idents(p) != [] {
      IdentsHas(p, Idents(p)[0]);
    }
    assert p[1].Other?;
  }

  // ---------- constants that refer to one another in a circle ----------

  predicate Mentions(p: Path, circle: set<string>) {
    exists k :: 0 <= k < |p| && p[k].Name? && p[k].ident in circle
  }

  /** Every literal of an identifier of the circle mentions the circle again. */
  ghost predicate Circular(circle: set<string>, lookup: Lookup) {
    forall ident, literal :: ident in circle && literal in lookup(ident) ==> Mentions(literal, circle)
  }

  lemma SubstituteMentions(p: Path, ident: string, literal: Path, circle: set<string>)
    requires Mentions(p, circle)
    requires ident in circle ==> Mentions(literal, circle)
    ensures Mentions(Substitute(p, ident, literal), circle)
  {
    var k: nat :| k < |p| && p[k].Name? && p[k].ident in circle;
    if p[k] == Name(ident) {
      var j: nat :| j < |literal| && literal[j].Name? && literal[j].ident in circle;
      SubstituteHas(p, ident, literal, literal[j]);
    } else {
      SubstituteHas(p, ident, literal, p[k]);
    }
  }

  lemma {:induction false} ChosenMentions(
    p: Path, idents: seq<string>, choices: seq<Path>, lookup: Lookup, circle: set<string>)
    requires Choice(idents, choices, lookup) && Circular(circle, lookup) && Mentions(p, circle)
    ensures Mentions(Chosen(p, idents, choices), circle)
  {
    if idents != [] {
      var n := |idents| - 1;
      ChosenMentions(p, idents[..n], choices[..n], lookup, circle);
      SubstituteMentions(Chosen(p, idents[..n], choices[..n]), idents[n], choices[n], circle);
    }
  }

  lemma {:induction false} CircleIsStuck(p: Path, lookup: Lookup, circle: set<string>, rounds: nat)
    requires Circular(circle, lookup) && Mentions(p, circle)
    ensures Stuck(p, lookup, rounds)
    decreases rounds
  {
    if rounds == 0 || Missing(Idents(p), lookup) {
      StuckAtOnce(p, lookup, rounds);
    } else {
      MentionsIdent(p, circle);
      var x := StillMentions(p, lookup, circle);
      CircleIsStuck(x, lookup, circle, rounds - 1);
      StuckBy(p, x, lookup, rounds);
    }
  }

  lemma StuckAtOnce(p: Path, lookup: Lookup, rounds: nat)
    requires rounds == 0 || Missing(Idents(p), lookup)
    ensures Stuck(p, lookup, rounds)
  {
  }

  lemma StuckBy(p: Path, x: Path, lookup: Lookup, rounds: nat)
    requires rounds > 0 && Idents(p) != [] && Reached(p, Idents(p), lookup, x) && Fails(x, lookup, rounds - 1)
    ensures Stuck(p, lookup, rounds)
  {
  }

  lemma MentionsIdent(p: Path, circle: set<string>)
    requires Mentions(p, circle)
    ensures Idents(p) != [] && HasHole(p)
  {
    var k: nat :| k < |p| && p[k].Name? && p[k].ident in circle;
    IdentsHas(p, p[k].ident);
  }

  lemma StillMentions(p: Path, lookup: Lookup, circle: set<string>) returns (x: Path)
    requires Circular(circle, lookup) && Mentions(p, circle) && !Missing(Idents(p), lookup)
    ensures Reached(p, Idents(p), lookup, x) && Mentions(x, circle) && HasHole(x)
  {
    var idents := Idents(p);
    var choices := seq(|idents|, j requires 0 <= j < |idents| => FirstOf(lookup(idents[j])));
    x := Chosen(p, idents, choices);
    assert Picks(p, idents, choices, lookup, x);
    ChosenMentions(p, idents, choices, lookup, circle);
    MentionsIdent(x, circle);
  }

  function FirstOf(literals: seq<Path>): Path {
    if literals == [] then [] else literals[0]
  }

  /** A path that mentions such a circle has no expansion, whatever else its identifiers are bound to. */
  lemma CirclesFailClosed(p: Path, lookup: Lookup, circle: set<string>)
    requires Circular(circle, lookup) && Mentions(p, circle)
    ensures Resolve(p, lookup, 0).None?
  {
    CircleIsStuck(p, lookup, circle, MAX_DEPTH + 1);
    ResolveIs(p, lookup, MAX_DEPTH + 1);
  }

  // ---------- literals that name no identifier ----------

  type Binding = string -> Option<Path>

  function Filled(bind: Binding): Part -> Path {
    (part: Part) => if part.Name? && bind(part.ident).Some? then bind(part.ident).value else [part]
  }

  /** Every bound identifier of the path replaced at once, everywhere by the same literal. */
  function Fill(p: Path, bind: Binding): Path {
    Gather(Filled(bind), p)
  }

  ghost predicate Binds(p: Path, bind: Binding, lookup: Lookup) {
    forall ident :: Name(ident) in p ==> bind(ident).Some? && bind(ident).value in lookup(ident)
  }

  ghost predicate Concrete(lookup: Lookup) {
    forall ident, literal :: literal in lookup(ident) ==> Idents(literal) == []
  }

  lemma {:induction false} SubstituteAbsent(p: Path, ident: string, literal: Path)
    requires Name(ident) !in p
    ensures Substitute(p, ident, literal) == p
  {
    if p != [] {
      var n := |p| - 1;
      SubstituteAbsent(p[..n], ident, literal);
      assert p[n] in p && p == p[..n] + [p[n]];
    }
  }

  /** The binding with `ident` bound too, unless it already is. */
  function Also(bind: Binding, ident: string, literal: Path): Binding {
    i => if bind(i).None? && i == ident then Some(literal) else bind(i)
  }

  lemma {:induction false} FillThenSubstitute(p: Path, bind: Binding, ident: string, literal: Path)
    requires forall i :: bind(i).Some? ==> Idents(bind(i).value) == []
    ensures Substitute(Fill(p, bind), ident, literal) == Fill(p, Also(bind, ident, literal))
  {
    if p != [] {
      var n := |p| - 1;
      FillThenSubstitute(p[..n], bind, ident, literal);
      GatherJoin(Put(ident, literal), Fill(p[..n], bind), Filled(bind)(p[n]));
      PartThenSubstitute(p[n], bind, ident, literal);
    }
  }

  lemma PartThenSubstitute(part: Part, bind: Binding, ident: string, literal: Path)
    requires part.Name? && bind(part.ident).Some? ==> Idents(bind(part.ident).value) == []
    ensures Substitute(Filled(bind)(part), ident, literal) == Filled(Also(bind, ident, literal))(part)
  {
    var filled := Filled(bind)(part);
    if part != Name(ident) || bind(ident).Some? {
      IdentsHas(filled, ident);
      SubstituteAbsent(filled, ident, literal);
    } else {
      assert filled == [part] && filled[..0] == [];
      assert Gather(Put(ident, literal), filled) == [] + Put(ident, literal)(part);
      assert Also(bind, ident, literal)(ident) == Some(literal);
    }
  }

  function Bound(idents: seq<string>, choices: seq<Path>): Binding
    requires |choices| == |idents|
  {
    if idents == [] then i => None
    else
      var n := |idents| - 1;
      Also(Bound(idents[..n], choices[..n]), idents[n], choices[n])
  }

  lemma {:induction false} BoundIs(idents: seq<string>, choices: seq<Path>, lookup: Lookup, i: string)
    requires Choice(idents, choices, lookup)
    ensures Bound(idents, choices)(i).Some? <==> i in idents
    ensures Bound(idents, choices)(i).Some? ==> Bound(idents, choices)(i).value in lookup(i)
  {
    if idents != [] {
      var n := |idents| - 1;
      BoundIs(idents[..n], choices[..n], lookup, i);
      assert i in idents <==> i in idents[..n] || i == idents[n];
    }
  }

  lemma {:induction false} ChosenIsFilled(p: Path, idents: seq<string>, choices: seq<Path>, lookup: Lookup)
    requires Choice(idents, choices, lookup) && Concrete(lookup)
    ensures Chosen(p, idents, choices) == Fill(p, Bound(idents, choices))
  {
    if idents == [] {
      FillNothing(p, Bound([], []));
      assert choices == [];
    } else {
      var n := |idents| - 1;
      ChosenIsFilled(p, idents[..n], choices[..n], lookup);
      forall i | Bound(idents[..n], choices[..n])(i).Some?
        ensures Idents(Bound(idents[..n], choices[..n])(i).value) == []
      {
        BoundIs(idents[..n], choices[..n], lookup, i);
      }
      FillThenSubstitute(p, Bound(idents[..n], choices[..n]), idents[n], choices[n]);
    }
  }

  lemma {:induction false} FillNothing(p: Path, bind: Binding)
    requires forall i :: Name(i) in p ==> bind(i).None?
    ensures Fill(p, bind) == p
  {
    if p != [] {
      var n := |p| - 1;
      FillNothing(p[..n], bind);
      assert p[n] in p && p == p[..n] + [p[n]];
    }
  }

  lemma {:induction false} FillAgrees(p: Path, a: Binding, b: Binding)
    requires forall i :: Name(i) in p ==> a(i) == b(i)
    ensures Fill(p, a) == Fill(p, b)
  {
    if p != [] {
      var n := |p| - 1;
      FillAgrees(p[..n], a, b);
      assert p[n] in p;
    }
  }

  ghost predicate FilledBy(p: Path, bind: Binding, lookup: Lookup, q: Path) {
    Binds(p, bind, lookup) && q == Fill(p, bind)
  }

  ghost predicate Fillable(p: Path, lookup: Lookup, q: Path) {
    exists bind :: FilledBy(p, bind, lookup, q)
  }

  lemma FilledIsReached(p: Path, bind: Binding, lookup: Lookup, q: Path)
    requires Concrete(lookup) && FilledBy(p, bind, lookup, q)
    ensures Reached(p, Idents(p), lookup, q)
  {
    var idents := Idents(p);
    forall i ensures i in idents <==> Name(i) in p {
      IdentsHas(p, i);
    }
    var choices := seq(|idents|, j requires 0 <= j < |idents| => Or(bind(idents[j])));
    assert Choice(idents, choices, lookup);
    ChosenIsFilled(p, idents, choices, lookup);
    forall i | Name(i) in p ensures bind(i) == Bound(idents, choices)(i) {
      BoundBy(idents, choices, bind, i);
    }
    FillAgrees(p, bind, Bound(idents, choices));
    assert Picks(p, idents, choices, lookup, q);
  }

  function Or(path: Option<Path>): Path {
    if path.Some? then path.value else []
  }

  lemma {:induction false} BoundBy(idents: seq<string>, choices: seq<Path>, bind: Binding, i: string)
    requires |choices| == |idents| && forall k :: 0 <= k < |idents| ==> bind(idents[k]) == Some(choices[k])
    requires i in idents
    ensures Bound(idents, choices)(i) == bind(i)
  {
    var n := |idents| - 1;
    if i in idents[..n] {
      BoundBy(idents[..n], choices[..n], bind, i);
    } else {
      BoundOnly(idents[..n], choices[..n], i);
    }
  }

  lemma {:induction false} BoundOnly(idents: seq<string>, choices: seq<Path>, i: string)
    requires |choices| == |idents| && i !in idents
    ensures Bound(idents, choices)(i).None?
  {
    if idents != [] {
      BoundOnly(idents[..|idents| - 1], choices[..|idents| - 1], i);
    }
  }

  lemma ReachedIsFilled(p: Path, lookup: Lookup, q: Path) returns (bind: Binding)
    requires Concrete(lookup) && Reached(p, Idents(p), lookup, q)
    ensures FilledBy(p, bind, lookup, q)
    ensures Idents(q) == []
  {
    var idents := Idents(p);
    var choices :| Picks(p, idents, choices, lookup, q);
    bind := Bound(idents, choices);
    ChosenIsFilled(p, idents, choices, lookup);
    forall i | Name(i) in p ensures bind(i).Some? && bind(i).value in lookup(i) {
      IdentsHas(p, i);
      BoundIs(idents, choices, lookup, i);
    }
    if Idents(q) != [] {
      FilledNames(p, bind, lookup, Idents(q)[0]);
      IdentsHas(q, Idents(q)[0]);
    }
  }

  lemma FilledNames(p: Path, bind: Binding, lookup: Lookup, i: string)
    requires Concrete(lookup) && Binds(p, bind, lookup)
    ensures Name(i) !in Fill(p, bind)
  {
    GatherHas(Filled(bind), p, Name(i));
    if part :| part in p && Name(i) in Filled(bind)(part) {
      assert part.Name?;
      IdentsHas(bind(part.ident).value, i);
      assert false;
    }
  }

  /**
    Where the literals name no identifier, the expansion is the product of the choices: it fails exactly
    when an identifier has no literal, and otherwise gives every way of choosing one literal to an
    identifier, the same at every place it stands, and nothing else.
   */
  lemma ExpansionIsProduct(p: Path, lookup: Lookup)
    requires Concrete(lookup)
    ensures Resolve(p, lookup, 0).None? <==> exists ident :: Name(ident) in p && lookup(ident) == []
    ensures Resolve(p, lookup, 0).Some? ==>
      forall q :: q in Resolve(p, lookup, 0).value <==> Fillable(p, lookup, q)
  {
    ResolveIs(p, lookup, MAX_DEPTH + 1);
    MissingIs(p, lookup);
    forall x | Reached(p, Idents(p), lookup, x) ensures Idents(x) == [] {
      var bind := ReachedIsFilled(p, lookup, x);
    }
    forall q ensures Derives(p, q, lookup, MAX_DEPTH + 1) <==> Fillable(p, lookup, q) {
      ProductStep(p, lookup, q);
    }
  }

  lemma MissingIs(p: Path, lookup: Lookup)
    ensures Missing(Idents(p), lookup) <==> exists ident :: Name(ident) in p && lookup(ident) == []
  {
    forall ident ensures ident in Idents(p) <==> Name(ident) in p {
      IdentsHas(p, ident);
    }
  }

  lemma ProductStep(p: Path, lookup: Lookup, q: Path)
    requires Concrete(lookup)
    ensures Derives(p, q, lookup, MAX_DEPTH + 1) <==> Fillable(p, lookup, q)
  {
    if Idents(p) == [] {
      forall i ensures Name(i) !in p {
        IdentsHas(p, i);
      }
      FillNothing(p, Bound([], []));
      assert FilledBy(p, Bound([], []), lookup, p);
      if bind :| FilledBy(p, bind, lookup, q) {
        FillNothing(p, bind);
      }
    } else {
      if x :| Reached(p, Idents(p), lookup, x) && Ends(x, q, lookup, MAX_DEPTH) {
        var bind := ReachedIsFilled(p, lookup, x);
        assert q == x;
      }
      if bind :| FilledBy(p, bind, lookup, q) {
        FilledIsReached(p, bind, lookup, q);
        var again := ReachedIsFilled(p, lookup, q);
        assert Ends(q, q, lookup, MAX_DEPTH);
      }
    }
  }
}
