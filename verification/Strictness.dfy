/** The strictness walk of scripts/verify-openapi.ts. */
module Strictness {
  /*
    Do a code schema and the published one refuse unknown fields at the same places? References may
    run in circles.
   */

  import opened Orders

  /** A composition keyword: absent, something that is not a list, or its branches. */
  datatype Union = Missing | Malformed | Branches(list: seq<Value>)

  /** A schema as written, a reference when `ref` names one. */
  datatype Schema = Schema(
    ref: Option<string>,
    closed: bool,
    oneOf: Union,
    anyOf: Union,
    properties: Option<map<string, Value>>,
    items: Value)

  /** What stands where a schema may stand. */
  datatype Value = NotSchema | Of(schema: Schema)

  type Refs = map<string, Schema>

  const EMPTY: Schema := Schema(None, false, Missing, Missing, None, NotSchema)

  const MAX_STRICTNESS_DEPTH := 8

  function Deref(v: Value, refs: Refs): Option<Schema> {
    if v.NotSchema? then None
    else if v.schema.ref.None? then Some(v.schema)
    else if v.schema.ref.value in refs then Some(refs[v.schema.ref.value])
    else None
  }

  /** A branch that is a reference to nothing stands for itself. */
  function BranchSchema(v: Value, refs: Refs): Schema {
    if v.NotSchema? then EMPTY
    else if v.schema.ref.Some? && v.schema.ref.value in refs then refs[v.schema.ref.value]
    else v.schema
  }

  function UnionBranches(s: Schema, refs: Refs): Option<seq<Schema>> {
    var u := if s.oneOf.Missing? then s.anyOf else s.oneOf;
    if u.Branches? then Some(seq(|u.list|, i requires 0 <= i < |u.list| => BranchSchema(u.list[i], refs))) else None
  }

  function ObjectProperties(s: Schema, refs: Refs): Option<map<string, Schema>> {
    if s.properties.None? then None
    else
      var props := s.properties.value;
      Some(map name | name in props && Deref(props[name], refs).Some? :: Deref(props[name], refs).value)
  }

  predicate DeclaresOwnProperties(s: Schema) {
    s.properties.Some? && s.properties.value.Keys != {}
  }

  // ---------- the places both schemas have ----------

  datatype Child = Field(name: string) | Items

  /** One step down: to a field or to the items, and there into a branch of a union. */
  datatype Step = Step(child: Child, branch: Option<nat>)

  type Pair = (Schema, Schema)

  /** The child both schemas have. */
  function ChildOf(a: Schema, b: Schema, child: Child, refs: Refs): Option<Pair> {
    match child
    case Field(name) =>
      var p, q := ObjectProperties(a, refs), ObjectProperties(b, refs);
      if p.Some? && q.Some? && name in p.value && name in q.value then Some((p.value[name], q.value[name])) else None
    case Items =>
      var p, q := Deref(a.items, refs), Deref(b.items, refs);
      if p.Some? && q.Some? then Some((p.value, q.value)) else None
  }

  /** Are two schemas compared as objects, rather than branch by branch or not at all? */
  predicate AsObjects(a: Schema, b: Schema, refs: Refs) {
    || (DeclaresOwnProperties(a) && DeclaresOwnProperties(b))
    || (UnionBranches(a, refs).None? && UnionBranches(b, refs).None?)
  }

  /** The pair a step into `branch` compares. */
  function Enter(a: Schema, b: Schema, branch: Option<nat>, refs: Refs): Option<Pair> {
    if AsObjects(a, b, refs) then if branch.None? then Some((a, b)) else None
    else
      var p, q := UnionBranches(a, refs), UnionBranches(b, refs);
      if p.Some? && q.Some? && |p.value| == |q.value| && branch.Some? && branch.value < |p.value|
      then Some((p.value[branch.value], q.value[branch.value])) else None
  }

  function Take(a: Schema, b: Schema, step: Step, refs: Refs): Option<Pair> {
    var child := ChildOf(a, b, step.child, refs);
    if child.None? then None else Enter(child.value.0, child.value.1, step.branch, refs)
  }

  /** The pair at the end of a path that both schemas have. */
  function Follow(a: Schema, b: Schema, path: seq<Step>, refs: Refs): Option<Pair>
    decreases |path|
  {
    if path == [] then Some((a, b))
    else
      var next := Take(a, b, path[0], refs);
      if next.None? then None else Follow(next.value.0, next.value.1, path[1..], refs)
  }

  /** The schemas at the end of `path` are closed differently, the first being `closed`. */
  predicate Differs(a: Schema, b: Schema, path: seq<Step>, closed: bool, refs: Refs) {
    var end := Follow(a, b, path, refs);
    end.Some? && end.value.0.closed == closed && end.value.1.closed == !closed
  }

  // ---------- the walk ----------

  /** A place where only one side refuses unknown fields: the code does, when `zodClosed`. */
  datatype Issue = Issue(path: seq<Step>, zodClosed: bool)

  /** The issues below `prefix`, at most `left` steps further down. */
  predicate Below(prefix: seq<Step>, a: Schema, b: Schema, left: nat, issue: Issue, refs: Refs) {
    && prefix <= issue.path && |issue.path| <= |prefix| + left
    && Differs(a, b, issue.path[|prefix|..], issue.zodClosed, refs)
  }

  /** Those among them reached through one child. */
  predicate Through(prefix: seq<Step>, child: Child, a: Schema, b: Schema, left: nat, issue: Issue, refs: Refs) {
    && prefix < issue.path && |issue.path| <= |prefix| + 1 + left
    && var step := issue.path[|prefix|];
       step.child == child
       && var next := Enter(a, b, step.branch, refs);
          next.Some? && Differs(next.value.0, next.value.1, issue.path[|prefix| + 1..], issue.zodClosed, refs)
  }

  lemma BelowSplits(prefix: seq<Step>, a: Schema, b: Schema, left: nat, issue: Issue, refs: Refs)
    ensures Below(prefix, a, b, left, issue, refs) <==>
      || (issue.path == prefix && a.closed == issue.zodClosed && b.closed == !issue.zodClosed)
      || (left > 0 && prefix < issue.path
          && var child := ChildOf(a, b, issue.path[|prefix|].child, refs);
             child.Some?
             && Through(prefix, issue.path[|prefix|].child, child.value.0, child.value.1, left - 1, issue, refs))
  {
    if prefix <= issue.path {
      var rest := issue.path[|prefix|..];
      if rest == [] {
        assert issue.path == prefix;
      } else {
        assert rest[0] == issue.path[|prefix|] && rest[1..] == issue.path[|prefix| + 1..];
      }
    }
  }

  method CompareObjects(prefix: seq<Step>, zod: Schema, oa: Schema, depth: nat, refs: Refs) returns (issues: set<Issue>)
    requires depth <= MAX_STRICTNESS_DEPTH
    ensures forall issue :: issue in issues <==> Below(prefix, zod, oa, MAX_STRICTNESS_DEPTH - depth, issue, refs)
    decreases MAX_STRICTNESS_DEPTH - depth, 0
  {
    ghost var left := MAX_STRICTNESS_DEPTH - depth;
    forall issue { BelowSplits(prefix, zod, oa, left, issue, refs); }
    issues := if zod.closed != oa.closed then {Issue(prefix, zod.closed)} else {};
    if depth >= MAX_STRICTNESS_DEPTH { return; }
    var fields := CompareProperties(prefix, zod, oa, depth, refs);
    issues := issues + fields;
    var items := ChildOf(zod, oa, Items, refs);
    if items.Some? {
      var below := Descend(prefix, Items, items.value.0, items.value.1, depth + 1, refs);
      issues := issues + below;
    }
  }

  method CompareProperties(prefix: seq<Step>, zod: Schema, oa: Schema, depth: nat, refs: Refs)
    returns (issues: set<Issue>)
    requires depth < MAX_STRICTNESS_DEPTH
    ensures forall issue :: issue in issues <==>
      && prefix < issue.path && issue.path[|prefix|].child.Field?
      && var child := ChildOf(zod, oa, issue.path[|prefix|].child, refs);
         child.Some? && Through(prefix, issue.path[|prefix|].child, child.value.0, child.value.1,
                                MAX_STRICTNESS_DEPTH - depth - 1, issue, refs)
    decreases MAX_STRICTNESS_DEPTH - depth - 1, 2
  {
    issues := {};
    var p, q := ObjectProperties(zod, refs), ObjectProperties(oa, refs);
    if p.None? || q.None? { return; }
    var rest := p.value.Keys;
    while rest != {}
      invariant rest <= p.value.Keys
      invariant forall issue :: issue in issues <==>
        && prefix < issue.path && issue.path[|prefix|].child.Field?
        && var name := issue.path[|prefix|].child.name;
           name in p.value && name in q.value && name !in rest
           && Through(prefix, Field(name), p.value[name], q.value[name], MAX_STRICTNESS_DEPTH - depth - 1, issue, refs)
      decreases |rest|
    {
      var name :| name in rest;
      rest := rest - {name};
      if name !in q.value { continue; }
      var below := Descend(prefix, Field(name), p.value[name], q.value[name], depth + 1, refs);
      issues := issues + below;
    }
  }

  method Descend(prefix: seq<Step>, child: Child, zod: Schema, oa: Schema, depth: nat, refs: Refs)
    returns (issues: set<Issue>)
    requires 0 < depth <= MAX_STRICTNESS_DEPTH
    ensures forall issue :: issue in issues <==>
      Through(prefix, child, zod, oa, MAX_STRICTNESS_DEPTH - depth, issue, refs)
    decreases MAX_STRICTNESS_DEPTH - depth, 1
  {
    ghost var left := MAX_STRICTNESS_DEPTH - depth;
    issues := {};
    if AsObjects(zod, oa, refs) {
      issues := CompareObjects(prefix + [Step(child, None)], zod, oa, depth, refs);
      forall issue { ThroughOne(prefix, child, zod, oa, None, left, issue, refs); }
      return;
    }
    var p, q := UnionBranches(zod, refs), UnionBranches(oa, refs);
    if p.None? || q.None? || |p.value| != |q.value| { return; }
    for i := 0 to |p.value|
      invariant forall issue :: issue in issues <==>
        Through(prefix, child, zod, oa, left, issue, refs) && issue.path[|prefix|].branch.value < i
    {
      var below := CompareObjects(prefix + [Step(child, Some(i))], p.value[i], q.value[i], depth, refs);
      forall issue { ThroughOne(prefix, child, zod, oa, Some(i), left, issue, refs); }
      issues := issues + below;
    }
  }

  lemma ThroughOne(
    prefix: seq<Step>, child: Child, a: Schema, b: Schema, branch: Option<nat>, left: nat, issue: Issue, refs: Refs)
    requires Enter(a, b, branch, refs).Some?
    ensures var next := Enter(a, b, branch, refs).value;
            Below(prefix + [Step(child, branch)], next.0, next.1, left, issue, refs) <==>
              Through(prefix, child, a, b, left, issue, refs) && issue.path[|prefix|].branch == branch
  {
    var longer := prefix + [Step(child, branch)];
    if |issue.path| > |prefix| {
      assert longer <= issue.path <==> prefix <= issue.path && issue.path[|prefix|] == Step(child, branch) by {
        if prefix <= issue.path && issue.path[|prefix|] == Step(child, branch) {
          assert issue.path[..|prefix| + 1] == longer;
        }
        if longer <= issue.path {
          assert issue.path[|prefix|] == longer[|prefix|];
          assert longer[..|prefix|] == prefix && issue.path[..|prefix|] == longer[..|prefix|];
        }
      }
      assert issue.path[|longer|..] == issue.path[|prefix| + 1..];
    }
  }

  // ---------- the comparison of two bodies ----------

  datatype Finding =
    | BranchCount(zod: nat, oa: nat)
    | UnionShape(zodIsUnion: bool)
    | Strict(branch: Option<nat>, issue: Issue)

  /** The pair compared at the top: the bodies themselves, or two branches at the same place. */
  function Root(a: Schema, b: Schema, branch: Option<nat>, refs: Refs): Option<Pair> {
    var p, q := UnionBranches(a, refs), UnionBranches(b, refs);
    if p.None? && q.None? then if branch.None? then Some((a, b)) else None
    else if p.Some? && q.Some? && |p.value| == |q.value| && branch.Some? && branch.value < |p.value|
    then Some((p.value[branch.value], q.value[branch.value]))
    else None
  }

  predicate IsIssue(a: Schema, b: Schema, issue: Issue, refs: Refs) {
    |issue.path| <= MAX_STRICTNESS_DEPTH && Differs(a, b, issue.path, issue.zodClosed, refs)
  }

  predicate Found(a: Schema, b: Schema, refs: Refs, f: Finding) {
    var p, q := UnionBranches(a, refs), UnionBranches(b, refs);
    match f
    case BranchCount(n, m) => p.Some? && q.Some? && n == |p.value| && m == |q.value| && n != m
    case UnionShape(zodIsUnion) => p.Some? == zodIsUnion && q.Some? == !zodIsUnion
    case Strict(branch, issue) =>
      var root := Root(a, b, branch, refs);
      root.Some? && IsIssue(root.value.0, root.value.1, issue, refs)
  }

  lemma BelowRoot(a: Schema, b: Schema, issue: Issue, refs: Refs)
    ensures Below([], a, b, MAX_STRICTNESS_DEPTH, issue, refs) <==> IsIssue(a, b, issue, refs)
  {
    assert issue.path[0..] == issue.path;
  }

  method CompareBranches(p: seq<Schema>, q: seq<Schema>, refs: Refs) returns (findings: set<Finding>)
    requires |p| == |q|
    ensures forall f :: f in findings <==>
      && f.Strict? && f.branch.Some? && f.branch.value < |p|
      && IsIssue(p[f.branch.value], q[f.branch.value], f.issue, refs)
  {
    findings := {};
    for i := 0 to |p|
      invariant forall f :: f in findings <==>
        && f.Strict? && f.branch.Some? && f.branch.value < i
        && IsIssue(p[f.branch.value], q[f.branch.value], f.issue, refs)
    {
      var issues := CompareObjects([], p[i], q[i], 0, refs);
      forall issue { BelowRoot(p[i], q[i], issue, refs); }
      findings := findings + set issue | issue in issues :: Strict(Some(i), issue);
    }
  }

  method CompareStrictness(zod: Schema, oa: Schema, refs: Refs) returns (findings: set<Finding>)
    ensures forall f :: f in findings <==> Found(zod, oa, refs, f)
  {
    var p, q := UnionBranches(zod, refs), UnionBranches(oa, refs);
    if p.Some? && q.Some? {
      if |p.value| != |q.value| { return {BranchCount(|p.value|, |q.value|)}; }
      findings := CompareBranches(p.value, q.value, refs);
      return;
    }
    if p.Some? || q.Some? { return {UnionShape(p.Some?)}; }
    var issues := CompareObjects([], zod, oa, 0, refs);
    forall issue { BelowRoot(zod, oa, issue, refs); }
    findings := set issue | issue in issues :: Strict(None, issue);
  }

  // ---------- what the walk can and cannot see ----------

  lemma {:induction false} FollowSame(a: Schema, path: seq<Step>, refs: Refs)
    ensures Follow(a, a, path, refs).Some? ==> Follow(a, a, path, refs).value.0 == Follow(a, a, path, refs).value.1
    decreases |path|
  {
    if path != [] && Take(a, a, path[0], refs).Some? {
      FollowSame(Take(a, a, path[0], refs).value.0, path[1..], refs);
    }
  }

  /** A body compared with itself, circles in its references and all, gives no finding. */
  lemma SelfCompareIsSilent(a: Schema, refs: Refs, f: Finding)
    ensures !Found(a, a, refs, f)
  {
    if f.Strict? && Root(a, a, f.branch, refs).Some? {
      FollowSame(Root(a, a, f.branch, refs).value.0, f.issue.path, refs);
    }
  }

  function Swapped(f: Finding): Finding {
    match f
    case BranchCount(n, m) => BranchCount(m, n)
    case UnionShape(zodIsUnion) => UnionShape(!zodIsUnion)
    case Strict(branch, issue) => Strict(branch, Issue(issue.path, !issue.zodClosed))
  }

  function Turned(p: Option<Pair>): Option<Pair> {
    if p.Some? then Some((p.value.1, p.value.0)) else None
  }

  lemma {:induction false} FollowSwaps(a: Schema, b: Schema, path: seq<Step>, refs: Refs)
    ensures Follow(b, a, path, refs) == Turned(Follow(a, b, path, refs))
    decreases |path|
  {
    if path != [] {
      var next := Take(a, b, path[0], refs);
      assert Take(b, a, path[0], refs) == Turned(next);
      if next.Some? { FollowSwaps(next.value.0, next.value.1, path[1..], refs); }
    }
  }

  /** Both directions are errors: a finding one way is the same finding, sides swapped, the other way. */
  lemma BothDirections(a: Schema, b: Schema, refs: Refs, f: Finding)
    ensures Found(a, b, refs, f) <==> Found(b, a, refs, Swapped(f))
  {
    if f.Strict? {
      var root := Root(a, b, f.branch, refs);
      assert Root(b, a, f.branch, refs) == Turned(root);
      if root.Some? { FollowSwaps(root.value.0, root.value.1, f.issue.path, refs); }
    }
  }

  ghost predicate Silent(a: Schema, b: Schema, refs: Refs) {
    forall f :: !Found(a, b, refs, f)
  }

  predicate SameShape(a: Schema, b: Schema, refs: Refs) {
    var p, q := UnionBranches(a, refs), UnionBranches(b, refs);
    p.Some? == q.Some? && (p.Some? ==> |p.value| == |q.value|)
  }

  /** The two schemas at the end of `path` refuse unknown fields alike, or one side has no such place. */
  predicate AgreesAt(a: Schema, b: Schema, branch: Option<nat>, path: seq<Step>, refs: Refs) {
    var root := Root(a, b, branch, refs);
    root.Some? ==>
      var end := Follow(root.value.0, root.value.1, path, refs);
      end.Some? ==> end.value.0.closed == end.value.1.closed
  }

  /** The walk is silent exactly when closedness agrees on every common path down to the depth limit. */
  lemma SilentExactly(a: Schema, b: Schema, refs: Refs)
    ensures Silent(a, b, refs) <==>
      && SameShape(a, b, refs)
      && forall branch, path :: |path| <= MAX_STRICTNESS_DEPTH ==> AgreesAt(a, b, branch, path, refs)
  {
    var p, q := UnionBranches(a, refs), UnionBranches(b, refs);
    if !SameShape(a, b, refs) {
      assert Found(a, b, refs, if p.Some? && q.Some? then BranchCount(|p.value|, |q.value|) else UnionShape(p.Some?));
    }
    forall branch: Option<nat>, path: seq<Step> | |path| <= MAX_STRICTNESS_DEPTH && !AgreesAt(a, b, branch, path, refs)
      ensures !Silent(a, b, refs)
    {
      var root := Root(a, b, branch, refs).value;
      assert Found(a, b, refs, Strict(branch, Issue(path, Follow(root.0, root.1, path, refs).value.0.closed)));
    }
    forall f | Found(a, b, refs, f) && SameShape(a, b, refs)
      ensures f.Strict? && !AgreesAt(a, b, f.branch, f.issue.path, refs)
    {
    }
  }

  /** An array of arrays, `n` deep, around an object. */
  function Nested(n: nat, closed: bool): Schema {
    if n == 0 then EMPTY.(closed := closed) else EMPTY.(items := Of(Nested(n - 1, closed)))
  }

  function Down(n: nat): seq<Step> {
    seq(n, _ => Step(Items, None))
  }

  lemma {:induction false} FollowNested(n: nat, path: seq<Step>, refs: Refs)
    ensures Follow(Nested(n, true), Nested(n, false), path, refs).Some? ==>
      |path| <= n && Follow(Nested(n, true), Nested(n, false), path, refs).value ==
        (Nested(n - |path|, true), Nested(n - |path|, false))
    decreases n
  {
    if path != [] && n > 0 { FollowNested(n - 1, path[1..], refs); }
  }

  lemma {:induction false} ReachNested(n: nat, refs: Refs)
    ensures Follow(Nested(n, true), Nested(n, false), Down(n), refs) == Some((Nested(0, true), Nested(0, false)))
  {
    if n > 0 {
      assert Down(n)[1..] == Down(n - 1);
      ReachNested(n - 1, refs);
    }
  }

  /** The limit is where it is said to be: a difference is seen exactly down to the eighth level. */
  lemma DepthLimit(n: nat, refs: Refs)
    ensures Silent(Nested(n, true), Nested(n, false), refs) <==> n > MAX_STRICTNESS_DEPTH
  {
    var a, b := Nested(n, true), Nested(n, false);
    SilentExactly(a, b, refs);
    assert UnionBranches(a, refs).None? && UnionBranches(b, refs).None?;
    ReachNested(n, refs);
    assert !AgreesAt(a, b, None, Down(n), refs);
    assert |Down(n)| == n;
    forall branch: Option<nat>, path: seq<Step> | |path| <= MAX_STRICTNESS_DEPTH < n
      ensures AgreesAt(a, b, branch, path, refs)
    {
      FollowNested(n, path, refs);
    }
  }
}
