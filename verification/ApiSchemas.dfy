/** The schemas of scripts/detect-breaking-changes.ts. */
module ApiSchemas {
  /*
    What is read out of an OpenAPI schema: the keys it requires, the fields it declares, its type and
    its enum, through `$ref`, `allOf`, `oneOf` and `anyOf`.
   */

  import opened Orders

  datatype TypeDecl = NoType | OneType(name: string) | TypeList(names: seq<string>)

  datatype Schema = Schema(
    ref: Option<string>,
    types: TypeDecl,
    allOf: Members,
    oneOf: Members,
    anyOf: Members,
    properties: map<string, Schema>,
    required: seq<string>,
    enum: Option<seq<string>>)

  /** A composition keyword, when the schema has it. */
  datatype Members = Absent | Listed(list: seq<Schema>)

  /** The component schemas, and for each how deep its references go. */
  datatype Components = Components(schemas: map<string, Schema>, rank: map<string, nat>)

  function ListOf(members: Members): seq<Schema> {
    if members.Listed? then members.list else []
  }

  /** Every schema a schema is composed of. */
  function Parts(s: Schema): seq<Schema> {
    ListOf(s.allOf) + ListOf(s.oneOf) + ListOf(s.anyOf)
  }

  // ---------- references do not run in circles ----------

  function Max(a: nat, b: nat): nat { if a < b then b else a }

  function Rank(s: Schema, c: Components): nat
    decreases s, 1
  {
    if s.ref.None? then PartsRank(s, c)
    else if s.ref.value in c.rank then c.rank[s.ref.value] + 1
    else 0
  }

  function PartsRank(s: Schema, c: Components): nat
    decreases s, 0
  {
    Max(RankOf(s.allOf, c), Max(RankOf(s.oneOf, c), RankOf(s.anyOf, c)))
  }

  function RankOf(ms: Members, c: Components): (r: nat)
    ensures forall m :: m in ListOf(ms) ==> Rank(m, c) <= r
    decreases ms
  {
    if ms.Absent? then 0 else RankAll(ms.list, c)
  }

  function RankAll(ms: seq<Schema>, c: Components): (r: nat)
    ensures forall m :: m in ms ==> Rank(m, c) <= r
    decreases ms
  {
    if ms == [] then 0
    else Max(Rank(ms[0], c), RankAll(ms[1..], c))
  }

  /** No component refers to itself, through its parts or through a reference. */
  predicate WellFormed(c: Components) {
    forall r :: r in c.schemas ==>
      r in c.rank && Rank(c.schemas[r], c) <= c.rank[r] && PartsRank(c.schemas[r], c) <= c.rank[r]
  }

  /** One reference resolved: what it names may be a reference again. */
  function Deref(s: Schema, c: Components): Option<Schema> {
    if s.ref.None? then Some(s)
    else if s.ref.value in c.schemas then Some(c.schemas[s.ref.value])
    else None
  }

  /** The parts of what a schema stands for come before it. */
  lemma PartsBefore(s: Schema, t: Schema, c: Components)
    requires WellFormed(c) && Deref(s, c) == Some(t)
    ensures forall m :: m in Parts(t) ==> Rank(m, c) <= PartsRank(t, c)
    ensures t == s || PartsRank(t, c) < Rank(s, c)
  {
    forall m | m in Parts(t) ensures Rank(m, c) <= PartsRank(t, c) {
      assert m in ListOf(t.allOf) || m in ListOf(t.oneOf) || m in ListOf(t.anyOf);
    }
  }

  lemma PartsRanked(t: Schema, c: Components)
    ensures forall m :: m in Parts(t) ==> Rank(m, c) <= PartsRank(t, c)
  {
    forall m | m in Parts(t) ensures Rank(m, c) <= PartsRank(t, c) {
      assert m in ListOf(t.allOf) || m in ListOf(t.oneOf) || m in ListOf(t.anyOf);
    }
  }

  // ---------- what the comparison reads ----------

  /** The composition the comparison follows: `allOf` hides a union, and `oneOf` hides `anyOf`. */
  function Composed(s: Schema): (r: seq<Schema>)
    ensures forall m :: m in r ==> m in Parts(s)
  {
    if s.allOf.Listed? then s.allOf.list
    else if s.oneOf.Listed? then s.oneOf.list
    else ListOf(s.anyOf)
  }

  function KeySet(keys: seq<string>): set<string> {
    set k | k in keys
  }

  /** The keys a schema requires, over its composition. */
  function Required(s: Schema, c: Components): set<string>
    requires WellFormed(c)
    decreases Rank(s, c), s, 1, 0
  {
    if Deref(s, c).None? then {}
    else
      var t := Deref(s, c).value;
      RequiredBy(t, |Composed(t)|, c) + KeySet(t.required)
  }

  /** The keys of the first `n` members. */
  function RequiredBy(t: Schema, n: nat, c: Components): set<string>
    requires WellFormed(c) && n <= |Composed(t)|
    decreases PartsRank(t, c), t, 0, n
  {
    if n == 0 then {}
    else
      PartsRanked(t, c);
      RequiredBy(t, n - 1, c) + Required(Composed(t)[n - 1], c)
  }

  /** The fields a schema declares, over its composition; a later member wins, and its own fields win over all. */
  function Properties(s: Schema, c: Components): map<string, Schema>
    requires WellFormed(c)
    decreases Rank(s, c), s, 1, 0
  {
    if Deref(s, c).None? then map[]
    else
      var t := Deref(s, c).value;
      Merged(t, |Composed(t)|, c) + t.properties
  }

  /** The fields of the first `n` members. */
  function Merged(t: Schema, n: nat, c: Components): map<string, Schema>
    requires WellFormed(c) && n <= |Composed(t)|
    decreases PartsRank(t, c), t, 0, n
  {
    if n == 0 then map[]
    else
      PartsRanked(t, c);
      Merged(t, n - 1, c) + Properties(Composed(t)[n - 1], c)
  }

  lemma {:induction false} RequiredByWithin(t: Schema, n: nat, c: Components, keys: set<string>)
    requires WellFormed(c) && n <= |Composed(t)|
    ensures RequiredBy(t, n, c) <= keys <==> forall j :: 0 <= j < n ==> Required(Composed(t)[j], c) <= keys
    decreases n
  {
    if n > 0 { RequiredByWithin(t, n - 1, c, keys); }
  }

  method AddKeys(known: set<string>, keys: seq<string>) returns (all: set<string>)
    ensures all == known + KeySet(keys)
  {
    all := known;
    for n := 0 to |keys|
      invariant all == known + KeySet(keys[..n])
    {
      assert keys[..n + 1] == keys[..n] + [keys[n]];
      all := all + {keys[n]};
    }
    assert keys[..|keys|] == keys;
  }

  method GetRequired(s: Schema, c: Components) returns (required: set<string>)
    requires WellFormed(c)
    ensures required == Required(s, c)
    decreases Rank(s, c), s
  {
    required := {};
    var target := Deref(s, c);
    if target.None? { return; }
    var t := target.value;
    PartsBefore(s, t, c);
    for n := 0 to |Composed(t)|
      invariant required == RequiredBy(t, n, c)
    {
      var keys := GetRequired(Composed(t)[n], c);
      required := required + keys;
    }
    required := AddKeys(required, t.required);
  }

  method GetProperties(s: Schema, c: Components) returns (fields: map<string, Schema>)
    requires WellFormed(c)
    ensures fields == Properties(s, c)
    decreases Rank(s, c), s
  {
    fields := map[];
    var target := Deref(s, c);
    if target.None? { return; }
    var t := target.value;
    PartsBefore(s, t, c);
    for n := 0 to |Composed(t)|
      invariant fields == Merged(t, n, c)
    {
      var more := GetProperties(Composed(t)[n], c);
      fields := fields + more;
    }
    fields := fields + t.properties;
  }

  // ---------- what a schema accepts, as far as required keys go ----------

  /** An object with these keys meets every `required` list of the schema, whichever branches it takes. */
  ghost predicate MeetsEvery(s: Schema, c: Components, keys: set<string>)
    requires WellFormed(c)
    decreases Rank(s, c), s
  {
    if s.ref.Some? then s.ref.value in c.schemas ==> MeetsEvery(c.schemas[s.ref.value], c, keys)
    else
      PartsRanked(s, c);
      KeySet(s.required) <= keys && forall m :: m in Parts(s) ==> MeetsEvery(m, c, keys)
  }

  /** An object with these keys is accepted: `allOf` needs every member, a union needs one branch. */
  ghost predicate Accepts(s: Schema, c: Components, keys: set<string>)
    requires WellFormed(c)
    decreases Rank(s, c), s
  {
    if s.ref.Some? then s.ref.value in c.schemas ==> Accepts(c.schemas[s.ref.value], c, keys)
    else
      PartsRanked(s, c);
      && KeySet(s.required) <= keys
      && (forall m :: m in ListOf(s.allOf) ==> m in Parts(s) && Accepts(m, c, keys))
      && (s.oneOf.Listed? ==> exists m :: m in s.oneOf.list && m in Parts(s) && Accepts(m, c, keys))
      && (s.anyOf.Listed? ==> exists m :: m in s.anyOf.list && m in Parts(s) && Accepts(m, c, keys))
  }

  /** A reference names a schema, not a reference. */
  predicate NamesSchema(s: Schema, c: Components) {
    s.ref.Some? && s.ref.value in c.schemas ==> c.schemas[s.ref.value].ref.None?
  }

  /** At every level at most one composition keyword stands, a union has a branch, and no reference names another. */
  ghost predicate OneComposition(s: Schema, c: Components)
    requires WellFormed(c)
    decreases Rank(s, c), s
  {
    NamesSchema(s, c) &&
    if s.ref.Some? then s.ref.value in c.schemas ==> OneComposition(c.schemas[s.ref.value], c)
    else
      PartsRanked(s, c);
      && (s.allOf.Listed? ==> s.oneOf.Absent? && s.anyOf.Absent?)
      && (s.oneOf.Listed? ==> s.anyOf.Absent? && s.oneOf.list != [])
      && (s.anyOf.Listed? ==> s.anyOf.list != [])
      && forall m :: m in Parts(s) ==> OneComposition(m, c)
  }

  /** The `$ref` and `allOf` fragment. */
  ghost predicate NoUnion(s: Schema, c: Components)
    requires WellFormed(c)
    decreases Rank(s, c), s
  {
    NamesSchema(s, c) &&
    if s.ref.Some? then s.ref.value in c.schemas ==> NoUnion(c.schemas[s.ref.value], c)
    else
      PartsRanked(s, c);
      s.oneOf.Absent? && s.anyOf.Absent? && forall m :: m in Parts(s) ==> NoUnion(m, c)
  }

  /** The required keys are exactly those that satisfy every branch. */
  lemma {:induction false} RequiredMeetsEvery(s: Schema, c: Components, keys: set<string>)
    requires WellFormed(c) && OneComposition(s, c)
    ensures MeetsEvery(s, c, keys) <==> Required(s, c) <= keys
    decreases Rank(s, c), s
  {
    if s.ref.Some? {
      if s.ref.value in c.schemas { RequiredMeetsEvery(c.schemas[s.ref.value], c, keys); }
    } else {
      PartsRanked(s, c);
      forall m | m in Parts(s) ensures m in Composed(s) && (MeetsEvery(m, c, keys) <==> Required(m, c) <= keys) {
        RequiredMeetsEvery(m, c, keys);
      }
      RequiredByWithin(s, |Composed(s)|, c, keys);
      assert forall m :: m in Parts(s) <==> m in Composed(s);
    }
  }

  /** Satisfying every branch is being accepted, whichever branch is taken. */
  lemma {:induction false} MeetingEveryAccepted(s: Schema, c: Components, keys: set<string>)
    requires WellFormed(c) && OneComposition(s, c) && MeetsEvery(s, c, keys)
    ensures Accepts(s, c, keys)
    decreases Rank(s, c), s
  {
    if s.ref.Some? {
      if s.ref.value in c.schemas { MeetingEveryAccepted(c.schemas[s.ref.value], c, keys); }
    } else {
      PartsRanked(s, c);
      forall m | m in Parts(s) ensures Accepts(m, c, keys) { MeetingEveryAccepted(m, c, keys); }
      assert s.oneOf.Listed? ==> s.oneOf.list[0] in Parts(s);
      assert s.anyOf.Listed? ==> s.anyOf.list[0] in Parts(s);
    }
  }

  lemma {:induction false} WithoutUnions(s: Schema, c: Components, keys: set<string>)
    requires WellFormed(c) && NoUnion(s, c)
    ensures OneComposition(s, c)
    ensures Accepts(s, c, keys) ==> MeetsEvery(s, c, keys)
    decreases Rank(s, c), s
  {
    if s.ref.Some? {
      if s.ref.value in c.schemas { WithoutUnions(c.schemas[s.ref.value], c, keys); }
    } else {
      PartsRanked(s, c);
      forall m | m in Parts(s)
        ensures OneComposition(m, c) && (Accepts(m, c, keys) ==> MeetsEvery(m, c, keys))
      {
        WithoutUnions(m, c, keys);
      }
    }
  }

  /** On the `$ref` and `allOf` fragment, the required keys are what an accepted object must have. */
  lemma RequiredIsExact(s: Schema, c: Components, keys: set<string>)
    requires WellFormed(c) && NoUnion(s, c)
    ensures Accepts(s, c, keys) <==> Required(s, c) <= keys
  {
    WithoutUnions(s, c, keys);
    RequiredMeetsEvery(s, c, keys);
    if MeetsEvery(s, c, keys) { MeetingEveryAccepted(s, c, keys); }
  }

  /** Some member or branch of the schema, at any depth, declares the field. */
  ghost predicate SomeBranchDeclares(s: Schema, c: Components, f: string)
    requires WellFormed(c)
    decreases Rank(s, c), s
  {
    if s.ref.Some? then s.ref.value in c.schemas && SomeBranchDeclares(c.schemas[s.ref.value], c, f)
    else
      PartsRanked(s, c);
      f in s.properties || exists m :: m in Parts(s) && SomeBranchDeclares(m, c, f)
  }

  lemma {:induction false} MergedHas(t: Schema, n: nat, c: Components, f: string)
    requires WellFormed(c) && n <= |Composed(t)|
    ensures f in Merged(t, n, c) <==> exists j :: 0 <= j < n && f in Properties(Composed(t)[j], c)
    decreases n
  {
    if n > 0 { MergedHas(t, n - 1, c, f); }
  }

  /** The fields read are exactly those some branch declares, so a field dropped from every branch is missed by none. */
  lemma {:induction false} PropertiesAreDeclared(s: Schema, c: Components, f: string)
    requires WellFormed(c) && OneComposition(s, c)
    ensures f in Properties(s, c) <==> SomeBranchDeclares(s, c, f)
    decreases Rank(s, c), s
  {
    if s.ref.Some? {
      if s.ref.value in c.schemas { PropertiesAreDeclared(c.schemas[s.ref.value], c, f); }
    } else {
      PartsRanked(s, c);
      MergedHas(s, |Composed(s)|, c, f);
      forall m | m in Parts(s) ensures m in Composed(s) && (f in Properties(m, c) <==> SomeBranchDeclares(m, c, f)) {
        PropertiesAreDeclared(m, c, f);
      }
      if exists m :: m in Parts(s) && SomeBranchDeclares(m, c, f) {
        var m :| m in Parts(s) && SomeBranchDeclares(m, c, f);
        var j: nat :| j < |Composed(s)| && Composed(s)[j] == m;
        assert f in Merged(s, |Composed(s)|, c);
      } else {
        assert forall j :: 0 <= j < |Composed(s)| ==> Composed(s)[j] in Parts(s);
        assert f !in Merged(s, |Composed(s)|, c);
      }
    }
  }

  // ---------- the keys every accepted object has ----------

  /** Every accepted object has the key: some `required` list, `allOf` member or all branches of a union ask for it. */
  ghost predicate Guaranteed(s: Schema, c: Components, k: string)
    requires WellFormed(c)
    decreases Rank(s, c), s
  {
    if s.ref.Some? then s.ref.value in c.schemas && Guaranteed(c.schemas[s.ref.value], c, k)
    else
      PartsRanked(s, c);
      || k in s.required
      || (exists m :: m in ListOf(s.allOf) && m in Parts(s) && Guaranteed(m, c, k))
      || (s.oneOf.Listed? && forall m :: m in s.oneOf.list ==> m in Parts(s) && Guaranteed(m, c, k))
      || (s.anyOf.Listed? && forall m :: m in s.anyOf.list ==> m in Parts(s) && Guaranteed(m, c, k))
  }

  /** All keys any part of the schema asks for. */
  ghost function Everything(s: Schema, c: Components): set<string>
    requires WellFormed(c)
    decreases Rank(s, c), s
  {
    if s.ref.Some? then if s.ref.value in c.schemas then Everything(c.schemas[s.ref.value], c) else {}
    else
      PartsRanked(s, c);
      KeySet(s.required) + set m, k | m in Parts(s) && k in Everything(m, c) :: k
  }

  lemma {:induction false} GuaranteedIsHad(s: Schema, c: Components, k: string, keys: set<string>)
    requires WellFormed(c) && Guaranteed(s, c, k) && Accepts(s, c, keys)
    ensures k in keys
    decreases Rank(s, c), s
  {
    if s.ref.Some? {
      GuaranteedIsHad(c.schemas[s.ref.value], c, k, keys);
    } else if k in s.required {
      assert k in KeySet(s.required);
    } else {
      PartsRanked(s, c);
      var m :| m in Parts(s) && Guaranteed(m, c, k) && Accepts(m, c, keys);
      GuaranteedIsHad(m, c, k, keys);
    }
  }

  lemma {:induction false} AcceptedWithout(s: Schema, c: Components, k: string, keys: set<string>)
    requires WellFormed(c) && !Guaranteed(s, c, k) && Everything(s, c) - {k} <= keys
    ensures Accepts(s, c, keys)
    decreases Rank(s, c), s
  {
    if s.ref.Some? {
      if s.ref.value in c.schemas { AcceptedWithout(c.schemas[s.ref.value], c, k, keys); }
    } else {
      PartsRanked(s, c);
      forall m | m in Parts(s) && !Guaranteed(m, c, k) ensures Accepts(m, c, keys) {
        AcceptedWithout(m, c, k, keys);
      }
    }
  }

  /** A key is in every accepted object exactly when it is guaranteed, through unions and references of references. */
  lemma GuaranteedExactly(s: Schema, c: Components, k: string)
    requires WellFormed(c)
    ensures Guaranteed(s, c, k) <==> forall keys :: Accepts(s, c, keys) ==> k in keys
  {
    if Guaranteed(s, c, k) {
      forall keys | Accepts(s, c, keys) ensures k in keys { GuaranteedIsHad(s, c, k, keys); }
    } else {
      AcceptedWithout(s, c, k, Everything(s, c) - {k});
    }
  }

  lemma {:induction false} AcceptsMore(s: Schema, c: Components, keys: set<string>, more: set<string>)
    requires WellFormed(c) && Accepts(s, c, keys) && keys <= more
    ensures Accepts(s, c, more)
    decreases Rank(s, c), s
  {
    if s.ref.Some? {
      if s.ref.value in c.schemas { AcceptsMore(c.schemas[s.ref.value], c, keys, more); }
    } else {
      PartsRanked(s, c);
      forall m | m in Parts(s) && Accepts(m, c, keys) ensures Accepts(m, c, more) { AcceptsMore(m, c, keys, more); }
    }
  }

  /** The required keys read are enough for an object exactly when the object of just these keys is accepted. */
  lemma RequiredSufficesExactly(s: Schema, c: Components)
    requires WellFormed(c)
    ensures (forall keys :: Required(s, c) <= keys ==> Accepts(s, c, keys)) <==> Accepts(s, c, Required(s, c))
  {
    if Accepts(s, c, Required(s, c)) {
      forall keys | Required(s, c) <= keys ensures Accepts(s, c, keys) { AcceptsMore(s, c, Required(s, c), keys); }
    }
  }

  /** They are what every accepted object has exactly when each is guaranteed. */
  lemma RequiredIsNeededExactly(s: Schema, c: Components)
    requires WellFormed(c)
    ensures (forall keys :: Accepts(s, c, keys) ==> Required(s, c) <= keys) <==>
      forall k :: k in Required(s, c) ==> Guaranteed(s, c, k)
  {
    if forall k :: k in Required(s, c) ==> Guaranteed(s, c, k) {
      forall keys, k | Accepts(s, c, keys) && k in Required(s, c) ensures k in keys { GuaranteedIsHad(s, c, k, keys); }
    }
    if forall keys :: Accepts(s, c, keys) ==> Required(s, c) <= keys {
      forall k | k in Required(s, c) ensures Guaranteed(s, c, k) { GuaranteedExactly(s, c, k); }
    }
  }

  const PLAIN: Schema := Schema(None, NoType, Absent, Absent, Absent, map[], [], None)

  /**
    Outside that fragment the union of the branches is no longer what acceptance means: a body that
    only one branch requires is demanded of all. So requiring it of everyone goes unnoticed, though
    an object the other branch accepted is refused from then on.
   */
  lemma UnionHidesNarrowing(c: Components)
    requires WellFormed(c)
    ensures var before := PLAIN.(anyOf := Listed([PLAIN.(required := ["id"]), PLAIN]));
            var after := PLAIN.(required := ["id"]);
            && Required(after, c) <= Required(before, c)
            && Accepts(before, c, {}) && !Accepts(after, c, {})
  {
    var narrow := PLAIN.(required := ["id"]);
    var before := PLAIN.(anyOf := Listed([narrow, PLAIN]));
    assert narrow.required[0] == "id";
    assert "id" in KeySet(narrow.required);
    assert Composed(before) == [narrow, PLAIN];
    RequiredByWithin(before, 2, c, Required(before, c));
    assert Required(Composed(before)[0], c) <= Required(before, c);
    assert PLAIN in before.anyOf.list && PLAIN in Parts(before);
    assert Composed(narrow) == [] && Required(narrow, c) == KeySet(["id"]);
    assert KeySet(PLAIN.required) == {} && Accepts(PLAIN, c, {});
  }

  /** A reference to a reference is resolved once, and then its own `required` list is all that is read. */
  lemma ReferenceToReferenceHidesKeys()
    ensures var c := Components(map["A" := PLAIN.(ref := Some("B")), "B" := PLAIN.(required := ["id"])],
                                map["A" := 1, "B" := 0]);
            var s := PLAIN.(ref := Some("A"));
            WellFormed(c) && Required(s, c) == {} && !Accepts(s, c, {})
  {
    var a, b := PLAIN.(ref := Some("B")), PLAIN.(required := ["id"]);
    var c := Components(map["A" := a, "B" := b], map["A" := 1, "B" := 0]);
    assert Rank(a, c) == 1 && Rank(b, c) == 0 && PartsRank(a, c) == 0;
    assert WellFormed(c);
    assert Composed(a) == [] && KeySet(a.required) == {};
    assert b.required[0] == "id" && "id" in KeySet(b.required);
    assert !Accepts(b, c, {});
    assert !Accepts(a, c, {});
  }

  /** Where a union stands beside `allOf`, what its branches require is not read. */
  lemma AllOfHidesUnion(c: Components)
    requires WellFormed(c)
    ensures var s := PLAIN.(allOf := Listed([]), oneOf := Listed([PLAIN.(required := ["id"])]));
            Required(s, c) == {} && !Accepts(s, c, {})
  {
    var branch := PLAIN.(required := ["id"]);
    var s := PLAIN.(allOf := Listed([]), oneOf := Listed([branch]));
    assert Composed(s) == [];
    assert branch.required[0] == "id";
    forall m | m in s.oneOf.list && m in Parts(s) ensures !Accepts(m, c, {}) {
      assert m == branch && "id" in KeySet(m.required);
    }
  }

  // ---------- types and enums ----------

  const UNKNOWN := "unknown"

  function NonNull(names: seq<string>): seq<string> {
    if names == [] then []
    else (if names[0] == "null" then [] else [names[0]]) + NonNull(names[1..])
  }

  function Join(names: seq<string>): string {
    if names == [] then "" else if |names| == 1 then names[0] else names[0] + "|" + Join(names[1..])
  }

  /** The single type names of a union's branches. */
  function BranchTypes(ms: seq<Schema>): seq<string> {
    if ms == [] then []
    else
      var name := if ms[0].types.OneType? then ms[0].types.name else "";
      (if name == "" || name == "null" then [] else [name]) + BranchTypes(ms[1..])
  }

  function TypeOf(s: Schema, c: Components): string {
    match Deref(s, c)
    case None => UNKNOWN
    case Some(t) =>
      match t.types
      case OneType(name) => name
      case TypeList(names) => Join(Sort(Less, NonNull(names)))
      case NoType =>
        if t.anyOf.Listed? then
          var joined := Join(Sort(Less, BranchTypes(t.anyOf.list)));
          if joined == "" then UNKNOWN else joined
        else if t.oneOf.Listed? then "oneOf"
        else if t.allOf.Listed? then "allOf"
        else UNKNOWN
  }

  function EnumOf(s: Schema, c: Components): Option<set<string>> {
    match Deref(s, c)
    case None => None
    case Some(t) => if t.enum.Some? then Some(KeySet(t.enum.value)) else None
  }

  /** Neither the order of a type list nor `null` in it is a change of type. */
  lemma TypeIgnoresOrderAndNull(s: Schema, names: seq<string>, c: Components)
    requires s.ref.None? && s.types.TypeList?
    requires multiset(NonNull(names)) == multiset(NonNull(s.types.names))
    ensures TypeOf(s.(types := TypeList(names)), c) == TypeOf(s, c)
  {
    LessIsOrder();
    var a, b := NonNull(names), NonNull(s.types.names);
    SortSorts(Less, a);
    SortSorts(Less, b);
    SortedUnique(Less, Sort(Less, a), Sort(Less, b));
  }
}
