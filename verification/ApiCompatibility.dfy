/** The gate of scripts/detect-breaking-changes.ts. */
module ApiCompatibility {
  import opened Orders
  import opened ApiSchemas

  /** The JSON body of a request, and of each response by status, where there is one. */
  datatype Operation = Operation(request: Option<Schema>, responses: map<string, Option<Schema>>)

  /** Operations by path and verb. */
  datatype Api = Api(paths: map<string, map<string, Operation>>, components: Components)

  datatype Endpoint = Endpoint(path: string, verb: string)

  datatype Place = InRequest | InResponse(status: string)

  datatype Change =
    | EndpointRemoved(at: Endpoint)
    | EndpointAdded(at: Endpoint)
    | RequiredAdded(at: Endpoint, field: string, existed: bool)
    | TypeChanged(at: Endpoint, place: Place, field: string, from: string, into: string)
    | EnumRemoved(at: Endpoint, place: Place, field: string, values: set<string>)
    | EnumAdded(at: Endpoint, place: Place, field: string, values: set<string>)
    | FieldRemoved(at: Endpoint, status: string, field: string)
    | FieldAdded(at: Endpoint, place: Place, field: string)
    | StatusRemoved(at: Endpoint, status: string)
    | StatusAdded(at: Endpoint, status: string)

  predicate Breaking(ch: Change) {
    || ch.EndpointRemoved? || ch.RequiredAdded? || ch.TypeChanged? || ch.EnumRemoved?
    || ch.FieldRemoved? || ch.StatusRemoved?
  }

  // ---------- what is compared ----------

  /** A body: the schema it stands for, with the components its references name. */
  datatype Body = Body(schema: Schema, components: Components)

  type GoodApi = a: Api | WellFormed(a.components) witness Api(map[], Components(map[], map[]))
  type GoodBody = b: Body | WellFormed(b.components) witness Body(PLAIN, Components(map[], map[]))

  predicate Has(a: Api, e: Endpoint) {
    e.path in a.paths && e.verb in a.paths[e.path]
  }

  function OperationAt(a: Api, e: Endpoint): Operation
    requires Has(a, e)
  {
    a.paths[e.path][e.verb]
  }

  function BodyOf(s: Option<Schema>, a: GoodApi): Option<GoodBody> {
    if s.None? || Deref(s.value, a.components).None? then None
    else Some(Body(Deref(s.value, a.components).value, a.components))
  }

  function Fields(b: GoodBody): map<string, Schema> { Properties(b.schema, b.components) }

  function Keys(b: GoodBody): set<string> { Required(b.schema, b.components) }

  // ---------- the changes of one body ----------

  /** A field in both bodies, whose type or enum is not what it was. */
  predicate FieldChanged(at: Endpoint, place: Place, b: GoodBody, c: GoodBody, ch: Change) {
    match ch
    case TypeChanged(a, p, f, from, into) =>
      && a == at && p == place && f in Fields(b) && f in Fields(c)
      && from == TypeOf(Fields(b)[f], b.components) && into == TypeOf(Fields(c)[f], c.components)
      && from != into && from != UNKNOWN && into != UNKNOWN
    case EnumRemoved(a, p, f, values) =>
      && a == at && p == place && f in Fields(b) && f in Fields(c)
      && var was, now := EnumOf(Fields(b)[f], b.components), EnumOf(Fields(c)[f], c.components);
         was.Some? && now.Some? && values == was.value - now.value && values != {}
    case EnumAdded(a, p, f, values) =>
      && a == at && p == place == InRequest && f in Fields(b) && f in Fields(c)
      && var was, now := EnumOf(Fields(b)[f], b.components), EnumOf(Fields(c)[f], c.components);
         was.Some? && now.Some? && values == now.value - was.value && values != {}
    case _ => false
  }

  predicate RequestChanged(at: Endpoint, b: GoodBody, c: GoodBody, ch: Change) {
    || FieldChanged(at, InRequest, b, c, ch)
    || match ch
       case RequiredAdded(a, f, existed) => a == at && f in Keys(c) - Keys(b) && existed == (f in Fields(b))
       case FieldAdded(a, p, f) => a == at && p == InRequest && f in Fields(c) && f !in Fields(b) && f !in Keys(c)
       case _ => false
  }

  predicate ResponseChanged(at: Endpoint, status: string, b: GoodBody, c: GoodBody, ch: Change) {
    || FieldChanged(at, InResponse(status), b, c, ch)
    || match ch
       case FieldRemoved(a, s, f) => a == at && s == status && f in Fields(b) && f !in Fields(c)
       case FieldAdded(a, p, f) => a == at && p == InResponse(status) && f in Fields(c) && f !in Fields(b)
       case _ => false
  }

  function StatusOf(ch: Change): Option<string> {
    match ch
    case TypeChanged(_, InResponse(s), _, _, _) => Some(s)
    case EnumRemoved(_, InResponse(s), _, _) => Some(s)
    case FieldRemoved(_, s, _) => Some(s)
    case FieldAdded(_, InResponse(s), _) => Some(s)
    case _ => None
  }

  predicate OperationChanged(at: Endpoint, b: Operation, base: GoodApi, c: Operation, curr: GoodApi, ch: Change) {
    || RequestsDiffer(at, BodyOf(b.request, base), BodyOf(c.request, curr), ch)
    || ResponsesDiffer(at, b, base, c, curr, ch)
    || match ch
       case StatusRemoved(a, s) => a == at && s in b.responses && s !in c.responses
       case StatusAdded(a, s) => a == at && s in c.responses && s !in b.responses
       case _ => false
  }

  predicate RequestsDiffer(at: Endpoint, b: Option<GoodBody>, c: Option<GoodBody>, ch: Change) {
    b.Some? && c.Some? && RequestChanged(at, b.value, c.value, ch)
  }

  predicate ResponsesDiffer(at: Endpoint, b: Operation, base: GoodApi, c: Operation, curr: GoodApi, ch: Change) {
    StatusOf(ch).Some? &&
    var s := StatusOf(ch).value;
    s in b.responses && s in c.responses
    && var was, now := BodyOf(b.responses[s], base), BodyOf(c.responses[s], curr);
       was.Some? && now.Some? && ResponseChanged(at, s, was.value, now.value, ch)
  }

  /** Everything the comparison of a baseline with the current description reports. */
  predicate Reports(base: GoodApi, curr: GoodApi, verbs: seq<string>, ch: Change) {
    var e := ch.at;
    e.verb in verbs &&
    if Has(base, e) && Has(curr, e)
    then OperationChanged(e, OperationAt(base, e), base, OperationAt(curr, e), curr, ch)
    else (ch.EndpointRemoved? && Has(base, e)) || (ch.EndpointAdded? && Has(curr, e))
  }

  // ---------- the loops of the source ----------

  method CompareRequired(at: Endpoint, b: GoodBody, c: GoodBody) returns (changes: set<Change>)
    ensures forall ch :: ch in changes <==> ch.RequiredAdded? && RequestChanged(at, b, c, ch)
  {
    var was := GetRequired(b.schema, b.components);
    var now := GetRequired(c.schema, c.components);
    var fields := GetProperties(b.schema, b.components);
    changes := {};
    var rest := now;
    while rest != {}
      invariant rest <= now
      invariant forall ch :: ch in changes <==>
        ch.RequiredAdded? && ch.at == at && ch.field in now - rest - was && ch.existed == (ch.field in fields)
      decreases |rest|
    {
      var f :| f in rest;
      rest := rest - {f};
      if f !in was { changes := changes + {RequiredAdded(at, f, f in fields)}; }
    }
  }

  method CompareField(at: Endpoint, place: Place, b: GoodBody, c: GoodBody, f: string) returns (changes: set<Change>)
    requires f in Fields(b) && f in Fields(c)
    ensures forall ch :: ch in changes <==> FieldOf(ch) == Some(f) && FieldChanged(at, place, b, c, ch)
  {
    changes := {};
    var was, now := TypeOf(Fields(b)[f], b.components), TypeOf(Fields(c)[f], c.components);
    if was != now && was != UNKNOWN && now != UNKNOWN {
      changes := changes + {TypeChanged(at, place, f, was, now)};
    }
    var had, has := EnumOf(Fields(b)[f], b.components), EnumOf(Fields(c)[f], c.components);
    if had.Some? && has.Some? {
      var removed := had.value - has.value;
      if removed != {} { changes := changes + {EnumRemoved(at, place, f, removed)}; }
      var added := has.value - had.value;
      if place.InRequest? && added != {} { changes := changes + {EnumAdded(at, place, f, added)}; }
    }
  }

  function FieldOf(ch: Change): Option<string> {
    match ch
    case TypeChanged(_, _, f, _, _) => Some(f)
    case EnumRemoved(_, _, f, _) => Some(f)
    case EnumAdded(_, _, f, _) => Some(f)
    case FieldRemoved(_, _, f) => Some(f)
    case FieldAdded(_, _, f) => Some(f)
    case _ => None
  }

  method CompareFields(at: Endpoint, place: Place, b: GoodBody, c: GoodBody) returns (changes: set<Change>)
    ensures forall ch :: ch in changes <==> FieldChanged(at, place, b, c, ch)
  {
    changes := {};
    var rest := Fields(b).Keys;
    while rest != {}
      invariant rest <= Fields(b).Keys
      invariant forall ch :: ch in changes <==> FieldChanged(at, place, b, c, ch) && ch.field !in rest
      decreases |rest|
    {
      var f :| f in rest;
      rest := rest - {f};
      if f !in Fields(c) { continue; }
      var more := CompareField(at, place, b, c, f);
      changes := changes + more;
    }
  }

  method CollectAdded(at: Endpoint, place: Place, names: set<string>) returns (changes: set<Change>)
    ensures forall ch :: ch in changes <==> ch.FieldAdded? && ch.at == at && ch.place == place && ch.field in names
  {
    changes := {};
    var rest := names;
    while rest != {}
      invariant rest <= names
      invariant forall ch :: ch in changes <==>
        ch.FieldAdded? && ch.at == at && ch.place == place && ch.field in names - rest
      decreases |rest|
    {
      var f :| f in rest;
      rest := rest - {f};
      changes := changes + {FieldAdded(at, place, f)};
    }
  }

  method CollectRemoved(at: Endpoint, status: string, names: set<string>) returns (changes: set<Change>)
    ensures forall ch :: ch in changes <==> ch.FieldRemoved? && ch.at == at && ch.status == status && ch.field in names
  {
    changes := {};
    var rest := names;
    while rest != {}
      invariant rest <= names
      invariant forall ch :: ch in changes <==>
        ch.FieldRemoved? && ch.at == at && ch.status == status && ch.field in names - rest
      decreases |rest|
    {
      var f :| f in rest;
      rest := rest - {f};
      changes := changes + {FieldRemoved(at, status, f)};
    }
  }

  method CompareRequest(at: Endpoint, b: GoodBody, c: GoodBody) returns (changes: set<Change>)
    ensures forall ch :: ch in changes <==> RequestChanged(at, b, c, ch)
  {
    var required := CompareRequired(at, b, c);
    var fields := CompareFields(at, InRequest, b, c);
    var added := CollectAdded(at, InRequest, Fields(c).Keys - Fields(b).Keys - Keys(c));
    changes := required + fields + added;
  }

  method CompareResponse(at: Endpoint, status: string, b: GoodBody, c: GoodBody) returns (changes: set<Change>)
    ensures forall ch :: ch in changes <==> ResponseChanged(at, status, b, c, ch)
  {
    var removed := CollectRemoved(at, status, Fields(b).Keys - Fields(c).Keys);
    var fields := CompareFields(at, InResponse(status), b, c);
    var added := CollectAdded(at, InResponse(status), Fields(c).Keys - Fields(b).Keys);
    changes := removed + fields + added;
  }

  method CompareStatuses(at: Endpoint, b: Operation, base: GoodApi, c: Operation, curr: GoodApi)
    returns (changes: set<Change>)
    ensures forall ch :: ch in changes <==>
      ResponsesDiffer(at, b, base, c, curr, ch)
      || (ch.StatusRemoved? && ch.at == at && ch.status in b.responses && ch.status !in c.responses)
  {
    changes := {};
    var rest := b.responses.Keys;
    while rest != {}
      invariant rest <= b.responses.Keys
      invariant forall ch :: ch in changes <==>
        (ResponsesDiffer(at, b, base, c, curr, ch) && StatusOf(ch).value !in rest)
        || (ch.StatusRemoved? && ch.at == at && ch.status in b.responses.Keys - rest && ch.status !in c.responses)
      decreases |rest|
    {
      var s :| s in rest;
      rest := rest - {s};
      if s !in c.responses {
        changes := changes + {StatusRemoved(at, s)};
        continue;
      }
      var was, now := BodyOf(b.responses[s], base), BodyOf(c.responses[s], curr);
      if was.None? || now.None? { continue; }
      var more := CompareResponse(at, s, was.value, now.value);
      changes := changes + more;
    }
  }

  method CompareOperation(at: Endpoint, b: Operation, base: GoodApi, c: Operation, curr: GoodApi)
    returns (changes: set<Change>)
    ensures forall ch :: ch in changes <==> OperationChanged(at, b, base, c, curr, ch)
  {
    changes := {};
    var was, now := BodyOf(b.request, base), BodyOf(c.request, curr);
    if was.Some? && now.Some? { changes := CompareRequest(at, was.value, now.value); }
    var statuses := CompareStatuses(at, b, base, c, curr);
    var added := set s | s in c.responses && s !in b.responses :: StatusAdded(at, s);
    changes := changes + statuses + added;
  }

  /** Endpoint by endpoint: a baseline endpoint is compared or removed, and a new one added. */
  method CompareSpecs(base: GoodApi, curr: GoodApi, verbs: seq<string>) returns (changes: set<Change>)
    ensures forall ch :: ch in changes <==> Reports(base, curr, verbs, ch)
  {
    changes := {};
    var endpoints := Endpoints(base, verbs);
    var rest := endpoints;
    while rest != {}
      invariant rest <= endpoints
      invariant forall ch :: ch in changes <==> Reports(base, curr, verbs, ch) && ch.at in endpoints - rest
      decreases |rest|
    {
      var e :| e in rest;
      rest := rest - {e};
      if !Has(curr, e) {
        changes := changes + {EndpointRemoved(e)};
        continue;
      }
      var more := CompareOperation(e, OperationAt(base, e), base, OperationAt(curr, e), curr);
      OperationChangesAreHere(e, OperationAt(base, e), base, OperationAt(curr, e), curr);
      changes := changes + more;
    }
    var added := set e | e in Endpoints(curr, verbs) && !Has(base, e) :: EndpointAdded(e);
    changes := changes + added;
  }

  function Endpoints(a: Api, verbs: seq<string>): (r: set<Endpoint>)
    ensures forall e :: e in r <==> Has(a, e) && e.verb in verbs
  {
    set p, v | p in a.paths && v in a.paths[p] && v in verbs :: Endpoint(p, v)
  }

  lemma OperationChangesAreHere(at: Endpoint, b: Operation, base: GoodApi, c: Operation, curr: GoodApi)
    ensures forall ch :: OperationChanged(at, b, base, c, curr, ch) ==> ch.at == at
  {
  }

  // ---------- what the comparison means ----------

  /** A description compared with itself reports nothing. */
  lemma SelfCompareIsSilent(a: GoodApi, verbs: seq<string>, ch: Change)
    ensures !Reports(a, a, verbs, ch)
  {
    if Has(a, ch.at) {
      var op := OperationAt(a, ch.at);
      var body := BodyOf(op.request, a);
      if body.Some? { SelfBody(ch.at, body.value, ch); }
      if StatusOf(ch).Some? && StatusOf(ch).value in op.responses {
        var response := BodyOf(op.responses[StatusOf(ch).value], a);
        if response.Some? { SelfBody(ch.at, response.value, ch); }
      }
    }
  }

  lemma SelfBody(at: Endpoint, b: GoodBody, ch: Change)
    ensures !RequestChanged(at, b, b, ch)
    ensures forall s :: !ResponseChanged(at, s, b, b, ch)
  {
    assert forall vs: set<string> :: vs - vs == {};
  }

  /** The change seen from the other side. */
  function Mirror(ch: Change): Option<Change> {
    match ch
    case EndpointRemoved(e) => Some(EndpointAdded(e))
    case EndpointAdded(e) => Some(EndpointRemoved(e))
    case StatusRemoved(e, s) => Some(StatusAdded(e, s))
    case StatusAdded(e, s) => Some(StatusRemoved(e, s))
    case FieldRemoved(e, s, f) => Some(FieldAdded(e, InResponse(s), f))
    case FieldAdded(e, InResponse(s), f) => Some(FieldRemoved(e, s, f))
    case TypeChanged(e, p, f, from, into) => Some(TypeChanged(e, p, f, into, from))
    case EnumRemoved(e, InRequest, f, values) => Some(EnumAdded(e, InRequest, f, values))
    case EnumAdded(e, InRequest, f, values) => Some(EnumRemoved(e, InRequest, f, values))
    case _ => None
  }

  /** Removals one way are additions the other way, one for one, and a change of type is seen from both sides. */
  lemma SwapMirrors(a: GoodApi, b: GoodApi, verbs: seq<string>, ch: Change)
    requires Mirror(ch).Some?
    ensures Mirror(Mirror(ch).value) == Some(ch)
    ensures Reports(a, b, verbs, ch) <==> Reports(b, a, verbs, Mirror(ch).value)
  {
    var other := Mirror(ch).value;
    assert StatusOf(ch) == StatusOf(other);
    if Has(a, ch.at) && Has(b, ch.at) {
      var x, y := OperationAt(a, ch.at), OperationAt(b, ch.at);
      var p, q := BodyOf(x.request, a), BodyOf(y.request, b);
      if p.Some? && q.Some? { MirrorBody(ch.at, p.value, q.value, ch); }
      if StatusOf(ch).Some? && StatusOf(ch).value in x.responses && StatusOf(ch).value in y.responses {
        var s := StatusOf(ch).value;
        var v, w := BodyOf(x.responses[s], a), BodyOf(y.responses[s], b);
        if v.Some? && w.Some? { MirrorBody(ch.at, v.value, w.value, ch); }
      }
    }
  }

  lemma MirrorBody(at: Endpoint, b: GoodBody, c: GoodBody, ch: Change)
    requires Mirror(ch).Some?
    ensures RequestChanged(at, b, c, ch) <==> RequestChanged(at, c, b, Mirror(ch).value)
    ensures forall s :: ResponseChanged(at, s, b, c, ch) <==> ResponseChanged(at, s, c, b, Mirror(ch).value)
  {
  }

  ghost predicate RequiresMore(at: Endpoint, b: GoodBody, c: GoodBody) {
    exists ch: Change :: ch.RequiredAdded? && RequestChanged(at, b, c, ch)
  }

  lemma RequiresMoreIs(at: Endpoint, b: GoodBody, c: GoodBody)
    ensures RequiresMore(at, b, c) <==> !(Keys(c) <= Keys(b))
  {
    if !(Keys(c) <= Keys(b)) {
      var f :| f in Keys(c) && f !in Keys(b);
      assert RequestChanged(at, b, c, RequiredAdded(at, f, f in Fields(b)));
    }
  }

  ghost predicate BodyAccepts(b: GoodBody, keys: set<string>) {
    Accepts(b.schema, b.components, keys)
  }

  ghost predicate BodyMeetsEvery(b: GoodBody, keys: set<string>) {
    MeetsEvery(b.schema, b.components, keys)
  }

  /**
    On the `$ref` and `allOf` fragment the comparison of required keys is exact: it reports one
    exactly when some object the baseline accepts is refused now.
   */
  lemma RequiredChangesExact(at: Endpoint, b: GoodBody, c: GoodBody)
    requires NoUnion(b.schema, b.components) && NoUnion(c.schema, c.components)
    ensures RequiresMore(at, b, c) <==> exists keys :: BodyAccepts(b, keys) && !BodyAccepts(c, keys)
  {
    RequiresMoreIs(at, b, c);
    forall keys ensures (BodyAccepts(b, keys) <==> Keys(b) <= keys) && (BodyAccepts(c, keys) <==> Keys(c) <= keys) {
      RequiredIsExact(b.schema, b.components, keys);
      RequiredIsExact(c.schema, c.components, keys);
    }
    assert BodyAccepts(b, Keys(b));
  }

  /** Through unions it is exact for the objects that satisfy every branch. */
  lemma RequiredChangesOverUnions(at: Endpoint, b: GoodBody, c: GoodBody)
    requires OneComposition(b.schema, b.components) && OneComposition(c.schema, c.components)
    ensures RequiresMore(at, b, c) <==> exists keys :: BodyMeetsEvery(b, keys) && !BodyMeetsEvery(c, keys)
  {
    RequiresMoreIs(at, b, c);
    forall keys
      ensures (BodyMeetsEvery(b, keys) <==> Keys(b) <= keys) && (BodyMeetsEvery(c, keys) <==> Keys(c) <= keys)
    {
      RequiredMeetsEvery(b.schema, b.components, keys);
      RequiredMeetsEvery(c.schema, c.components, keys);
    }
    assert BodyMeetsEvery(b, Keys(b));
  }

  /** A response field is reported removed exactly when some branch declared it and none does now. */
  lemma RemovedFromEveryBranch(at: Endpoint, s: string, b: GoodBody, c: GoodBody, f: string)
    requires OneComposition(b.schema, b.components) && OneComposition(c.schema, c.components)
    ensures ResponseChanged(at, s, b, c, FieldRemoved(at, s, f)) <==>
      SomeBranchDeclares(b.schema, b.components, f) && !SomeBranchDeclares(c.schema, c.components, f)
  {
    PropertiesAreDeclared(b.schema, b.components, f);
    PropertiesAreDeclared(c.schema, c.components, f);
  }

  /** The gate passes: nothing it reports is breaking. */
  ghost predicate Compatible(base: GoodApi, curr: GoodApi, verbs: seq<string>) {
    forall ch :: Reports(base, curr, verbs, ch) ==> !Breaking(ch)
  }

  /** Every object the baseline accepts has all the keys read of it. */
  ghost predicate Demands(b: GoodBody) {
    forall k :: k in Keys(b) ==> Guaranteed(b.schema, b.components, k)
  }

  /** The object of just the keys read is accepted. */
  ghost predicate Suffices(c: GoodBody) {
    BodyAccepts(c, Keys(c))
  }

  /** Accepted by the one, refused by the other, and no required key reported. */
  ghost predicate Unnoticed(at: Endpoint, b: GoodBody, c: GoodBody, keys: set<string>) {
    !RequiresMore(at, b, c) && BodyAccepts(b, keys) && !BodyAccepts(c, keys)
  }

  lemma NarrowingNoticed(at: Endpoint, b: GoodBody, c: GoodBody, keys: set<string>)
    requires Demands(b) && Suffices(c)
    ensures !Unnoticed(at, b, c, keys)
  {
    RequiresMoreIs(at, b, c);
    if BodyAccepts(b, keys) && Keys(c) <= Keys(b) {
      forall k | k in Keys(b) ensures k in keys { GuaranteedIsHad(b.schema, b.components, k, keys); }
      AcceptsMore(c.schema, c.components, Keys(c), keys);
    }
  }

  lemma {:induction false} ListOfKeys(keys: set<string>) returns (list: seq<string>)
    ensures KeySet(list) == keys
  {
    if keys == {} {
      list := [];
    } else {
      var k :| k in keys;
      var rest := ListOfKeys(keys - {k});
      list := [k] + rest;
      assert forall x :: x in list <==> x == k || x in rest;
      assert forall x :: x in KeySet(rest) <==> x in rest;
    }
  }

  /** A body that is just a list of required keys. */
  lemma PlainBody(list: seq<string>) returns (p: GoodBody)
    ensures Keys(p) == KeySet(list) && NoUnion(p.schema, p.components)
    ensures forall keys :: BodyAccepts(p, keys) <==> KeySet(list) <= keys
  {
    p := Body(PLAIN.(required := list), Components(map[], map[]));
    assert Composed(p.schema) == [] && Parts(p.schema) == [];
    assert RequiredBy(p.schema, 0, p.components) == {} && {} + KeySet(list) == KeySet(list);
    forall keys ensures BodyAccepts(p, keys) <==> KeySet(list) <= keys {
      RequiredIsExact(p.schema, p.components, keys);
    }
  }

  /**
    A baseline lets no narrowing by a current version go unnoticed exactly when each key read of it is
    guaranteed. A union breaks that as soon as one branch asks for a key another does not.
   */
  lemma BaselineHidesNothingExactly(at: Endpoint, b: GoodBody)
    ensures (forall c: GoodBody, keys :: Suffices(c) ==> !Unnoticed(at, b, c, keys)) <==> Demands(b)
  {
    if Demands(b) {
      forall c: GoodBody, keys | Suffices(c) ensures !Unnoticed(at, b, c, keys) { NarrowingNoticed(at, b, c, keys); }
    } else {
      var k :| k in Keys(b) && !Guaranteed(b.schema, b.components, k);
      GuaranteedExactly(b.schema, b.components, k);
      var keys :| BodyAccepts(b, keys) && k !in keys;
      var c := PlainBody([k]);
      assert k in [k] && KeySet([k]) == {k};
      RequiresMoreIs(at, b, c);
      assert Suffices(c) && Unnoticed(at, b, c, keys);
    }
  }

  /**
    A current version hides no narrowing of a baseline exactly when it accepts the object of just the
    keys read of it. A union passes, being read as if every branch were taken; a union beside `allOf` or
    another union and a reference to a reference do not, when they ask for a key of their own.
   */
  lemma CurrentHidesNothingExactly(at: Endpoint, c: GoodBody)
    ensures (forall b: GoodBody, keys :: Demands(b) ==> !Unnoticed(at, b, c, keys)) <==> Suffices(c)
  {
    if Suffices(c) {
      forall b: GoodBody, keys | Demands(b) ensures !Unnoticed(at, b, c, keys) { NarrowingNoticed(at, b, c, keys); }
    } else {
      var list := ListOfKeys(Keys(c));
      var b := PlainBody(list);
      RequiresMoreIs(at, b, c);
      RequiredIsNeededExactly(b.schema, b.components);
      assert Demands(b) && Unnoticed(at, b, c, Keys(c));
    }
  }

  lemma WithoutUnionsDemands(b: GoodBody)
    requires NoUnion(b.schema, b.components)
    ensures Demands(b)
  {
    forall keys ensures BodyAccepts(b, keys) <==> Keys(b) <= keys { RequiredIsExact(b.schema, b.components, keys); }
    RequiredIsNeededExactly(b.schema, b.components);
  }

  lemma OneCompositionSuffices(c: GoodBody)
    requires OneComposition(c.schema, c.components)
    ensures Suffices(c)
  {
    RequiredMeetsEvery(c.schema, c.components, Keys(c));
    MeetingEveryAccepted(c.schema, c.components, Keys(c));
  }

  /**
    Past the gate, whatever keys a baseline request had, its endpoint still takes them: wherever the
    keys read of the baseline are guaranteed and those read of the current version are enough.
   */
  lemma CompatibleStillAccepts(base: GoodApi, curr: GoodApi, verbs: seq<string>, e: Endpoint, keys: set<string>)
    requires Compatible(base, curr, verbs) && Has(base, e) && e.verb in verbs
    ensures Has(curr, e)
    ensures var b, c := BodyOf(OperationAt(base, e).request, base), BodyOf(OperationAt(curr, e).request, curr);
            (b.Some? && c.Some? && Demands(b.value) && Suffices(c.value)
             && BodyAccepts(b.value, keys)) ==> BodyAccepts(c.value, keys)
  {
    if !Has(curr, e) { assert Reports(base, curr, verbs, EndpointRemoved(e)); }
    var b, c := BodyOf(OperationAt(base, e).request, base), BodyOf(OperationAt(curr, e).request, curr);
    if b.Some? && c.Some? && Demands(b.value) && Suffices(c.value) {
      if RequiresMore(e, b.value, c.value) {
        var ch: Change :| ch.RequiredAdded? && RequestChanged(e, b.value, c.value, ch);
        assert Reports(base, curr, verbs, ch);
      }
      NarrowingNoticed(e, b.value, c.value, keys);
    }
  }

  /** So it is for a baseline of references and `allOf`, and a current version with a composition to a level. */
  lemma CompatibleFragmentStillAccepts(
    base: GoodApi, curr: GoodApi, verbs: seq<string>, e: Endpoint, keys: set<string>, b: GoodBody, c: GoodBody)
    requires Compatible(base, curr, verbs) && Has(base, e) && e.verb in verbs && Has(curr, e)
    requires BodyOf(OperationAt(base, e).request, base) == Some(b) && NoUnion(b.schema, b.components)
    requires BodyOf(OperationAt(curr, e).request, curr) == Some(c) && OneComposition(c.schema, c.components)
    requires BodyAccepts(b, keys)
    ensures BodyAccepts(c, keys)
  {
    WithoutUnionsDemands(b);
    OneCompositionSuffices(c);
    CompatibleStillAccepts(base, curr, verbs, e, keys);
  }

  // ---------- a chain of versions ----------

  /** The middle body declares what is compared between the outer two. */
  predicate Declares(b: GoodBody, m: GoodBody, c: GoodBody) {
    forall f :: f in Fields(b) && f in Fields(c) ==>
      && f in Fields(m)
      && (TypeOf(Fields(b)[f], b.components) != UNKNOWN && TypeOf(Fields(c)[f], c.components) != UNKNOWN ==>
            TypeOf(Fields(m)[f], m.components) != UNKNOWN)
      && (EnumOf(Fields(b)[f], b.components).Some? && EnumOf(Fields(c)[f], c.components).Some? ==>
            EnumOf(Fields(m)[f], m.components).Some?)
  }

  predicate BodyBetween(b: Option<GoodBody>, m: Option<GoodBody>, c: Option<GoodBody>) {
    b.Some? && c.Some? ==> m.Some? && Declares(b.value, m.value, c.value)
  }

  /** The middle version declares every schema, enum and known type the outer two compare. */
  predicate Between(b: GoodApi, m: GoodApi, c: GoodApi, e: Endpoint) {
    Has(b, e) && Has(m, e) && Has(c, e) ==>
      var x, y, z := OperationAt(b, e), OperationAt(m, e), OperationAt(c, e);
      && BodyBetween(BodyOf(x.request, b), BodyOf(y.request, m), BodyOf(z.request, c))
      && forall s :: s in x.responses && s in y.responses && s in z.responses ==>
           BodyBetween(BodyOf(x.responses[s], b), BodyOf(y.responses[s], m), BodyOf(z.responses[s], c))
  }

  ghost predicate RequestSafe(at: Endpoint, b: GoodBody, c: GoodBody) {
    forall ch :: RequestChanged(at, b, c, ch) ==> !Breaking(ch)
  }

  ghost predicate ResponseSafe(at: Endpoint, s: string, b: GoodBody, c: GoodBody) {
    forall ch :: ResponseChanged(at, s, b, c, ch) ==> !Breaking(ch)
  }

  /** No type change and no enum value lost in a field both bodies have. */
  predicate FieldsKept(b: GoodBody, c: GoodBody) {
    forall f :: f in Fields(b) && f in Fields(c) ==>
      var was, now := TypeOf(Fields(b)[f], b.components), TypeOf(Fields(c)[f], c.components);
      var had, has := EnumOf(Fields(b)[f], b.components), EnumOf(Fields(c)[f], c.components);
      (was == now || was == UNKNOWN || now == UNKNOWN) && (had.Some? && has.Some? ==> had.value <= has.value)
  }

  lemma EmptyDifference(a: set<string>, b: set<string>)
    ensures a - b == {} <==> a <= b
  {
    if a - b == {} {
      forall x | x in a ensures x in b {
        assert x !in a - b;
      }
    }
  }

  lemma FieldsKeptIs(at: Endpoint, p: Place, b: GoodBody, c: GoodBody)
    ensures FieldsKept(b, c) <==> forall ch :: FieldChanged(at, p, b, c, ch) ==> !Breaking(ch)
  {
    forall f | f in Fields(b) && f in Fields(c)
      ensures var was, now := TypeOf(Fields(b)[f], b.components), TypeOf(Fields(c)[f], c.components);
              FieldChanged(at, p, b, c, TypeChanged(at, p, f, was, now)) <==>
                was != now && was != UNKNOWN && now != UNKNOWN
      ensures var had, has := EnumOf(Fields(b)[f], b.components), EnumOf(Fields(c)[f], c.components);
              had.Some? && has.Some? ==>
                (FieldChanged(at, p, b, c, EnumRemoved(at, p, f, had.value - has.value)) <==> !(had.value <= has.value))
    {
      var had, has := EnumOf(Fields(b)[f], b.components), EnumOf(Fields(c)[f], c.components);
      if had.Some? && has.Some? { EmptyDifference(had.value, has.value); }
    }
  }

  lemma RequestSafeIs(at: Endpoint, b: GoodBody, c: GoodBody)
    ensures RequestSafe(at, b, c) <==> FieldsKept(b, c) && Keys(c) <= Keys(b)
  {
    FieldsKeptIs(at, InRequest, b, c);
    RequiresMoreIs(at, b, c);
  }

  lemma ResponseSafeIs(at: Endpoint, s: string, b: GoodBody, c: GoodBody)
    ensures ResponseSafe(at, s, b, c) <==> FieldsKept(b, c) && Fields(b).Keys <= Fields(c).Keys
  {
    FieldsKeptIs(at, InResponse(s), b, c);
    forall f | f in Fields(b) && f !in Fields(c) ensures !ResponseSafe(at, s, b, c) {
      assert ResponseChanged(at, s, b, c, FieldRemoved(at, s, f));
    }
  }

  /** What is safe for an endpoint, its statuses and bodies. */
  ghost predicate OperationSafe(at: Endpoint, b: GoodApi, c: GoodApi)
    requires Has(b, at) && Has(c, at)
  {
    var x, z := OperationAt(b, at), OperationAt(c, at);
    && x.responses.Keys <= z.responses.Keys
    && (BodyOf(x.request, b).Some? && BodyOf(z.request, c).Some? ==>
          RequestSafe(at, BodyOf(x.request, b).value, BodyOf(z.request, c).value))
    && forall s ::
         (s in x.responses && s in z.responses && BodyOf(x.responses[s], b).Some? && BodyOf(z.responses[s], c).Some?)
         ==> ResponseSafe(at, s, BodyOf(x.responses[s], b).value, BodyOf(z.responses[s], c).value)
  }

  lemma OperationSafeIs(at: Endpoint, b: GoodApi, c: GoodApi)
    requires Has(b, at) && Has(c, at)
    ensures OperationSafe(at, b, c) <==>
      forall ch :: OperationChanged(at, OperationAt(b, at), b, OperationAt(c, at), c, ch) ==> !Breaking(ch)
  {
    var x, z := OperationAt(b, at), OperationAt(c, at);
    var safe := forall ch :: OperationChanged(at, x, b, z, c, ch) ==> !Breaking(ch);
    forall s | s in x.responses && s !in z.responses ensures !safe {
      assert OperationChanged(at, x, b, z, c, StatusRemoved(at, s));
    }
    if BodyOf(x.request, b).Some? && BodyOf(z.request, c).Some? {
      forall ch | RequestChanged(at, BodyOf(x.request, b).value, BodyOf(z.request, c).value, ch)
        ensures OperationChanged(at, x, b, z, c, ch)
      {
      }
    }
    forall s, ch | s in x.responses && s in z.responses
      && BodyOf(x.responses[s], b).Some? && BodyOf(z.responses[s], c).Some?
      && Breaking(ch) && ResponseChanged(at, s, BodyOf(x.responses[s], b).value, BodyOf(z.responses[s], c).value, ch)
      ensures OperationChanged(at, x, b, z, c, ch)
    {
      assert StatusOf(ch) == Some(s);
    }
  }

  lemma CompatibleIs(b: GoodApi, c: GoodApi, verbs: seq<string>, e: Endpoint)
    requires Compatible(b, c, verbs) && Has(b, e) && e.verb in verbs
    ensures Has(c, e) && OperationSafe(e, b, c)
  {
    if !Has(c, e) { assert Reports(b, c, verbs, EndpointRemoved(e)); }
    OperationChangesAreHere(e, OperationAt(b, e), b, OperationAt(c, e), c);
    forall ch | OperationChanged(e, OperationAt(b, e), b, OperationAt(c, e), c, ch) ensures !Breaking(ch) {
      assert Reports(b, c, verbs, ch);
    }
    OperationSafeIs(e, b, c);
  }

  lemma OperationSafeChain(e: Endpoint, b: GoodApi, m: GoodApi, c: GoodApi)
    requires Has(b, e) && Has(m, e) && Has(c, e) && Between(b, m, c, e)
    requires OperationSafe(e, b, m) && OperationSafe(e, m, c)
    ensures OperationSafe(e, b, c)
  {
    var x, y, z := OperationAt(b, e), OperationAt(m, e), OperationAt(c, e);
    if BodyOf(x.request, b).Some? && BodyOf(z.request, c).Some? {
      var p, q, r := BodyOf(x.request, b).value, BodyOf(y.request, m).value, BodyOf(z.request, c).value;
      RequestSafeIs(e, p, q);
      RequestSafeIs(e, q, r);
      RequestSafeIs(e, p, r);
    }
    forall s | s in x.responses && s in z.responses
      && BodyOf(x.responses[s], b).Some? && BodyOf(z.responses[s], c).Some?
      ensures ResponseSafe(e, s, BodyOf(x.responses[s], b).value, BodyOf(z.responses[s], c).value)
    {
      var p, q, r := BodyOf(x.responses[s], b).value, BodyOf(y.responses[s], m).value, BodyOf(z.responses[s], c).value;
      ResponseSafeIs(e, s, p, q);
      ResponseSafeIs(e, s, q, r);
      ResponseSafeIs(e, s, p, r);
    }
  }

  /** Compatibility composes where the version between declares what the outer two compare. */
  lemma CompatibilityComposes(b: GoodApi, m: GoodApi, c: GoodApi, verbs: seq<string>)
    requires Compatible(b, m, verbs) && Compatible(m, c, verbs)
    requires forall e :: e in Endpoints(b, verbs) ==> Between(b, m, c, e)
    ensures Compatible(b, c, verbs)
  {
    forall ch | Reports(b, c, verbs, ch) ensures !Breaking(ch) {
      var e := ch.at;
      if Has(b, e) {
        CompatibleIs(b, m, verbs, e);
        CompatibleIs(m, c, verbs, e);
        assert e in Endpoints(b, verbs);
        OperationSafeChain(e, b, m, c);
        OperationSafeIs(e, b, c);
      }
    }
  }

  // ---------- where it does not compose ----------

  const NOTHING: Components := Components(map[], map[])

  function OneEndpoint(body: Option<Schema>): GoodApi {
    Api(map["/" := map["post" := Operation(body, map[])]], NOTHING)
  }

  lemma OmissionIsCompatible(s: Schema)
    requires Deref(s, NOTHING) == Some(s)
    ensures var with, without := OneEndpoint(Some(s)), OneEndpoint(None);
            Compatible(with, without, ["post"]) && Compatible(without, with, ["post"])
  {
    var with, without := OneEndpoint(Some(s)), OneEndpoint(None);
    assert forall ch :: !Reports(with, without, ["post"], ch) && !Reports(without, with, ["post"], ch);
  }

  /** A version that drops its body hides what the next one requires from the version before. */
  lemma OmissionHidesBreak()
    ensures var b, m, c := OneEndpoint(Some(PLAIN)), OneEndpoint(None), OneEndpoint(Some(PLAIN.(required := ["id"])));
            Compatible(b, m, ["post"]) && Compatible(m, c, ["post"]) && !Compatible(b, c, ["post"])
  {
    var next := PLAIN.(required := ["id"]);
    OmissionIsCompatible(PLAIN);
    OmissionIsCompatible(next);
    assert next.required[0] == "id" && Composed(next) == [] && Composed(PLAIN) == [];
    assert "id" in Required(next, NOTHING) && "id" !in Required(PLAIN, NOTHING);
    assert Reports(OneEndpoint(Some(PLAIN)), OneEndpoint(Some(next)), ["post"],
                   RequiredAdded(Endpoint("/", "post"), "id", false));
  }
}
