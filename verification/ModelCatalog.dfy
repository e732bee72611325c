/** The publisher of the live model catalog: scripts/build-model-catalog.ts. */
module ModelCatalog {
  import opened Lists
  import opened Orders

  // ---------- the records of a data directory ----------

  /** A record as its registry wrote it: `kept` is what a catalog copies, `weighed` what only decides. */
  datatype Source = Source(kind: string, provider: string, api: string, id: string, kept: string, weighed: string)

  /** One API shape of a file; `None` for what is not a group, or holds a value that is no record. */
  datatype Group = Group(api: string, records: Option<seq<Option<Source>>>)

  /** A file of the directory; `None` for what does not parse to a map of API shapes. */
  datatype DataFile = DataFile(name: string, groups: Option<seq<Group>>)

  const SUFFIX := ".json"

  predicate IsData(f: DataFile) {
    |f.name| >= |SUFFIX| && f.name[|f.name| - |SUFFIX|..] == SUFFIX && f.name[0] != '.'
  }

  function Provider(f: DataFile): string
    requires IsData(f)
  {
    f.name[..|f.name| - |SUFFIX|]
  }

  predicate WellFiledIn(provider: string, api: string, r: Option<Source>) {
    r.Some? && r.value.provider == provider && r.value.api == api
  }

  predicate GroupWellFiled(provider: string, g: Group) {
    g.records.Some? && forall k :: 0 <= k < |g.records.value| ==> WellFiledIn(provider, g.api, g.records.value[k])
  }

  predicate WellFiled(f: DataFile) {
    IsData(f) ==>
      && f.groups.Some?
      && forall k :: 0 <= k < |f.groups.value| ==> GroupWellFiled(Provider(f), f.groups.value[k])
  }

  /** A record takes the place of an earlier one of its id, or the end of the list. */
  function Put(list: seq<Source>, r: Source): seq<Source> {
    if list == [] then [r]
    else if list[0].id == r.id then [r] + list[1..]
    else [list[0]] + Put(list[1..], r)
  }

  /** A record, when it is a chat record. */
  function ChatOf(r: Option<Source>): seq<Source> {
    if r.Some? && r.value.kind == "chat" then [r.value] else []
  }

  function ChatsIn(g: Group): seq<Source> {
    if g.records.Some? then Gather(ChatOf, g.records.value) else []
  }

  /** The chat records of a file, in its order. */
  function ChatsOf(groups: seq<Group>): seq<Source> {
    Gather(ChatsIn, groups)
  }

  function PutAll(chats: seq<Source>): seq<Source> {
    if chats == [] then [] else Put(PutAll(chats[..|chats| - 1]), chats[|chats| - 1])
  }

  function FromFile(f: DataFile): seq<Source> {
    if IsData(f) && f.groups.Some? then PutAll(ChatsOf(f.groups.value)) else []
  }

  function FromDirectory(dir: seq<DataFile>): seq<Source> {
    Gather(FromFile, dir)
  }

  predicate DistinctIds(list: seq<Source>) {
    forall j, k :: 0 <= j < k < |list| ==> list[j].id != list[k].id
  }

  lemma {:induction false} PutIs(list: seq<Source>, r: Source)
    requires DistinctIds(list)
    ensures DistinctIds(Put(list, r))
    ensures forall x :: x in Put(list, r) <==> x == r || (x in list && x.id != r.id)
  {
    if list != [] {
      assert list == [list[0]] + list[1..];
      if list[0].id == r.id {
        assert forall x :: x in list[1..] ==> x.id != r.id;
      } else {
        PutIs(list[1..], r);
        var rest := Put(list[1..], r);
        forall k | 0 <= k < |rest| ensures rest[k].id != list[0].id {
          assert rest[k] in rest;
        }
      }
    }
  }

  /** The record at `k` is the last of its id. */
  predicate LastOfItsId(chats: seq<Source>, k: nat, x: Source) {
    k < |chats| && chats[k] == x && forall j :: k < j < |chats| ==> chats[j].id != x.id
  }

  /** One record to an id, and it is the last the file has of it. */
  lemma {:induction false} LastRecordWins(chats: seq<Source>)
    ensures DistinctIds(PutAll(chats))
    ensures forall x :: x in PutAll(chats) <==> exists k: nat :: LastOfItsId(chats, k, x)
  {
    if chats != [] {
      var n := |chats| - 1;
      var before, last := PutAll(chats[..n]), chats[n];
      LastRecordWins(chats[..n]);
      PutIs(before, last);
      forall x ensures x in PutAll(chats) <==> exists k: nat :: LastOfItsId(chats, k, x) {
        assert x == last ==> LastOfItsId(chats, n, x);
        if x in before && x.id != last.id {
          var k: nat :| LastOfItsId(chats[..n], k, x);
          assert LastOfItsId(chats, k, x);
        }
        if exists k: nat :: LastOfItsId(chats, k, x) {
          var k: nat :| LastOfItsId(chats, k, x);
          assert k < n ==> LastOfItsId(chats[..n], k, x);
        }
      }
    }
  }

  lemma PutAllStep(chats: seq<Source>, r: Source)
    ensures PutAll(chats + [r]) == Put(PutAll(chats), r)
  {
    assert (chats + [r])[..|chats|] == chats;
  }

  /** The list after the first `k` records of a group. */
  function PutUpTo(chats: seq<Source>, records: seq<Option<Source>>, k: nat): seq<Source>
    requires k <= |records|
  {
    PutAll(chats + Gather(ChatOf, records[..k]))
  }

  lemma PutNoneYet(chats: seq<Source>, records: seq<Option<Source>>)
    ensures PutUpTo(chats, records, 0) == PutAll(chats)
  {
    assert chats + [] == chats;
  }

  lemma PutWhole(chats: seq<Source>, records: seq<Option<Source>>)
    ensures PutUpTo(chats, records, |records|) == PutAll(chats + Gather(ChatOf, records))
  {
    GatherWhole(ChatOf, records);
  }

  lemma PutAllOn(chats: seq<Source>, records: seq<Option<Source>>, k: nat)
    requires k < |records| && records[k].Some?
    ensures var before := PutUpTo(chats, records, k);
            PutUpTo(chats, records, k + 1) ==
              if records[k].value.kind == "chat" then Put(before, records[k].value) else before
  {
    var so, r := Gather(ChatOf, records[..k]), records[k].value;
    GatherStep(ChatOf, records, k);
    if r.kind == "chat" {
      PutAllStep(chats + so, r);
      assert chats + (so + [r]) == chats + so + [r];
    } else {
      assert so + [] == so;
    }
  }

  method ReadRecord(provider: string, api: string, r: Option<Source>, list: seq<Source>)
    returns (next: Option<seq<Source>>)
    ensures next.Some? <==> WellFiledIn(provider, api, r)
    ensures next.Some? ==> next.value == if r.value.kind == "chat" then Put(list, r.value) else list
  {
    if r.None? { return None; }
    if r.value.provider != provider || r.value.api != api { return None; }
    next := Some(if r.value.kind == "chat" then Put(list, r.value) else list);
  }

  method ReadGroup(provider: string, g: Group, byId: seq<Source>, ghost chats: seq<Source>)
    returns (r: Option<seq<Source>>)
    requires g.records.Some? && byId == PutAll(chats)
    ensures r.Some? <==> GroupWellFiled(provider, g)
    ensures r.Some? ==> r.value == PutAll(chats + ChatsIn(g))
  {
    var records := g.records.value;
    var list := byId;
    PutNoneYet(chats, records);
    for k := 0 to |records|
      invariant forall j :: 0 <= j < k ==> WellFiledIn(provider, g.api, records[j])
      invariant list == PutUpTo(chats, records, k)
    {
      var next := ReadRecord(provider, g.api, records[k], list);
      if next.None? { return None; }
      PutAllOn(chats, records, k);
      list := next.value;
    }
    PutWhole(chats, records);
    r := Some(list);
  }

  method ReadFile(f: DataFile) returns (r: Option<seq<Source>>)
    requires IsData(f)
    ensures r.Some? <==> WellFiled(f)
    ensures r.Some? ==> r.value == FromFile(f)
  {
    if f.groups.None? { return None; }
    var groups := f.groups.value;
    var byId: seq<Source> := [];
    for k := 0 to |groups|
      invariant forall j :: 0 <= j < k ==> GroupWellFiled(Provider(f), groups[j])
      invariant byId == PutAll(ChatsOf(groups[..k]))
    {
      if groups[k].records.None? { return None; }
      GatherStep(ChatsIn, groups, k);
      var list := ReadGroup(Provider(f), groups[k], byId, ChatsOf(groups[..k]));
      if list.None? { return None; }
      byId := list.value;
    }
    GatherWhole(ChatsIn, groups);
    r := Some(byId);
  }

  function Filed(): DataFile -> bool {
    (f: DataFile) => WellFiled(f)
  }

  predicate AllFiled(dir: seq<DataFile>) {
    All(Filed(), dir)
  }

  lemma AllFiledStep(dir: seq<DataFile>, k: nat)
    requires k < |dir|
    ensures AllFiled(dir[..k + 1]) <==> AllFiled(dir[..k]) && WellFiled(dir[k])
    ensures !WellFiled(dir[k]) ==> !AllFiled(dir)
  {
    AllStep(Filed(), dir, k);
    if AllFiled(dir) { AllPass(Filed(), dir, k); }
  }

  /** The chat records of a directory; any other layout, or none at all, is refused. */
  method ReadChatRecords(dir: seq<DataFile>) returns (r: Option<seq<Source>>)
    ensures r.Some? <==> AllFiled(dir) && FromDirectory(dir) != []
    ensures r.Some? ==> r.value == FromDirectory(dir)
  {
    var records: seq<Source> := [];
    for k := 0 to |dir|
      invariant AllFiled(dir[..k])
      invariant records == FromDirectory(dir[..k])
    {
      GatherStep(FromFile, dir, k);
      AllFiledStep(dir, k);
      assert records + [] == records;
      if !IsData(dir[k]) { continue; }
      var more := ReadFile(dir[k]);
      if more.None? { return None; }
      records := records + more.value;
    }
    assert dir[..|dir|] == dir;
    r := if records == [] then None else Some(records);
  }

  // ---------- what is read ----------

  /** The chat records of a file are those some group of it holds. */
  lemma ChatsAre(groups: seq<Group>, x: Source)
    ensures x in ChatsOf(groups) <==>
      x.kind == "chat" && exists g :: g in groups && g.records.Some? && Some(x) in g.records.value
  {
    GatherHas(ChatsIn, groups, x);
    forall g: Group | g in groups && g.records.Some?
      ensures x in ChatsIn(g) <==> x.kind == "chat" && Some(x) in g.records.value
    {
      GatherHas(ChatOf, g.records.value, x);
      assert x in ChatOf(Some(x)) <==> x.kind == "chat";
    }
  }

  predicate Held(f: DataFile, x: Source) {
    && IsData(f) && f.groups.Some?
    && exists k: nat :: k < |ChatsOf(f.groups.value)| && LastOfItsId(ChatsOf(f.groups.value), k, x)
  }

  /** What a directory gives is, file by file, the last chat record of each id. */
  lemma DirectoryHolds(dir: seq<DataFile>, x: Source)
    ensures x in FromDirectory(dir) <==> exists f :: f in dir && Held(f, x)
  {
    GatherHas(FromFile, dir, x);
    forall f | f in dir ensures x in FromFile(f) <==> Held(f, x) {
      if IsData(f) && f.groups.Some? { LastRecordWins(ChatsOf(f.groups.value)); }
    }
  }

  // ---------- one record to a provider and id ----------

  predicate SamePair(a: Source, b: Source) {
    a.provider == b.provider && a.id == b.id
  }

  predicate DistinctPairs(list: seq<Source>) {
    forall j, k :: 0 <= j < k < |list| ==> !SamePair(list[j], list[k])
  }

  lemma FileChats(provider: string, groups: seq<Group>, x: Source)
    requires forall k :: 0 <= k < |groups| ==> GroupWellFiled(provider, groups[k])
    requires x in ChatsOf(groups)
    ensures x.provider == provider && x.kind == "chat"
  {
    ChatsAre(groups, x);
    var g :| g in groups && g.records.Some? && Some(x) in g.records.value;
    assert GroupWellFiled(provider, g);
    var k :| 0 <= k < |g.records.value| && g.records.value[k] == Some(x);
    assert WellFiledIn(provider, g.api, g.records.value[k]);
  }

  lemma FromFileIs(f: DataFile)
    requires WellFiled(f)
    ensures DistinctIds(FromFile(f))
    ensures forall x :: x in FromFile(f) ==> IsData(f) && x.provider == Provider(f) && x.kind == "chat"
  {
    if IsData(f) {
      var chats := ChatsOf(f.groups.value);
      LastRecordWins(chats);
      forall x | x in FromFile(f) ensures x.provider == Provider(f) && x.kind == "chat" {
        var k: nat :| LastOfItsId(chats, k, x);
        FileChats(Provider(f), f.groups.value, chats[k]);
      }
    }
  }

  predicate DistinctFiles(dir: seq<DataFile>) {
    forall j, k :: 0 <= j < k < |dir| ==> dir[j].name != dir[k].name
  }

  /** Each record of a directory comes from the file of its provider, and none shares its provider and id. */
  lemma {:induction false} OneRecordPerPair(dir: seq<DataFile>)
    requires DistinctFiles(dir) && AllFiled(dir)
    ensures DistinctPairs(FromDirectory(dir))
    ensures forall x :: x in FromDirectory(dir) ==>
      x.kind == "chat" && exists k :: 0 <= k < |dir| && IsData(dir[k]) && dir[k].name == x.provider + SUFFIX
  {
    if dir != [] {
      var n := |dir| - 1;
      OneRecordPerPair(dir[..n]);
      FromFileIs(dir[n]);
      var before, last := FromDirectory(dir[..n]), FromFile(dir[n]);
      forall x | x in last ensures dir[n].name == x.provider + SUFFIX {
        assert dir[n].name == dir[n].name[..|dir[n].name| - |SUFFIX|] + dir[n].name[|dir[n].name| - |SUFFIX|..];
      }
      forall x | x in before
        ensures exists k :: 0 <= k < |dir| && IsData(dir[k]) && dir[k].name == x.provider + SUFFIX
      {
        var k :| 0 <= k < n && IsData(dir[..n][k]) && dir[..n][k].name == x.provider + SUFFIX;
        assert IsData(dir[k]) && dir[k].name == x.provider + SUFFIX;
      }
      forall x, y | x in before && y in last ensures x.provider != y.provider {
        var k :| 0 <= k < n && IsData(dir[..n][k]) && dir[..n][k].name == x.provider + SUFFIX;
        assert dir[k].name != dir[n].name;
      }
    }
  }

  // ---------- the records a checkout publishes ----------

  /** A catalog record: the fields an instance builds a model from. */
  datatype Entry = Entry(provider: string, api: string, id: string, kept: string)

  datatype Dropped = Dropped(provider: string, id: string, reason: string)

  /** What the pinned registry has, and why this checkout must not publish a record. */
  datatype Checkout = Checkout(bundled: set<(string, string)>, refusal: Source -> Option<string>)

  function ToEntry(s: Source): Entry {
    Entry(s.provider, s.api, s.id, s.kept)
  }

  function Listed(c: Checkout): Source -> seq<Entry> {
    (s: Source) => if (s.provider, s.id) in c.bundled || c.refusal(s).Some? then [] else [ToEntry(s)]
  }

  function Refused(c: Checkout): Source -> seq<Dropped> {
    (s: Source) =>
      if (s.provider, s.id) in c.bundled || c.refusal(s).None? then []
      else [Dropped(s.provider, s.id, c.refusal(s).value)]
  }

  const NUL: string := ['\0']

  function Key(provider: string, id: string): string {
    provider + NUL + id
  }

  function ByKey(): (Entry, Entry) -> bool {
    (a: Entry, b: Entry) => Less(Key(a.provider, a.id), Key(b.provider, b.id))
  }

  function DroppedByKey(): (Dropped, Dropped) -> bool {
    (a: Dropped, b: Dropped) => Less(Key(a.provider, a.id), Key(b.provider, b.id))
  }

  function Records(source: seq<Source>, c: Checkout): seq<Entry> {
    Sort(ByKey(), Gather(Listed(c), source))
  }

  function Drops(source: seq<Source>, c: Checkout): seq<Dropped> {
    Sort(DroppedByKey(), Gather(Refused(c), source))
  }

  method SelectCatalogRecords(source: seq<Source>, c: Checkout) returns (records: seq<Entry>, dropped: seq<Dropped>)
    ensures records == Records(source, c) && dropped == Drops(source, c)
  {
    records, dropped := [], [];
    for k := 0 to |source|
      invariant records == Gather(Listed(c), source[..k]) && dropped == Gather(Refused(c), source[..k])
    {
      var candidate := source[k];
      GatherStep(Listed(c), source, k);
      GatherStep(Refused(c), source, k);
      if (candidate.provider, candidate.id) in c.bundled { continue; }
      var reason := c.refusal(candidate);
      if reason.Some? { dropped := dropped + [Dropped(candidate.provider, candidate.id, reason.value)]; }
      else { records := records + [ToEntry(candidate)]; }
    }
    assert source[..|source|] == source;
    records, dropped := Sort(ByKey(), records), Sort(DroppedByKey(), dropped);
  }

  lemma TakeOut(a: seq<Source>, s: Source, b: seq<Source>) returns (left: seq<Source>, right: seq<Source>)
    requires multiset(a + [s]) == multiset(b)
    ensures b == left + [s] + right && multiset(left + right) == multiset(a)
  {
    assert s in multiset(b);
    var i: nat :| i < |b| && b[i] == s;
    left, right := b[..i], b[i + 1..];
    assert b == left + [s] + right;
    assert multiset(b) == multiset(left) + multiset{s} + multiset(right);
    assert multiset(left + right) == multiset(b) - multiset{s};
    assert multiset(a) == multiset(a + [s]) - multiset{s};
  }

  /** What is picked from a list depends on its records, not on their order. */
  lemma {:induction false} PickSame<T>(f: Source -> seq<T>, a: seq<Source>, b: seq<Source>)
    requires multiset(a) == multiset(b)
    ensures multiset(Gather(f, a)) == multiset(Gather(f, b))
    decreases |a|
  {
    assert |a| == |multiset(a)| == |multiset(b)| == |b|;
    if a != [] {
      var n := |a| - 1;
      assert a == a[..n] + [a[n]];
      var left, right := TakeOut(a[..n], a[n], b);
      PickSame(f, a[..n], left + right);
      GatherJoin(f, a[..n], [a[n]]);
      GatherJoin(f, left + [a[n]], right);
      GatherJoin(f, left, [a[n]]);
      GatherJoin(f, left, right);
    }
  }

  predicate NoNul(list: seq<Source>) {
    forall s :: s in list ==> '\0' !in s.provider
  }

  function FirstNul(s: string): nat {
    if s == [] || s[0] == '\0' then 0 else 1 + FirstNul(s[1..])
  }

  lemma {:induction false} FirstNulOfKey(p: string, i: string)
    requires '\0' !in p
    ensures FirstNul(Key(p, i)) == |p|
  {
    if p != [] {
      assert Key(p, i)[1..] == Key(p[1..], i);
      FirstNulOfKey(p[1..], i);
    }
  }

  /** The separator keeps keys apart: file names hold no NUL. */
  lemma KeysApart(p: string, i: string, q: string, j: string)
    requires '\0' !in p && '\0' !in q && Key(p, i) == Key(q, j)
    ensures p == q && i == j
  {
    FirstNulOfKey(p, i);
    FirstNulOfKey(q, j);
    var key := Key(p, i);
    assert p == key[..|p|] && q == key[..|q|] && i == key[|p| + 1..] && j == key[|q| + 1..];
  }

  lemma OrdersAreStrict()
    ensures StrictOrder(ByKey()) && StrictOrder(DroppedByKey())
  {
    LessIsOrder();
  }

  /** Two picked records with one key are one record. */
  lemma SourceOfKey(source: seq<Source>, a: Source, b: Source)
    requires DistinctPairs(source) && NoNul(source) && a in source && b in source
    requires Key(a.provider, a.id) == Key(b.provider, b.id)
    ensures a == b
  {
    KeysApart(a.provider, a.id, b.provider, b.id);
    var j :| 0 <= j < |source| && source[j] == a;
    var k :| 0 <= k < |source| && source[k] == b;
    assert SamePair(source[j], source[k]);
  }

  lemma ListedApart(source: seq<Source>, c: Checkout)
    requires DistinctPairs(source) && NoNul(source)
    ensures forall x, y :: x in Gather(Listed(c), source) && y in Gather(Listed(c), source) ==>
      x == y || ByKey()(x, y) || ByKey()(y, x)
  {
    LessIsOrder();
    forall x, y | x in Gather(Listed(c), source) && y in Gather(Listed(c), source)
      ensures x == y || ByKey()(x, y) || ByKey()(y, x)
    {
      GatherHas(Listed(c), source, x);
      GatherHas(Listed(c), source, y);
      var a :| a in source && x in Listed(c)(a);
      var b :| b in source && y in Listed(c)(b);
      if Key(x.provider, x.id) == Key(y.provider, y.id) { SourceOfKey(source, a, b); }
    }
  }

  lemma RefusedApart(source: seq<Source>, c: Checkout)
    requires DistinctPairs(source) && NoNul(source)
    ensures forall x, y :: x in Gather(Refused(c), source) && y in Gather(Refused(c), source) ==>
      x == y || DroppedByKey()(x, y) || DroppedByKey()(y, x)
  {
    LessIsOrder();
    forall x, y | x in Gather(Refused(c), source) && y in Gather(Refused(c), source)
      ensures x == y || DroppedByKey()(x, y) || DroppedByKey()(y, x)
    {
      GatherHas(Refused(c), source, x);
      GatherHas(Refused(c), source, y);
      var a :| a in source && x in Refused(c)(a);
      var b :| b in source && y in Refused(c)(b);
      if Key(x.provider, x.id) == Key(y.provider, y.id) { SourceOfKey(source, a, b); }
    }
  }

  /** The published list is sorted by provider and id, and does not depend on the order of the source records. */
  lemma SelectionIgnoresOrder(a: seq<Source>, b: seq<Source>, c: Checkout)
    requires DistinctPairs(a) && NoNul(a) && multiset(a) == multiset(b)
    ensures Sorted(ByKey(), Records(a, c))
    ensures Records(a, c) == Records(b, c) && Drops(a, c) == Drops(b, c)
  {
    OrdersAreStrict();
    PickSame(Listed(c), a, b);
    PickSame(Refused(c), a, b);
    ListedApart(a, c);
    RefusedApart(a, c);
    SameSort(ByKey(), Gather(Listed(c), a), Gather(Listed(c), b));
    SameSort(DroppedByKey(), Gather(Refused(c), a), Gather(Refused(c), b));
    SortSorts(ByKey(), Gather(Listed(c), a));
  }

  lemma SameSort<T(!new)>(less: (T, T) -> bool, a: seq<T>, b: seq<T>)
    requires StrictOrder(less) && multiset(a) == multiset(b)
    requires forall x, y :: x in a && y in a ==> x == y || less(x, y) || less(y, x)
    ensures Sort(less, a) == Sort(less, b)
  {
    SortSorts(less, a);
    SortSorts(less, b);
    assert forall x :: x in Sort(less, a) ==> x in multiset(Sort(less, a));
    SortedUnique(less, Sort(less, a), Sort(less, b));
  }

  lemma {:induction false} PickDistinct(c: Checkout, source: seq<Source>)
    requires DistinctPairs(source)
    ensures forall x :: multiset(Gather(Listed(c), source))[x] <= 1
  {
    if source != [] {
      var n := |source| - 1;
      PickDistinct(c, source[..n]);
      var last := Listed(c)(source[n]);
      if last != [] {
        GatherHas(Listed(c), source[..n], last[0]);
        assert last[0] !in Gather(Listed(c), source[..n]);
      }
    }
  }

  lemma ListedAre(source: seq<Source>, c: Checkout, e: Entry)
    ensures e in Gather(Listed(c), source) <==>
      exists s :: s in source && (s.provider, s.id) !in c.bundled && c.refusal(s).None? && e == ToEntry(s)
  {
    GatherHas(Listed(c), source, e);
    assert forall s :: e in Listed(c)(s) <==>
      (s.provider, s.id) !in c.bundled && c.refusal(s).None? && e == ToEntry(s);
  }

  /** No provider and id is published twice, and everything published is a record of the source that may be. */
  lemma SelectionIsUnique(source: seq<Source>, c: Checkout)
    requires DistinctPairs(source) && NoNul(source)
    ensures var records := Records(source, c);
            forall j, k :: 0 <= j < k < |records| ==>
              (records[j].provider, records[j].id) != (records[k].provider, records[k].id)
    ensures forall e :: e in Records(source, c) <==>
      exists s :: s in source && (s.provider, s.id) !in c.bundled && c.refusal(s).None? && e == ToEntry(s)
  {
    var picked, records := Gather(Listed(c), source), Records(source, c);
    OrdersAreStrict();
    SortSorts(ByKey(), picked);
    PickDistinct(c, source);
    ListedApart(source, c);
    LessIsOrder();
    forall j, k | 0 <= j < k < |records|
      ensures (records[j].provider, records[j].id) != (records[k].provider, records[k].id)
    {
      assert records[j] in multiset(records) && records[k] in multiset(records);
      assert records[j] in picked && records[k] in picked;
      if records[j] == records[k] { TwiceCounted(records, j, k); }
    }
    forall e ensures e in records <==>
      exists s :: s in source && (s.provider, s.id) !in c.bundled && c.refusal(s).None? && e == ToEntry(s)
    {
      assert e in records <==> e in multiset(records);
      ListedAre(source, c, e);
    }
  }

  /** Dropped are exactly the new records that are refused, each with its reason. */
  lemma DropsAre(source: seq<Source>, c: Checkout, d: Dropped)
    ensures d in Drops(source, c) <==>
      exists s :: s in source && (s.provider, s.id) !in c.bundled && c.refusal(s) == Some(d.reason)
        && d.provider == s.provider && d.id == s.id
  {
    OrdersAreStrict();
    var picked := Gather(Refused(c), source);
    SortSorts(DroppedByKey(), picked);
    assert d in Drops(source, c) <==> d in multiset(Drops(source, c));
    GatherHas(Refused(c), source, d);
    assert forall s :: d in Refused(c)(s) <==>
      (s.provider, s.id) !in c.bundled && c.refusal(s) == Some(d.reason) && d.provider == s.provider && d.id == s.id;
  }

  lemma TwiceCounted<T>(s: seq<T>, j: nat, k: nat)
    requires j < k < |s| && s[j] == s[k]
    ensures multiset(s)[s[j]] >= 2
  {
    assert s == s[..j] + [s[j]] + s[j + 1..k] + [s[k]] + s[k + 1..];
  }

  // ---------- publishing ----------

  const MAX_SAFE_INTEGER := 0x1F_FFFF_FFFF_FFFF

  const MAX_RECORDS := 5000

  /** What a file says its serial is; `None` when it says no integer. */
  type Stated = Option<int>

  /** A published file: `wellShaped` for the schema and the Pi version, its serial and records apart. */
  datatype File = File(serial: Stated, records: seq<Entry>, signer: string, wellShaped: bool)

  /** The serial an instance with this public key reads; `None` when it refuses the file. */
  function Read(f: File, publicKey: string): Option<int> {
    if f.signer == publicKey && f.wellShaped && |f.records| <= MAX_RECORDS
       && f.serial.Some? && 0 <= f.serial.value <= MAX_SAFE_INTEGER
    then f.serial else None
  }

  function StatedSerial(f: File): int {
    if f.serial.Some? && -MAX_SAFE_INTEGER <= f.serial.value <= MAX_SAFE_INTEGER then f.serial.value else -1
  }

  /** What the next serial must exceed. */
  function PreviousSerial(previous: Option<File>, publicKey: string): int {
    if previous.None? then -1
    else if Read(previous.value, publicKey).Some? then Read(previous.value, publicKey).value
    else StatedSerial(previous.value)
  }

  lemma PreviousIsStated(f: File, publicKey: string)
    ensures PreviousSerial(Some(f), publicKey) == StatedSerial(f)
  {
  }

  datatype Options = Options(seedKey: string, publicKey: string, servable: Entry -> bool, now: int)

  datatype Outcome = Unchanged | Published(file: File) | Failed

  /** Would an instance take every record of the list, none of them listed twice? */
  predicate AllServed(records: seq<Entry>, servable: Entry -> bool) {
    && (forall e :: e in records ==> servable(e))
    && forall j, k :: 0 <= j < k < |records| ==>
         (records[j].provider, records[j].id) != (records[k].provider, records[k].id)
  }

  /** Already published: the same records, under a signature this checkout accepts. */
  predicate Current(previous: Option<File>, records: seq<Entry>, publicKey: string) {
    previous.Some? && Read(previous.value, publicKey).Some? && previous.value.records == records
  }

  /**
    What one publication owes: nothing new for a list already published, a file above what stood
    there and no older than the clock, and a failure exactly when an instance would not take the file.
   */
  predicate Meets(previous: Option<File>, records: seq<Entry>, o: Options, r: Outcome) {
    var next := PreviousSerial(previous, o.publicKey) + 1;
    if Current(previous, records, o.publicKey) then r.Unchanged?
    else if o.seedKey == o.publicKey && |records| <= MAX_RECORDS && AllServed(records, o.servable)
            && 0 <= Later(o.now, next) <= MAX_SAFE_INTEGER
    then
      && r.Published? && r.file.records == records && Read(r.file, o.publicKey) == r.file.serial
      && r.file.serial.Some? && r.file.serial.value >= o.now && r.file.serial.value >= next
      && (r.file.serial.value == o.now || r.file.serial.value == next)
    else r.Failed?
  }

  method PublishRecords(previous: Option<File>, records: seq<Entry>, o: Options) returns (r: Outcome)
    ensures Meets(previous, records, o, r)
  {
    var previousSerial := -1;
    if previous.Some? {
      var accepted := Read(previous.value, o.publicKey);
      if accepted.Some? && previous.value.records == records { return Unchanged; }
      previousSerial := if accepted.Some? then accepted.value else StatedSerial(previous.value);
    }
    var serial := Later(o.now, previousSerial + 1);
    var file := File(Some(serial), records, o.seedKey, true);
    if Read(file, o.publicKey).None? { return Failed; }
    if !AllServed(records, o.servable) { return Failed; }
    r := Published(file);
  }

  /** What a registry lists beyond the pinned one; `None` for a directory of another layout. */
  function NewRecords(dir: seq<DataFile>, later: bool, c: Checkout): Option<seq<Entry>> {
    if !later then Some([])
    else if AllFiled(dir) && FromDirectory(dir) != [] then Some(Records(FromDirectory(dir), c))
    else None
  }

  method BuildModelCatalog(dir: seq<DataFile>, later: bool, c: Checkout, previous: Option<File>, o: Options)
    returns (r: Outcome)
    ensures NewRecords(dir, later, c).None? ==> r.Failed?
    ensures NewRecords(dir, later, c).Some? ==> Meets(previous, NewRecords(dir, later, c).value, o, r)
  {
    var records: seq<Entry> := [];
    if later {
      var source := ReadChatRecords(dir);
      if source.None? { return Failed; }
      var dropped;
      records, dropped := SelectCatalogRecords(source.value, c);
    }
    r := PublishRecords(previous, records, o);
  }

  function Later(a: int, b: int): int { if a < b then b else a }

  // ---------- runs of builds ----------

  /** One build over what was published before: what stands published after it, if it published. */
  datatype Build = Build(records: seq<Entry>, options: Options, outcome: Outcome)

  function After(previous: Option<File>, b: Build): Option<File> {
    if b.outcome.Published? then Some(b.outcome.file) else previous
  }

  /** A run: each build meets its contract on what the builds before it left. */
  predicate IsRun(previous: Option<File>, builds: seq<Build>)
    decreases |builds|
  {
    || builds == []
    || (Meets(previous, builds[0].records, builds[0].options, builds[0].outcome)
        && IsRun(After(previous, builds[0]), builds[1..]))
  }

  function Serials(builds: seq<Build>): seq<int> {
    if builds == [] then []
    else
      (if builds[0].outcome.Published? && builds[0].outcome.file.serial.Some?
       then [builds[0].outcome.file.serial.value] else [])
      + Serials(builds[1..])
  }

  /**
    Over any run, whatever the clocks, keys and record sets: every serial exceeds the one stated by
    the file there at the start, and each exceeds all published before it.
   */
  lemma {:induction false} SerialsGrow(previous: Option<File>, builds: seq<Build>)
    requires IsRun(previous, builds)
    ensures forall k :: 0 <= k < |Serials(builds)| ==>
      Serials(builds)[k] > if previous.Some? then StatedSerial(previous.value) else -1
    ensures forall j, k :: 0 <= j < k < |Serials(builds)| ==> Serials(builds)[j] < Serials(builds)[k]
    decreases |builds|
  {
    if builds != [] {
      var b := builds[0];
      SerialsGrow(After(previous, b), builds[1..]);
      if previous.Some? { PreviousIsStated(previous.value, b.options.publicKey); }
    }
  }

  /** A list published once is not published again while its signature is accepted. */
  lemma PublishedOnce(previous: Option<File>, first: Build, second: Build)
    requires IsRun(previous, [first, second]) && first.outcome.Published?
    requires second.records == first.records && second.options.publicKey == first.options.publicKey
    ensures second.outcome.Unchanged?
  {
    assert [first, second][1..] == [second];
    assert IsRun(After(previous, first), [second]);
  }
}
