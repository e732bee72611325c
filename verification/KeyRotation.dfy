/** Key rotation: scripts/rekey-encrypted-columns.ts. */
module KeyRotation {
  /*
    Re-encryption of the ciphertexts under retired keys. The database is a map from slots (column,
    primary key) to rows. Other writers act before every statement: `env(n, db)` is what they make of
    `db` before the `n`-th.
   */

  import opened Orders

  datatype Key = Key(parts: seq<string>)
  datatype Slot = Slot(col: nat, key: Key)

  /** A `v1:<kid>:` envelope, or any other text (the empty one included). */
  datatype Cipher = Envelope(kid: string, body: string) | Other(text: string)

  /** `live`: the column's own predicate holds, so the ciphertext is still read. */
  datatype Row = Row(blob: Cipher, live: bool)

  type Db = map<Slot, Row>

  /** `open` throws (`None`) on a ciphertext no key opens; `seal` takes a nonce. */
  datatype Ring = Ring(
    active: string, retired: set<string>, open: Cipher -> Option<string>, seal: (string, nat) -> Cipher)

  /**
    `listed` is the order of `ORDER BY`, which names the text alias; `bound` the order of the
    keyset comparison, which names the raw column.
   */
  datatype Setup = Setup(
    ring: Ring, bound: (Key, Key) -> bool, listed: (Key, Key) -> bool, batch: nat, env: (nat, Db) -> Db)

  predicate Active(u: Setup, c: Cipher) {
    c.Envelope? && c.kid == u.ring.active
  }

  predicate Retired(u: Setup, row: Row) {
    row.live && row.blob.Envelope? && row.blob.kid in u.ring.retired
  }

  /**
    Rows were deleted, stored under the active key, or went dead: all that other writers are
    assumed to do between two statements, and all that happens over a whole run.
   */
  ghost predicate Drifts(u: Setup, before: Db, after: Db) {
    forall s :: s in after ==>
      || Active(u, after[s].blob)
      || (s in before && after[s].blob == before[s].blob && (after[s].live ==> before[s].live))
  }

  ghost predicate Assumed(u: Setup) {
    && u.batch >= 1
    && StrictTotalOrder(u.bound) && StrictTotalOrder(u.listed)
    && u.ring.active !in u.ring.retired
    && (forall p, n :: Active(u, u.ring.seal(p, n)) && u.ring.open(u.ring.seal(p, n)) == Some(p))
    && (forall n, db :: Drifts(u, db, u.env(n, db)))
  }

  // ---------- one page ----------

  predicate Past(u: Setup, after: Option<Key>, k: Key) {
    after.None? || u.bound(after.value, k)
  }

  /** The rows the query's filter admits. */
  function Pending(u: Setup, db: Db, col: nat, after: Option<Key>): set<Slot> {
    set s | s in db && s.col == col && Retired(u, db[s]) && Past(u, after, s.key)
  }

  /** An order of keys, taken column by column. */
  function BySlot(less: (Key, Key) -> bool): (Slot, Slot) -> bool {
    (a: Slot, b: Slot) => a.col < b.col || (a.col == b.col && less(a.key, b.key))
  }

  lemma BySlotTotal(less: (Key, Key) -> bool)
    requires StrictTotalOrder(less)
    ensures StrictTotalOrder(BySlot(less))
  {
    var order := BySlot(less);
    forall x, y ensures !order(x, x) && (x == y || order(x, y) || order(y, x)) {
      assert x.key == y.key || less(x.key, y.key) || less(y.key, x.key);
    }
  }

  ghost predicate IsLeast(less: (Slot, Slot) -> bool, s: Slot, slots: set<Slot>) {
    s in slots && forall x :: x in slots && x != s ==> less(s, x)
  }

  lemma {:induction false} LeastExists(less: (Slot, Slot) -> bool, slots: set<Slot>)
    requires StrictTotalOrder(less) && slots != {}
    ensures exists s :: IsLeast(less, s, slots)
  {
    var s :| s in slots;
    if slots == {s} {
      assert IsLeast(less, s, slots);
    } else {
      LeastExists(less, slots - {s});
      var m :| IsLeast(less, m, slots - {s});
      assert IsLeast(less, if less(m, s) then m else s, slots);
    }
  }

  function Least(less: (Slot, Slot) -> bool, slots: set<Slot>): (s: Slot)
    requires StrictTotalOrder(less) && slots != {}
    ensures IsLeast(less, s, slots)
  {
    LeastExists(less, slots);
    assert exists s :: s in slots && forall x :: x in slots && x != s ==> less(s, x) by {
      var s :| IsLeast(less, s, slots);
    }
    var s :| s in slots && forall x :: x in slots && x != s ==> less(s, x);
    s
  }

  ghost predicate Ascending(less: (Slot, Slot) -> bool, list: seq<Slot>) {
    forall i, j :: 0 <= i < j < |list| ==> less(list[i], list[j])
  }

  function Listing(less: (Slot, Slot) -> bool, slots: set<Slot>): seq<Slot>
    requires StrictTotalOrder(less)
    decreases |slots|
  {
    if slots == {} then []
    else
      var s := Least(less, slots);
      [s] + Listing(less, slots - {s})
  }

  lemma {:induction false} ListingIs(less: (Slot, Slot) -> bool, slots: set<Slot>)
    requires StrictTotalOrder(less)
    ensures Ascending(less, Listing(less, slots))
    ensures forall s :: s in Listing(less, slots) <==> s in slots
    decreases |slots|
  {
    if slots != {} {
      var s := Least(less, slots);
      var rest := Listing(less, slots - {s});
      ListingIs(less, slots - {s});
      LeastFirst(less, s, rest, slots);
    }
  }

  /** The least slot, put before the others in order. */
  lemma LeastFirst(less: (Slot, Slot) -> bool, s: Slot, rest: seq<Slot>, slots: set<Slot>)
    requires IsLeast(less, s, slots) && Ascending(less, rest) && forall x :: x in rest <==> x in slots - {s}
    ensures Ascending(less, [s] + rest) && forall x :: x in [s] + rest <==> x in slots
  {
    assert forall x :: x in [s] + rest <==> x == s || x in rest;
    forall j | 0 <= j < |rest| ensures less(s, rest[j]) { assert rest[j] in rest; }
  }

  /** `SELECT … ORDER BY … LIMIT`: the first rows the filter admits, in the order of the listing. */
  function Page(u: Setup, db: Db, col: nat, after: Option<Key>): (page: seq<Slot>)
    requires Assumed(u)
    ensures |page| <= u.batch
  {
    BySlotTotal(u.listed);
    var all := Listing(BySlot(u.listed), Pending(u, db, col, after));
    if |all| <= u.batch then all else all[..u.batch]
  }

  lemma PageIs(u: Setup, db: Db, col: nat, after: Option<Key>)
    requires Assumed(u)
    ensures forall s :: s in Page(u, db, col, after) ==> s in Pending(u, db, col, after)
    ensures Ascending(BySlot(u.listed), Page(u, db, col, after))
  {
    BySlotTotal(u.listed);
    ListingIs(BySlot(u.listed), Pending(u, db, col, after));
  }

  // ---------- the state of a run ----------

  /** `foreign` records the last value another writer stored in a slot; the program never reads it. */
  datatype World = World(db: Db, tick: nat, rekeyed: nat, skipped: nat, failed: seq<Slot>, foreign: map<Slot, Cipher>)

  function Begin(db: Db): World {
    World(db, 0, 0, 0, [], map[])
  }

  function Interfere(u: Setup, w: World): World {
    var db := u.env(w.tick, w.db);
    w.(db := db, tick := w.tick + 1,
       foreign := w.foreign + map s | s in db && !(s in w.db && w.db[s].blob == db[s].blob) :: db[s].blob)
  }

  /** One row of a page: re-encrypt what was read, and write it if the row still holds it. */
  function Attempt(u: Setup, w: World, s: Slot, read: Cipher): World {
    match u.ring.open(read)
    case None => w.(failed := w.failed + [s])
    case Some(plain) =>
      var v := Interfere(u, w);
      if s in v.db && v.db[s].blob == read then
        v.(db := v.db[s := v.db[s].(blob := u.ring.seal(plain, w.tick))], rekeyed := v.rekeyed + 1)
      else v.(skipped := v.skipped + 1)
  }

  /** The rows of a page in turn; `snapshot` is what the page's query returned. */
  function Attempts(u: Setup, w: World, page: seq<Slot>, snapshot: Db): World
    requires forall s :: s in page ==> s in snapshot
  {
    if page == [] then w
    else
      var n := |page| - 1;
      Attempt(u, Attempts(u, w, page[..n], snapshot), page[n], snapshot[page[n]].blob)
  }

  lemma AttemptDrifts(u: Setup, w: World, s: Slot, read: Cipher)
    requires Assumed(u)
    ensures Drifts(u, w.db, Attempt(u, w, s, read).db)
  {
    assert Drifts(u, w.db, u.env(w.tick, w.db));
    if u.ring.open(read).Some? {
      assert Active(u, u.ring.seal(u.ring.open(read).value, w.tick));
    }
  }

  lemma {:induction false} AttemptsDrift(u: Setup, w: World, page: seq<Slot>, snapshot: Db)
    requires Assumed(u) && forall s :: s in page ==> s in snapshot
    ensures Drifts(u, w.db, Attempts(u, w, page, snapshot).db)
  {
    if page != [] {
      var n := |page| - 1;
      AttemptsDrift(u, w, page[..n], snapshot);
      AttemptDrifts(u, Attempts(u, w, page[..n], snapshot), page[n], snapshot[page[n]].blob);
    }
  }

  /** The cursor strictly advances, past rows that fail and stay in the filter too. */
  lemma CursorAdvances(u: Setup, before: Db, after: Db, col: nat, from: Option<Key>, last: Slot)
    requires Assumed(u) && Drifts(u, before, after) && last in Pending(u, before, col, from)
    ensures |Pending(u, after, col, Some(last.key))| < |Pending(u, before, col, from)|
  {
    var now, earlier := Pending(u, after, col, Some(last.key)), Pending(u, before, col, from);
    forall s | s in now ensures s in earlier - {last} {
      assert u.bound(last.key, s.key);
      assert from.Some? ==> u.bound(from.value, last.key);
    }
    SubsetSize(now, earlier - {last});
  }

  lemma {:induction false} SubsetSize(a: set<Slot>, b: set<Slot>)
    requires a <= b
    ensures |a| <= |b|
  {
    if a != {} {
      var x :| x in a;
      SubsetSize(a - {x}, b - {x});
    }
  }

  /** The page the next query returns, other writers having acted. */
  function NextPage(u: Setup, w: World, col: nat, after: Option<Key>): seq<Slot>
    requires Assumed(u)
  {
    Page(u, Interfere(u, w).db, col, after)
  }

  /** One turn of the page loop. */
  function RunPage(u: Setup, w: World, col: nat, after: Option<Key>): World
    requires Assumed(u)
  {
    var v := Interfere(u, w);
    PageIs(u, v.db, col, after);
    Attempts(u, v, Page(u, v.db, col, after), v.db)
  }

  lemma RunPageDrifts(u: Setup, w: World, col: nat, after: Option<Key>)
    requires Assumed(u)
    ensures Drifts(u, w.db, RunPage(u, w, col, after).db)
  {
    var v := Interfere(u, w);
    PageIs(u, v.db, col, after);
    assert Drifts(u, w.db, v.db);
    AttemptsDrift(u, v, Page(u, v.db, col, after), v.db);
  }

  lemma PageAdvances(u: Setup, w: World, col: nat, after: Option<Key>)
    requires Assumed(u) && NextPage(u, w, col, after) != []
    ensures var page := NextPage(u, w, col, after);
            |Pending(u, RunPage(u, w, col, after).db, col, Some(page[|page| - 1].key))| < |Pending(u, w.db, col, after)|
  {
    var v := Interfere(u, w);
    var page := NextPage(u, w, col, after);
    PageIs(u, v.db, col, after);
    assert Drifts(u, w.db, v.db);
    RunPageDrifts(u, w, col, after);
    assert page[|page| - 1] in page;
    CursorAdvances(u, w.db, RunPage(u, w, col, after).db, col, after, page[|page| - 1]);
  }

  function Column(u: Setup, w: World, col: nat, after: Option<Key>): World
    requires Assumed(u)
    decreases |Pending(u, w.db, col, after)|
  {
    var page := NextPage(u, w, col, after);
    if |page| < u.batch then RunPage(u, w, col, after)
    else
      PageAdvances(u, w, col, after);
      Column(u, RunPage(u, w, col, after), col, Some(page[|page| - 1].key))
  }

  function Fold(step: (World, nat) --> World, w: World, n: nat): World
    requires forall x, i :: step.requires(x, i)
  {
    if n == 0 then w else step(Fold(step, w, n - 1), n - 1)
  }

  lemma {:induction false} FoldKeeps(step: (World, nat) --> World, inv: (World, nat) -> bool, w: World, n: nat)
    requires forall x, i :: step.requires(x, i)
    requires inv(w, 0) && forall x, i: nat :: inv(x, i) ==> inv(step(x, i), i + 1)
    ensures inv(Fold(step, w, n), n)
  {
    if n > 0 { FoldKeeps(step, inv, w, n - 1); }
  }

  function WholeColumn(u: Setup): (World, nat) --> World {
    (w: World, col: nat) requires Assumed(u) => Column(u, w, col, None)
  }

  /** The columns one after the other. */
  function Columns(u: Setup, w: World, cols: nat): World
    requires Assumed(u)
  {
    Fold(WholeColumn(u), w, cols)
  }

  function Rotated(u: Setup, db: Db, cols: nat): World
    requires Assumed(u)
  {
    if u.ring.retired == {} then Begin(db) else Columns(u, Begin(db), cols)
  }

  // ---------- the program's loops ----------

  method AttemptPage(u: Setup, w: World, page: seq<Slot>, snapshot: Db) returns (x: World)
    requires forall s :: s in page ==> s in snapshot
    ensures x == Attempts(u, w, page, snapshot)
  {
    x := w;
    for i := 0 to |page|
      invariant x == Attempts(u, w, page[..i], snapshot)
    {
      assert page[..i + 1][..i] == page[..i];
      x := AttemptRow(u, x, page[i], snapshot[page[i]].blob);
    }
    assert page[..|page|] == page;
  }

  method AttemptRow(u: Setup, w: World, slot: Slot, read: Cipher) returns (x: World)
    ensures x == Attempt(u, w, slot, read)
  {
    var plain := u.ring.open(read);
    if plain.None? { return w.(failed := w.failed + [slot]); }
    var rewritten := u.ring.seal(plain.value, w.tick);
    x := Interfere(u, w);
    if slot in x.db && x.db[slot].blob == read {
      x := x.(db := x.db[slot := x.db[slot].(blob := rewritten)], rekeyed := x.rekeyed + 1);
    } else {
      x := x.(skipped := x.skipped + 1);
    }
  }

  method RekeyColumn(u: Setup, w: World, col: nat) returns (x: World)
    requires Assumed(u)
    ensures x == Column(u, w, col, None)
  {
    x := w;
    var after: Option<Key> := None;
    while true
      invariant Column(u, x, col, after) == Column(u, w, col, None)
      decreases |Pending(u, x.db, col, after)|
    {
      ghost var start := x;
      x := Interfere(u, x);
      PageIs(u, x.db, col, after);
      var page := Page(u, x.db, col, after);
      x := AttemptPage(u, x, page, x.db);
      if |page| < u.batch { return; }
      PageAdvances(u, start, col, after);
      after := Some(page[|page| - 1].key);
    }
  }

  method RekeyRetiredKids(u: Setup, db: Db, cols: nat) returns (w: World)
    requires Assumed(u)
    ensures w == Rotated(u, db, cols)
  {
    w := Begin(db);
    if u.ring.retired == {} { return; }
    for col := 0 to cols
      invariant w == Columns(u, Begin(db), col)
    {
      w := RekeyColumn(u, w, col);
    }
  }

  // ---------- nothing another writer stored is overwritten, no plaintext is lost ----------

  ghost predicate Faithful(u: Setup, db0: Db, w: World) {
    && (forall s :: s in w.foreign ==> Active(u, w.foreign[s]))
    && (forall s :: s in w.foreign && s in w.db ==> w.db[s].blob == w.foreign[s])
    && (forall s :: s in w.db && s !in w.foreign ==>
          && s in db0 && u.ring.open(w.db[s].blob) == u.ring.open(db0[s].blob)
          && (w.db[s].blob == db0[s].blob || Active(u, w.db[s].blob)))
  }

  lemma InterfereFaithful(u: Setup, db0: Db, w: World)
    requires Assumed(u) && Faithful(u, db0, w)
    ensures Faithful(u, db0, Interfere(u, w))
  {
    assert Drifts(u, w.db, u.env(w.tick, w.db));
  }

  lemma AttemptFaithful(u: Setup, db0: Db, w: World, s: Slot, read: Cipher)
    requires Assumed(u) && Faithful(u, db0, w) && read.Envelope? && read.kid in u.ring.retired
    ensures Faithful(u, db0, Attempt(u, w, s, read))
  {
    InterfereFaithful(u, db0, w);
    if u.ring.open(read).Some? {
      var v, plain := Interfere(u, w), u.ring.open(read).value;
      var sealed := u.ring.seal(plain, w.tick);
      assert Active(u, sealed) && u.ring.open(sealed) == Some(plain);
      if s in v.db && v.db[s].blob == read { RewriteFaithful(u, db0, v, s, sealed); }
    }
  }

  /** A row other writers have left alone, stored under the active key with its plaintext. */
  lemma RewriteFaithful(u: Setup, db0: Db, v: World, s: Slot, sealed: Cipher)
    requires Assumed(u) && Faithful(u, db0, v) && s in v.db && !Active(u, v.db[s].blob)
    requires Active(u, sealed) && u.ring.open(sealed) == u.ring.open(v.db[s].blob)
    ensures Faithful(u, db0, v.(db := v.db[s := v.db[s].(blob := sealed)], rekeyed := v.rekeyed + 1))
  {
    assert s !in v.foreign;
  }

  lemma {:induction false} AttemptsFaithful(u: Setup, db0: Db, w: World, page: seq<Slot>, snapshot: Db)
    requires Assumed(u) && Faithful(u, db0, w)
    requires forall s :: s in page ==> s in snapshot && Retired(u, snapshot[s])
    ensures Faithful(u, db0, Attempts(u, w, page, snapshot))
  {
    if page != [] {
      var n := |page| - 1;
      AttemptsFaithful(u, db0, w, page[..n], snapshot);
      assert page[n] in page;
      AttemptFaithful(u, db0, Attempts(u, w, page[..n], snapshot), page[n], snapshot[page[n]].blob);
    }
  }

  lemma {:induction false} ColumnFaithful(u: Setup, db0: Db, w: World, col: nat, after: Option<Key>)
    requires Assumed(u) && Faithful(u, db0, w)
    ensures Faithful(u, db0, Column(u, w, col, after))
    decreases |Pending(u, w.db, col, after)|
  {
    var page := NextPage(u, w, col, after);
    PageFaithful(u, db0, w, col, after);
    if |page| >= u.batch {
      PageAdvances(u, w, col, after);
      ColumnFaithful(u, db0, RunPage(u, w, col, after), col, Some(page[|page| - 1].key));
    }
  }

  lemma PageFaithful(u: Setup, db0: Db, w: World, col: nat, after: Option<Key>)
    requires Assumed(u) && Faithful(u, db0, w)
    ensures Faithful(u, db0, RunPage(u, w, col, after))
  {
    var v := Interfere(u, w);
    PageIs(u, v.db, col, after);
    InterfereFaithful(u, db0, w);
    AttemptsFaithful(u, db0, v, Page(u, v.db, col, after), v.db);
  }

  lemma ColumnsFaithful(u: Setup, db0: Db, w: World, cols: nat)
    requires Assumed(u) && Faithful(u, db0, w)
    ensures Faithful(u, db0, Columns(u, w, cols))
  {
    var inv := (x: World, i: nat) => Faithful(u, db0, x);
    forall x, i: nat | inv(x, i) ensures inv(WholeColumn(u)(x, i), i + 1) {
      ColumnFaithful(u, db0, x, i, None);
    }
    FoldKeeps(WholeColumn(u), inv, w, cols);
  }

  /**
    Whatever other writers do: a slot they stored to holds what they stored last, and every other
    row still opens to the plaintext it had, under its old key or the active one.
   */
  lemma RotationIsFaithful(u: Setup, db: Db, cols: nat, s: Slot)
    requires Assumed(u) && s in Rotated(u, db, cols).db
    ensures var w := Rotated(u, db, cols);
            if s in w.foreign then w.db[s].blob == w.foreign[s]
            else s in db && u.ring.open(w.db[s].blob) == u.ring.open(db[s].blob)
                 && (w.db[s].blob == db[s].blob || Active(u, w.db[s].blob))
  {
    ColumnsFaithful(u, db, Begin(db), cols);
  }

  // ---------- completeness ----------

  /** The order of the listing is the order of the bound. */
  ghost predicate OrdersAgree(u: Setup) {
    forall a, b :: u.listed(a, b) == u.bound(a, b)
  }

  /** Enough keys are listed before `a` for it to end a full page. */
  ghost predicate EndsPage(u: Setup, a: Key) {
    exists earlier :: FillsPage(u, earlier, a)
  }

  ghost predicate FillsPage(u: Setup, earlier: set<Key>, a: Key) {
    |earlier| + 1 == u.batch && forall k :: k in earlier ==> u.listed(k, a)
  }

  /** The bound excludes nothing listed after a key that can end a full page. */
  ghost predicate PagesAgree(u: Setup) {
    forall a, b :: u.listed(a, b) && !u.bound(a, b) ==> !EndsPage(u, a)
  }

  /** Every row still pending in `col`, at or before `upto`, is reported failed. */
  ghost predicate Settled(u: Setup, w: World, col: nat, upto: Option<Key>) {
    forall s :: s in w.db && s.col == col && Retired(u, w.db[s]) && !Past(u, upto, s.key) ==> s in w.failed
  }

  ghost predicate Done(u: Setup, w: World, col: nat) {
    forall s :: s in w.db && s.col == col && Retired(u, w.db[s]) ==> s in w.failed
  }

  /** What holds of every later state of the run. */
  ghost predicate Later(u: Setup, w: World, x: World) {
    Drifts(u, w.db, x.db) && forall s :: s in w.failed ==> s in x.failed
  }

  lemma {:induction false} AttemptsLater(u: Setup, w: World, page: seq<Slot>, snapshot: Db)
    requires Assumed(u) && forall s :: s in page ==> s in snapshot
    ensures Later(u, w, Attempts(u, w, page, snapshot))
  {
    AttemptsDrift(u, w, page, snapshot);
    if page != [] { AttemptsLater(u, w, page[..|page| - 1], snapshot); }
  }

  lemma AttemptSettles(u: Setup, w: World, s: Slot, read: Cipher)
    requires Assumed(u)
    requires s in w.db ==> w.db[s].blob == read || Active(u, w.db[s].blob)
    ensures var x := Attempt(u, w, s, read); s in x.db && Retired(u, x.db[s]) ==> s in x.failed
  {
    assert Drifts(u, w.db, u.env(w.tick, w.db));
    if u.ring.open(read).Some? {
      assert Active(u, u.ring.seal(u.ring.open(read).value, w.tick));
    }
  }

  lemma {:induction false} AttemptsSettle(u: Setup, w: World, page: seq<Slot>, s: Slot)
    requires Assumed(u) && s in page
    requires forall t :: t in page ==> t in w.db
    ensures var x := Attempts(u, w, page, w.db); s in x.db && Retired(u, x.db[s]) ==> s in x.failed
  {
    var n := |page| - 1;
    var y := Attempts(u, w, page[..n], w.db);
    AttemptsDrift(u, w, page[..n], w.db);
    AttemptDrifts(u, y, page[n], w.db[page[n]].blob);
    if s == page[n] {
      AttemptSettles(u, y, s, w.db[s].blob);
    } else {
      AttemptsSettle(u, w, page[..n], s);
    }
  }

  /** A full page settles everything up to its last key; a short one settles the column. */
  lemma PageSettles(u: Setup, w: World, col: nat, after: Option<Key>)
    requires Assumed(u) && PagesAgree(u) && Settled(u, w, col, after)
    ensures var page := NextPage(u, w, col, after); var x := RunPage(u, w, col, after);
            if |page| < u.batch then Done(u, x, col) else Settled(u, x, col, Some(page[|page| - 1].key))
  {
    var page, x := NextPage(u, w, col, after), RunPage(u, w, col, after);
    forall s | s in x.db && s.col == col && Retired(u, x.db[s])
               && (|page| < u.batch || !Past(u, Some(page[|page| - 1].key), s.key))
      ensures s in x.failed
    {
      SlotSettles(u, w, col, after, s);
    }
  }

  lemma SlotSettles(u: Setup, w: World, col: nat, after: Option<Key>, s: Slot)
    requires Assumed(u) && PagesAgree(u) && Settled(u, w, col, after) && s.col == col
    requires var x := RunPage(u, w, col, after); s in x.db && Retired(u, x.db[s])
    requires var page := NextPage(u, w, col, after); |page| < u.batch || !Past(u, Some(page[|page| - 1].key), s.key)
    ensures s in RunPage(u, w, col, after).failed
  {
    var v := Interfere(u, w);
    PageIs(u, v.db, col, after);
    PageLater(u, w, col, after);
    assert Drifts(u, w.db, v.db);
    AttemptsDrift(u, v, Page(u, v.db, col, after), v.db);
    if Past(u, after, s.key) {
      PageHas(u, v.db, col, after, s);
      AttemptsSettle(u, v, Page(u, v.db, col, after), s);
    }
  }

  lemma PageHas(u: Setup, db: Db, col: nat, after: Option<Key>, s: Slot)
    requires Assumed(u) && PagesAgree(u) && s in Pending(u, db, col, after)
    requires var page := Page(u, db, col, after);
             |page| < u.batch || !Past(u, Some(page[|page| - 1].key), s.key)
    ensures s in Page(u, db, col, after)
  {
    var less := BySlot(u.listed);
    BySlotTotal(u.listed);
    ListingIs(less, Pending(u, db, col, after));
    var all := Listing(less, Pending(u, db, col, after));
    var page := Page(u, db, col, after);
    var i :| 0 <= i < |all| && all[i] == s;
    if i >= |page| {
      var last := page[|page| - 1];
      assert last == all[u.batch - 1] && less(last, s);
      PageEnds(u, db, col, after);
    } else {
      assert page[i] == s;
    }
  }

  /** The last row of a full page ends one. */
  lemma PageEnds(u: Setup, db: Db, col: nat, after: Option<Key>)
    requires Assumed(u) && |Page(u, db, col, after)| == u.batch
    ensures var page := Page(u, db, col, after); page[|page| - 1].col == col && EndsPage(u, page[|page| - 1].key)
  {
    var page := Page(u, db, col, after);
    var n := |page| - 1;
    PageIs(u, db, col, after);
    forall i | 0 <= i < |page| ensures page[i].col == col { assert page[i] in page; }
    KeysApart(u, page[..n], col);
    KeysListed(u, page, n, col);
    assert FillsPage(u, KeysIn(page[..n]), page[n].key);
  }

  lemma KeysListed(u: Setup, list: seq<Slot>, n: nat, col: nat)
    requires Ascending(BySlot(u.listed), list) && n < |list| && forall i :: 0 <= i < |list| ==> list[i].col == col
    ensures forall k :: k in KeysIn(list[..n]) ==> u.listed(k, list[n].key)
  {
    forall s | s in list[..n] ensures u.listed(s.key, list[n].key) {
      var i: nat :| i < n && list[..n][i] == s;
      assert BySlot(u.listed)(list[i], list[n]);
    }
  }

  function KeysIn(list: seq<Slot>): set<Key> {
    set s | s in list :: s.key
  }

  lemma LastKeyIsNew(u: Setup, list: seq<Slot>, col: nat)
    requires StrictTotalOrder(u.listed) && Ascending(BySlot(u.listed), list) && list != []
    requires forall i :: 0 <= i < |list| ==> list[i].col == col
    ensures list[|list| - 1].key !in KeysIn(list[..|list| - 1])
  {
    var n := |list| - 1;
    forall s | s in list[..n] ensures s.key != list[n].key {
      var i :| 0 <= i < n && list[i] == s;
      assert BySlot(u.listed)(list[i], list[n]);
    }
  }

  lemma KeysGrow(list: seq<Slot>, s: Slot)
    requires s.key !in KeysIn(list)
    ensures |KeysIn(list + [s])| == |KeysIn(list)| + 1
  {
    assert forall t :: t in list + [s] <==> t in list || t == s;
    assert KeysIn(list + [s]) == KeysIn(list) + {s.key};
  }

  lemma {:induction false} KeysApart(u: Setup, list: seq<Slot>, col: nat)
    requires StrictTotalOrder(u.listed) && Ascending(BySlot(u.listed), list)
    requires forall i :: 0 <= i < |list| ==> list[i].col == col
    ensures |KeysIn(list)| == |list|
  {
    if list != [] {
      var n := |list| - 1;
      KeysApart(u, list[..n], col);
      LastKeyIsNew(u, list, col);
      KeysGrow(list[..n], list[n]);
      assert list == list[..n] + [list[n]];
    } else {
      assert KeysIn(list) == {};
    }
  }

  lemma LaterTransitive(u: Setup, w: World, x: World, y: World)
    requires Later(u, w, x) && Later(u, x, y)
    ensures Later(u, w, y)
  {
  }

  lemma PageLater(u: Setup, w: World, col: nat, after: Option<Key>)
    requires Assumed(u)
    ensures Later(u, w, RunPage(u, w, col, after))
  {
    var v := Interfere(u, w);
    PageIs(u, v.db, col, after);
    RunPageDrifts(u, w, col, after);
    AttemptsLater(u, v, Page(u, v.db, col, after), v.db);
  }

  lemma {:induction false} ColumnSettles(u: Setup, w: World, col: nat, after: Option<Key>)
    requires Assumed(u) && PagesAgree(u) && Settled(u, w, col, after)
    ensures Done(u, Column(u, w, col, after), col)
    decreases |Pending(u, w.db, col, after)|
  {
    var page, x := NextPage(u, w, col, after), RunPage(u, w, col, after);
    PageSettles(u, w, col, after);
    ColumnStep(u, w, col, after, page, x);
    if |page| >= u.batch {
      PageAdvances(u, w, col, after);
      ColumnSettles(u, x, col, Some(page[|page| - 1].key));
    }
  }

  lemma ColumnStep(u: Setup, w: World, col: nat, after: Option<Key>, page: seq<Slot>, x: World)
    requires Assumed(u) && page == NextPage(u, w, col, after) && x == RunPage(u, w, col, after)
    ensures Column(u, w, col, after) == if |page| < u.batch then x else Column(u, x, col, Some(page[|page| - 1].key))
  {
  }

  lemma {:induction false} ColumnLater(u: Setup, w: World, col: nat, after: Option<Key>)
    requires Assumed(u)
    ensures Later(u, w, Column(u, w, col, after))
    decreases |Pending(u, w.db, col, after)|
  {
    var page, x := NextPage(u, w, col, after), RunPage(u, w, col, after);
    PageLater(u, w, col, after);
    if |page| >= u.batch {
      var last := page[|page| - 1].key;
      PageAdvances(u, w, col, after);
      ColumnLater(u, x, col, Some(last));
      LaterTransitive(u, w, x, Column(u, x, col, Some(last)));
    }
  }

  lemma ColumnsSettle(u: Setup, w: World, cols: nat, col: nat)
    requires Assumed(u) && PagesAgree(u) && col < cols
    ensures Done(u, Columns(u, w, cols), col)
  {
    var inv := (x: World, i: nat) => i > col ==> Done(u, x, col);
    forall x, i: nat | inv(x, i) ensures inv(WholeColumn(u)(x, i), i + 1) {
      if i == col {
        ColumnSettles(u, x, i, None);
      } else if i > col {
        ColumnLater(u, x, i, None);
        StaysDone(u, x, Column(u, x, i, None), col);
      }
    }
    FoldKeeps(WholeColumn(u), inv, w, cols);
  }

  lemma StaysDone(u: Setup, w: World, x: World, col: nat)
    requires Assumed(u) && Done(u, w, col) && Later(u, w, x)
    ensures Done(u, x, col)
  {
  }

  /** When the run ends, every row still live under a retired key is reported failed. */
  lemma RotationComplete(u: Setup, db: Db, cols: nat, s: Slot)
    requires Assumed(u) && PagesAgree(u) && s.col < cols
    requires s in Rotated(u, db, cols).db && Retired(u, Rotated(u, db, cols).db[s])
    ensures s in Rotated(u, db, cols).failed
  {
    if u.ring.retired != {} {
      ColumnsSettle(u, Begin(db), cols, s.col);
      assert s == Slot(s.col, s.key);
    }
  }

  // ---------- with no other writer ----------

  ghost predicate Quiet(u: Setup) {
    forall n, db :: u.env(n, db) == db
  }

  /** The slots of `list` whose ciphertext in `db` no key opens, in order. */
  function Unopened(u: Setup, db: Db, list: seq<Slot>): seq<Slot>
    requires forall s :: s in list ==> s in db
  {
    if list == [] then []
    else
      var n := |list| - 1;
      Unopened(u, db, list[..n]) + if u.ring.open(db[list[n]].blob).None? then [list[n]] else []
  }

  lemma QuietInterfere(u: Setup, w: World)
    requires Assumed(u) && Quiet(u)
    ensures Interfere(u, w) == w.(tick := w.tick + 1)
  {
    var v := Interfere(u, w);
    assert u.env(w.tick, w.db) == w.db;
    assert v.foreign == w.foreign;
  }

  /** The rows outside `list` are as they were. */
  ghost predicate OnlyTouched(before: Db, after: Db, list: seq<Slot>) {
    after.Keys == before.Keys && forall s :: s in before && s !in list ==> after[s] == before[s]
  }

  ghost predicate Distinct(list: seq<Slot>) {
    forall i, j :: 0 <= i < j < |list| ==> list[i] != list[j]
  }

  /** What a list of rows adds to the result when nobody interferes. */
  ghost predicate Adds(u: Setup, w: World, x: World, db: Db, list: seq<Slot>)
    requires forall s :: s in list ==> s in db
  {
    && x.failed == w.failed + Unopened(u, db, list)
    && x.rekeyed + |Unopened(u, db, list)| == w.rekeyed + |list|
    && x.skipped == w.skipped
  }

  lemma {:induction false} QuietAttempts(u: Setup, w: World, page: seq<Slot>)
    requires Assumed(u) && Quiet(u) && Distinct(page)
    requires forall s :: s in page ==> s in w.db
    ensures var x := Attempts(u, w, page, w.db);
            Adds(u, w, x, w.db, page) && OnlyTouched(w.db, x.db, page)
  {
    if page != [] {
      var n := |page| - 1;
      var y := Attempts(u, w, page[..n], w.db);
      QuietAttempts(u, w, page[..n]);
      QuietInterfere(u, y);
      assert page[n] !in page[..n];
      assert y.db[page[n]] == w.db[page[n]];
    }
  }

  lemma AscendingIndex(less: (Slot, Slot) -> bool, list: seq<Slot>, i: nat, j: nat)
    requires StrictTotalOrder(less) && Ascending(less, list) && i < |list| && j < |list|
    ensures less(list[i], list[j]) <==> i < j
    ensures list[i] == list[j] <==> i == j
  {
  }

  lemma {:induction false} AscendingUnique(less: (Slot, Slot) -> bool, a: seq<Slot>, b: seq<Slot>)
    requires StrictTotalOrder(less) && Ascending(less, a) && Ascending(less, b)
    requires forall s :: s in a <==> s in b
    ensures a == b
  {
    assert |a| > 0 ==> a[0] in a && a[0] in b;
    assert |b| > 0 ==> b[0] in b && b[0] in a;
    if |a| > 0 {
      var i :| 0 <= i < |b| && b[i] == a[0];
      var j :| 0 <= j < |a| && a[j] == b[0];
      AscendingIndex(less, a, 0, j);
      AscendingIndex(less, b, 0, i);
      assert a[0] == b[0];
      TailMembers(less, a);
      TailMembers(less, b);
      AscendingUnique(less, a[1..], b[1..]);
    }
  }

  lemma TailMembers(less: (Slot, Slot) -> bool, a: seq<Slot>)
    requires StrictTotalOrder(less) && Ascending(less, a) && a != []
    ensures Ascending(less, a[1..]) && forall s :: s in a[1..] <==> s in a && s != a[0]
  {
    forall s | s in a && s != a[0] ensures s in a[1..] {
      var i :| 0 <= i < |a| && a[i] == s;
      assert a[1..][i - 1] == s;
    }
  }

  /** The rows still pending, in the order of the bound. */
  function Backlog(u: Setup, db: Db, col: nat, after: Option<Key>): seq<Slot>
    requires Assumed(u)
  {
    BySlotTotal(u.bound);
    Listing(BySlot(u.bound), Pending(u, db, col, after))
  }

  lemma BacklogIs(u: Setup, db: Db, col: nat, after: Option<Key>)
    requires Assumed(u)
    ensures Ascending(BySlot(u.bound), Backlog(u, db, col, after)) && Distinct(Backlog(u, db, col, after))
    ensures forall s :: s in Backlog(u, db, col, after) <==> s in Pending(u, db, col, after)
  {
    BySlotTotal(u.bound);
    ListingIs(BySlot(u.bound), Pending(u, db, col, after));
  }

  lemma PageIsPrefix(u: Setup, db: Db, col: nat, after: Option<Key>)
    requires Assumed(u) && OrdersAgree(u)
    ensures var all := Backlog(u, db, col, after);
            Page(u, db, col, after) == if |all| < u.batch then all else all[..u.batch]
  {
    var pending := Pending(u, db, col, after);
    BySlotTotal(u.bound);
    BySlotTotal(u.listed);
    ListingIs(BySlot(u.bound), pending);
    ListingIs(BySlot(u.listed), pending);
    var a := Listing(BySlot(u.listed), pending);
    forall i, j | 0 <= i < j < |a| ensures BySlot(u.bound)(a[i], a[j]) {
      assert BySlot(u.listed)(a[i], a[j]);
      assert u.listed(a[i].key, a[j].key) == u.bound(a[i].key, a[j].key);
    }
    AscendingUnique(BySlot(u.bound), a, Listing(BySlot(u.bound), pending));
    assert |a| == u.batch ==> a[..u.batch] == a;
  }

  /** After a full page the backlog is what the page left of it. */
  lemma BacklogShortens(u: Setup, before: Db, after: Db, col: nat, from: Option<Key>, all: seq<Slot>)
    requires Assumed(u) && all == Backlog(u, before, col, from) && |all| >= u.batch
    requires OnlyTouched(before, after, all[..u.batch]) && Drifts(u, before, after)
    ensures Backlog(u, after, col, Some(all[u.batch - 1].key)) == all[u.batch..]
  {
    var last, rest := all[u.batch - 1], all[u.batch..];
    BySlotTotal(u.bound);
    BacklogIs(u, before, col, from);
    BacklogIs(u, after, col, Some(last.key));
    forall s | s in rest ensures s in Pending(u, after, col, Some(last.key)) {
      RestPending(u, before, after, col, from, all, s);
    }
    forall s | s in Pending(u, after, col, Some(last.key)) ensures s in rest {
      PendingRest(u, before, after, col, from, all, s);
    }
    AscendingUnique(BySlot(u.bound), Backlog(u, after, col, Some(last.key)), rest);
  }

  lemma RestPending(u: Setup, before: Db, after: Db, col: nat, from: Option<Key>, all: seq<Slot>, s: Slot)
    requires Assumed(u) && all == Backlog(u, before, col, from) && |all| >= u.batch
    requires OnlyTouched(before, after, all[..u.batch]) && s in all[u.batch..]
    ensures s in Pending(u, after, col, Some(all[u.batch - 1].key))
    ensures s in before && s !in all[..u.batch]
  {
    BySlotTotal(u.bound);
    BacklogIs(u, before, col, from);
    var i :| u.batch <= i < |all| && all[i] == s;
    AscendingIndex(BySlot(u.bound), all, u.batch - 1, i);
    assert all[u.batch - 1] in all && s in all;
    forall j | 0 <= j < u.batch ensures all[j] != s {
      AscendingIndex(BySlot(u.bound), all, j, i);
    }
  }

  /** What is pending past a pending row was pending before it. */
  lemma PendingEarlier(u: Setup, before: Db, after: Db, col: nat, from: Option<Key>, last: Slot, s: Slot)
    requires Assumed(u) && Drifts(u, before, after)
    requires last in Pending(u, before, col, from) && s in Pending(u, after, col, Some(last.key))
    ensures s in Pending(u, before, col, from) && u.bound(last.key, s.key)
  {
    assert from.Some? ==> u.bound(from.value, last.key);
  }

  lemma PendingRest(u: Setup, before: Db, after: Db, col: nat, from: Option<Key>, all: seq<Slot>, s: Slot)
    requires Assumed(u) && all == Backlog(u, before, col, from) && |all| >= u.batch
    requires Drifts(u, before, after) && s in Pending(u, after, col, Some(all[u.batch - 1].key))
    ensures s in all[u.batch..]
  {
    var last := all[u.batch - 1];
    BySlotTotal(u.bound);
    BacklogIs(u, before, col, from);
    assert last in all;
    PendingEarlier(u, before, after, col, from, last, s);
    var i :| 0 <= i < |all| && all[i] == s;
    AscendingIndex(BySlot(u.bound), all, u.batch - 1, i);
    assert all[u.batch..][i - u.batch] == s;
  }

  lemma {:induction false} UnopenedSplit(u: Setup, db: Db, a: seq<Slot>, b: seq<Slot>)
    requires forall s :: s in a + b ==> s in db
    ensures (forall s :: s in a ==> s in db) && (forall s :: s in b ==> s in db)
    ensures Unopened(u, db, a + b) == Unopened(u, db, a) + Unopened(u, db, b)
  {
    assert forall s :: s in a || s in b ==> s in a + b;
    if b == [] {
      assert a + b == a;
    } else {
      var n := |b| - 1;
      assert (a + b)[..|a + b| - 1] == a + b[..n];
      UnopenedSplit(u, db, a, b[..n]);
    }
  }

  lemma {:induction false} UnopenedSame(u: Setup, db: Db, db': Db, list: seq<Slot>)
    requires forall s :: s in list ==> s in db && s in db' && db[s] == db'[s]
    ensures Unopened(u, db, list) == Unopened(u, db', list)
  {
    if list != [] { UnopenedSame(u, db, db', list[..|list| - 1]); }
  }

  /** What `list` amounts to: its rows are there, they are added to the result, nothing else moved. */
  ghost predicate Processes(u: Setup, w: World, x: World, list: seq<Slot>) {
    && (forall s :: s in list ==> s in w.db)
    && Adds(u, w, x, w.db, list) && OnlyTouched(w.db, x.db, list)
  }

  lemma TouchedBoth(before: Db, middle: Db, after: Db, page: seq<Slot>, rest: seq<Slot>)
    requires OnlyTouched(before, middle, page) && OnlyTouched(middle, after, rest)
    ensures OnlyTouched(before, after, page + rest)
  {
    forall s | s in before && s !in page + rest ensures after[s] == before[s] {
      assert s !in page && s !in rest;
    }
  }

  lemma ProcessesBoth(u: Setup, w: World, x: World, y: World, page: seq<Slot>, rest: seq<Slot>)
    requires Processes(u, w, x, page) && Processes(u, x, y, rest)
    requires forall s :: s in rest ==> s !in page
    ensures Processes(u, w, y, page + rest)
  {
    TouchedBoth(w.db, x.db, y.db, page, rest);
    assert forall s :: s in rest ==> s in w.db && w.db[s] == x.db[s];
    AddsBoth(u, w, x, y, page, rest);
  }

  lemma AddsBoth(u: Setup, w: World, x: World, y: World, page: seq<Slot>, rest: seq<Slot>)
    requires (forall s :: s in page ==> s in w.db) && Adds(u, w, x, w.db, page)
    requires (forall s :: s in rest ==> s in x.db) && Adds(u, x, y, x.db, rest)
    requires forall s :: s in rest ==> s in w.db && w.db[s] == x.db[s]
    ensures (forall s :: s in page + rest ==> s in w.db) && Adds(u, w, y, w.db, page + rest)
  {
    UnopenedSplit(u, w.db, page, rest);
    UnopenedSame(u, w.db, x.db, rest);
  }

  lemma QuietPage(u: Setup, w: World, col: nat, after: Option<Key>)
    requires Assumed(u) && Quiet(u) && OrdersAgree(u)
    ensures var all := Backlog(u, w.db, col, after); var page := NextPage(u, w, col, after);
            && page == (if |all| < u.batch then all else all[..u.batch])
            && Processes(u, w, RunPage(u, w, col, after), page)
  {
    QuietInterfere(u, w);
    BacklogIs(u, w.db, col, after);
    PageIsPrefix(u, w.db, col, after);
    PageIs(u, w.db, col, after);
    QuietAttempts(u, Interfere(u, w), NextPage(u, w, col, after));
  }

  /** A full page: what it processed and what it left. */
  lemma QuietTurn(u: Setup, w: World, x: World, col: nat, after: Option<Key>, all: seq<Slot>, page: seq<Slot>)
    requires Assumed(u) && Drifts(u, w.db, x.db) && all == Backlog(u, w.db, col, after)
    requires |all| >= u.batch && page == all[..u.batch] && Processes(u, w, x, page)
    ensures page[|page| - 1] == all[u.batch - 1]
    ensures Backlog(u, x.db, col, Some(page[|page| - 1].key)) == all[u.batch..]
  {
    BacklogShortens(u, w.db, x.db, col, after, all);
  }

  /** One column, nobody interfering: each pending row is attempted once, in key order. */
  lemma {:induction false} QuietColumn(u: Setup, w: World, col: nat, after: Option<Key>, all: seq<Slot>)
    requires Assumed(u) && Quiet(u) && OrdersAgree(u) && all == Backlog(u, w.db, col, after)
    ensures Processes(u, w, Column(u, w, col, after), all)
    decreases |Pending(u, w.db, col, after)|, 1
  {
    var page, x := NextPage(u, w, col, after), RunPage(u, w, col, after);
    QuietPage(u, w, col, after);
    ColumnStep(u, w, col, after, page, x);
    if |page| >= u.batch { QuietMore(u, w, x, col, after, all, page); }
  }

  lemma {:induction false} QuietMore(
    u: Setup, w: World, x: World, col: nat, after: Option<Key>, all: seq<Slot>, page: seq<Slot>)
    requires Assumed(u) && Quiet(u) && OrdersAgree(u) && all == Backlog(u, w.db, col, after)
    requires |all| >= u.batch && page == all[..u.batch] && Processes(u, w, x, page)
    requires page == NextPage(u, w, col, after) && x == RunPage(u, w, col, after)
    ensures Processes(u, w, Column(u, x, col, Some(page[|page| - 1].key)), all)
    decreases |Pending(u, w.db, col, after)|, 0
  {
    var last := page[|page| - 1].key;
    RunPageDrifts(u, w, col, after);
    QuietTurn(u, w, x, col, after, all, page);
    PageAdvances(u, w, col, after);
    QuietColumn(u, x, col, Some(last), all[u.batch..]);
    QuietStep(u, w, x, Column(u, x, col, Some(last)), col, after, all);
  }

  lemma QuietStep(u: Setup, w: World, x: World, y: World, col: nat, after: Option<Key>, all: seq<Slot>)
    requires Assumed(u) && all == Backlog(u, w.db, col, after) && |all| >= u.batch
    requires Processes(u, w, x, all[..u.batch]) && Processes(u, x, y, all[u.batch..])
    ensures Processes(u, w, y, all)
  {
    var page, rest := all[..u.batch], all[u.batch..];
    forall s | s in rest ensures s !in page {
      RestPending(u, w.db, x.db, col, after, all, s);
    }
    assert all == page + rest;
    ProcessesBoth(u, w, x, y, page, rest);
  }

  /** The backlog of a column depends on the rows of that column, and not on the batch size. */
  lemma BacklogSame(u: Setup, v: Setup, db: Db, db': Db, col: nat)
    requires Assumed(u) && Assumed(v) && u.ring == v.ring && u.bound == v.bound
    requires forall s: Slot :: s.col == col ==> (s in db <==> s in db') && (s in db ==> db[s] == db'[s])
    ensures Backlog(u, db, col, None) == Backlog(v, db', col, None)
  {
    assert Pending(u, db, col, None) == Pending(v, db', col, None);
  }

  /** The initially retired rows no key opens, column by column in key order. */
  function ExpectedFailed(u: Setup, db: Db, cols: nat): seq<Slot>
    requires Assumed(u)
  {
    if cols == 0 then []
    else
      BacklogIs(u, db, cols - 1, None);
      ExpectedFailed(u, db, cols - 1) + Unopened(u, db, Backlog(u, db, cols - 1, None))
  }

  function RetiredRows(u: Setup, db: Db, cols: nat): nat
    requires Assumed(u)
  {
    if cols == 0 then 0 else RetiredRows(u, db, cols - 1) + |Backlog(u, db, cols - 1, None)|
  }

  ghost predicate QuietSoFar(u: Setup, db: Db, w: World, cols: nat)
    requires Assumed(u)
  {
    && w.failed == ExpectedFailed(u, db, cols)
    && w.rekeyed + |w.failed| == RetiredRows(u, db, cols) && w.skipped == 0
    && w.db.Keys == db.Keys
    && forall s :: s in db && s.col >= cols ==> w.db[s] == db[s]
  }

  lemma QuietNext(u: Setup, db: Db, w: World, col: nat)
    requires Assumed(u) && Quiet(u) && OrdersAgree(u) && QuietSoFar(u, db, w, col)
    ensures QuietSoFar(u, db, Column(u, w, col, None), col + 1)
  {
    var all := Backlog(u, w.db, col, None);
    BacklogIs(u, w.db, col, None);
    BacklogSame(u, u, w.db, db, col);
    UnopenedSame(u, w.db, db, all);
    QuietColumn(u, w, col, None, all);
  }

  /**
    With no other writer every initially retired row is attempted once: it is failed, in key order,
    when no key opens it, and rekeyed otherwise; none is skipped.
   */
  lemma QuietRun(u: Setup, db: Db, cols: nat)
    requires Assumed(u) && Quiet(u) && OrdersAgree(u)
    ensures QuietSoFar(u, db, Columns(u, Begin(db), cols), cols)
  {
    var inv := (x: World, i: nat) => Assumed(u) && QuietSoFar(u, db, x, i);
    forall x, i: nat | inv(x, i) ensures inv(WholeColumn(u)(x, i), i + 1) {
      QuietNext(u, db, x, i);
    }
    FoldKeeps(WholeColumn(u), inv, Begin(db), cols);
  }

  lemma {:induction false} ExpectedSame(u: Setup, v: Setup, db: Db, cols: nat)
    requires Assumed(u) && Assumed(v) && u.ring == v.ring && u.bound == v.bound
    ensures ExpectedFailed(u, db, cols) == ExpectedFailed(v, db, cols)
    ensures RetiredRows(u, db, cols) == RetiredRows(v, db, cols)
  {
    if cols > 0 {
      ExpectedSame(u, v, db, cols - 1);
      ColumnExpected(u, v, db, cols - 1, Backlog(u, db, cols - 1, None));
    }
  }

  lemma ColumnExpected(u: Setup, v: Setup, db: Db, col: nat, all: seq<Slot>)
    requires Assumed(u) && Assumed(v) && u.ring == v.ring && u.bound == v.bound && all == Backlog(u, db, col, None)
    ensures all == Backlog(v, db, col, None) && forall s :: s in all ==> s in db
    ensures Unopened(u, db, all) == Unopened(v, db, all)
  {
    BacklogSame(u, v, db, db, col);
    BacklogIs(u, db, col, None);
    UnopenedRing(u, v, db, all);
  }

  lemma {:induction false} UnopenedRing(u: Setup, v: Setup, db: Db, list: seq<Slot>)
    requires u.ring == v.ring && forall s :: s in list ==> s in db
    ensures Unopened(u, db, list) == Unopened(v, db, list)
  {
    if list != [] { UnopenedRing(u, v, db, list[..|list| - 1]); }
  }

  /** The result does not depend on the batch size. */
  lemma BatchIrrelevant(u: Setup, batch: nat, db: Db, cols: nat)
    requires Assumed(u) && Quiet(u) && OrdersAgree(u) && batch >= 1
    ensures Assumed(u.(batch := batch))
    ensures var w, x := Rotated(u, db, cols), Rotated(u.(batch := batch), db, cols);
            w.rekeyed == x.rekeyed && w.skipped == x.skipped == 0 && w.failed == x.failed
  {
    var v := u.(batch := batch);
    AssumedAnyBatch(u, batch);
    QuietRun(u, db, cols);
    QuietRun(v, db, cols);
    ExpectedSame(u, v, db, cols);
  }

  // ---------- why the two orders must agree ----------

  /** Rotating `db`'s first column misses no row. */
  ghost predicate Covers(u: Setup, db: Db)
    requires Assumed(u)
  {
    Done(u, Column(u, Begin(db), 0, None), 0)
  }

  /** A row the cursor has passed stays as it is. */
  lemma {:induction false} PassedStays(u: Setup, w: World, col: nat, after: Option<Key>, s: Slot)
    requires Assumed(u) && Quiet(u) && s in w.db && s !in w.failed && !Past(u, after, s.key)
    ensures var x := Column(u, w, col, after); s in x.db && x.db[s] == w.db[s] && s !in x.failed
    decreases |Pending(u, w.db, col, after)|
  {
    var page, x := NextPage(u, w, col, after), RunPage(u, w, col, after);
    QuietInterfere(u, w);
    PageIs(u, w.db, col, after);
    assert s !in page;
    OthersStay(u, w, col, after, s);
    ColumnStep(u, w, col, after, page, x);
    if |page| >= u.batch {
      var last := page[|page| - 1];
      assert last in page && Past(u, after, last.key);
      PageAdvances(u, w, col, after);
      PassedStays(u, x, col, Some(last.key), s);
    }
  }

  /** A row that is not on the page stays as it is. */
  lemma OthersStay(u: Setup, w: World, col: nat, after: Option<Key>, s: Slot)
    requires Assumed(u) && Quiet(u) && s in w.db && s !in w.failed && s !in NextPage(u, w, col, after)
    ensures var x := RunPage(u, w, col, after); s in x.db && x.db[s] == w.db[s] && s !in x.failed
  {
    var page := NextPage(u, w, col, after);
    QuietInterfere(u, w);
    PageIs(u, w.db, col, after);
    BySlotTotal(u.listed);
    assert Distinct(page);
    QuietAttempts(u, Interfere(u, w), page);
    UnopenedWithin(u, w.db, page, s);
  }

  lemma {:induction false} UnopenedWithin(u: Setup, db: Db, list: seq<Slot>, s: Slot)
    requires (forall t :: t in list ==> t in db) && s !in list
    ensures s !in Unopened(u, db, list)
  {
    if list != [] { UnopenedWithin(u, db, list[..|list| - 1], s); }
  }

  /** The rows of these keys in column 0, all under the key `kid`. */
  function RowsOf(keys: set<Key>, kid: string): Db {
    map s | s in FirstColumn(keys) :: Row(Envelope(kid, ""), true)
  }

  function FirstColumn(keys: set<Key>): set<Slot> {
    set k | k in keys :: Slot(0, k)
  }

  /** A page that ends with `a` leaves `b`, listed after it, to the next; the bound then excludes `b`. */
  lemma DisagreementMisses(u: Setup, a: Key, b: Key, earlier: set<Key>, kid: string) returns (db: Db)
    requires Assumed(u) && Quiet(u) && kid in u.ring.retired
    requires u.listed(a, b) && !u.bound(a, b)
    requires FillsPage(u, earlier, a)
    ensures !Covers(u, db)
  {
    db := RowsOf(earlier + {a, b}, kid);
    var w, s := Begin(db), Slot(0, b);
    QuietInterfere(u, w);
    var page := NextPage(u, w, 0, None);
    FirstPage(u, db, a, b, earlier, kid);
    OthersStay(u, w, 0, None, s);
    var x := RunPage(u, w, 0, None);
    ColumnStep(u, w, 0, None, page, x);
    PassedStays(u, x, 0, Some(a), s);
  }

  lemma FirstPage(u: Setup, db: Db, a: Key, b: Key, earlier: set<Key>, kid: string)
    requires Assumed(u) && kid in u.ring.retired && db == RowsOf(earlier + {a, b}, kid)
    requires u.listed(a, b) && FillsPage(u, earlier, a)
    ensures var page := Page(u, db, 0, None);
            |page| == u.batch && page[|page| - 1] == Slot(0, a) && Slot(0, b) !in page
  {
    var less, pending := BySlot(u.listed), Pending(u, db, 0, None);
    BySlotTotal(u.listed);
    ListingIs(less, pending);
    var all := Listing(less, pending);
    forall s ensures s in all <==> s.col == 0 && (s.key in earlier || s.key == a || s.key == b) {
      assert s in pending <==> s in db;
    }
    FirstRows(u, all, a, b, earlier);
  }

  lemma FirstRows(u: Setup, all: seq<Slot>, a: Key, b: Key, earlier: set<Key>)
    requires StrictTotalOrder(u.listed) && Ascending(BySlot(u.listed), all)
    requires forall s :: s in all <==> s.col == 0 && (s.key in earlier || s.key == a || s.key == b)
    requires u.listed(a, b) && FillsPage(u, earlier, a)
    ensures |all| > u.batch && all[u.batch - 1] == Slot(0, a) && Slot(0, b) !in all[..u.batch]
  {
    BySlotTotal(u.listed);
    var i := IndexOf(all, Slot(0, a));
    var j := IndexOf(all, Slot(0, b));
    BeforeLast(u, all, i, earlier, b);
    AscendingIndex(BySlot(u.listed), all, i, j);
    forall k | 0 <= k <= i ensures all[k] != Slot(0, b) { AscendingIndex(BySlot(u.listed), all, k, j); }
  }

  lemma IndexOf(list: seq<Slot>, s: Slot) returns (i: nat)
    requires s in list
    ensures i < |list| && list[i] == s
  {
    i :| i < |list| && list[i] == s;
  }

  /** The rows listed before the one at `i` are those with an earlier key. */
  lemma BeforeLast(u: Setup, all: seq<Slot>, i: nat, earlier: set<Key>, b: Key)
    requires StrictTotalOrder(u.listed) && Ascending(BySlot(u.listed), all) && i < |all|
    requires forall s :: s in all <==> s.col == 0 && (s.key in earlier || s.key == all[i].key || s.key == b)
    requires u.listed(all[i].key, b) && forall k :: k in earlier ==> u.listed(k, all[i].key)
    ensures i == |earlier|
  {
    forall j | 0 <= j < |all| ensures all[j].col == 0 { assert all[j] in all; }
    forall k | k in KeysIn(all[..i]) ensures k in earlier {
      var j :| 0 <= j < i && all[j].key == k;
      assert all[j] in all && BySlot(u.listed)(all[j], all[i]);
    }
    forall k | k in earlier ensures k in KeysIn(all[..i]) {
      var j := IndexOf(all, Slot(0, k));
      AscendingIndex(BySlot(u.listed), all, j, i);
      assert all[..i][j] == all[j];
    }
    assert KeysIn(all[..i]) == earlier;
    KeysApart(u, all[..i], 0);
  }

  /**
    Keyset pagination misses no row, whatever the rows, exactly when the bound excludes nothing listed
    after a key that can end a full page.
   */
  lemma CoverageNeedsPagesAgree(u: Setup, kid: string)
    requires Assumed(u) && Quiet(u) && kid in u.ring.retired
    ensures (forall db :: Covers(u, db)) <==> PagesAgree(u)
  {
    if PagesAgree(u) {
      forall db ensures Covers(u, db) { ColumnSettles(u, Begin(db), 0, None); }
    } else {
      var a, b :| u.listed(a, b) && !u.bound(a, b) && EndsPage(u, a);
      var earlier :| FillsPage(u, earlier, a);
      var db := DisagreementMisses(u, a, b, earlier, kid);
      assert !Covers(u, db);
    }
  }

  lemma PagesAgreeIs(u: Setup)
    requires Assumed(u)
    ensures OrdersAgree(u) ==> PagesAgree(u)
    ensures u.batch == 1 && PagesAgree(u) ==> OrdersAgree(u)
  {
    if u.batch == 1 && PagesAgree(u) {
      forall a, b ensures u.listed(a, b) == u.bound(a, b) {
        assert FillsPage(u, {}, a) && FillsPage(u, {}, b);
        assert EndsPage(u, a) && EndsPage(u, b);
      }
    }
  }

  lemma AssumedAnyBatch(u: Setup, batch: nat)
    requires Assumed(u) && batch >= 1
    ensures Assumed(u.(batch := batch))
    ensures Quiet(u) ==> Quiet(u.(batch := batch))
    ensures OrdersAgree(u) ==> OrdersAgree(u.(batch := batch))
  {
    var v := u.(batch := batch);
    forall n, d ensures Drifts(v, d, v.env(n, d)) { assert Drifts(u, d, u.env(n, d)); }
    forall p, n ensures Active(v, v.ring.seal(p, n)) { assert Active(u, u.ring.seal(p, n)); }
  }

  ghost predicate CoversInBatches(u: Setup, batch: nat, db: Db)
    requires Assumed(u)
  {
    batch >= 1 ==> (AssumedAnyBatch(u, batch); Covers(u.(batch := batch), db))
  }

  /**
    It misses no row, whatever the rows and whatever the batch size, exactly when the order of the
    listing is the order of the bound.
   */
  lemma CoverageNeedsAgreement(u: Setup, kid: string)
    requires Assumed(u) && Quiet(u) && kid in u.ring.retired
    ensures (forall batch, db :: CoversInBatches(u, batch, db)) <==> OrdersAgree(u)
  {
    if OrdersAgree(u) {
      forall batch, db | batch >= 1 ensures CoversInBatches(u, batch, db) {
        AssumedAnyBatch(u, batch);
        PagesAgreeIs(u.(batch := batch));
        ColumnSettles(u.(batch := batch), Begin(db), 0, None);
      }
    } else {
      var v := u.(batch := 1);
      AssumedAnyBatch(u, 1);
      PagesAgreeIs(v);
      CoverageNeedsPagesAgree(v, kid);
      var db :| !Covers(v, db);
      assert !CoversInBatches(u, 1, db);
    }
  }

  // ---------- the inventory ----------

  /** The ciphertexts of a column under one kid (none, for a text that is no envelope), and samples of them. */
  datatype KidCount = KidCount(kid: Option<string>, count: nat, samples: seq<Cipher>)

  predicate Opens(ring: Ring, c: Cipher) {
    ring.open(c).Some?
  }

  predicate SomeOpens(ring: Ring, samples: seq<Cipher>) {
    exists k :: 0 <= k < |samples| && Opens(ring, samples[k])
  }

  predicate AllOpen(ring: Ring, samples: seq<Cipher>) {
    forall k :: 0 <= k < |samples| ==> Opens(ring, samples[k])
  }

  /** Every ciphertext is under the active kid, and its key opens a sample of each column. */
  predicate Clean(counts: seq<KidCount>, ring: Ring) {
    forall c :: c in counts ==> c.kid == Some(ring.active) && SomeOpens(ring, c.samples)
  }

  method ReportCounts(counts: seq<KidCount>, ring: Ring) returns (clean: bool)
    ensures clean <==> Clean(counts, ring)
  {
    clean := true;
    for k := 0 to |counts|
      invariant clean <==> Clean(counts[..k], ring)
    {
      var c := counts[k];
      assert forall x :: x in counts[..k + 1] <==> x in counts[..k] || x == c;
      if c.kid != Some(ring.active) { clean := false; }
      if c.kid == Some(ring.active) || (c.kid.Some? && c.kid.value in ring.retired) {
        if !SomeOpens(ring, c.samples) { clean := false; }
      }
    }
    assert counts[..|counts|] == counts;
  }

  /**
    That a sample opens is not that every sample opens: the two agree, whatever the samples, exactly
    when there is one sample to a count.
   */
  lemma OneSampleIsEverySample(ring: Ring, good: Cipher, bad: Cipher, n: nat)
    requires Opens(ring, good) && !Opens(ring, bad)
    ensures (forall samples :: |samples| == n ==> (SomeOpens(ring, samples) <==> AllOpen(ring, samples))) <==> n == 1
  {
    var mixed := seq(n, k => if k == 0 then good else bad);
    assert n > 1 ==> Opens(ring, mixed[0]) && !Opens(ring, mixed[1]);
    assert n != 1 ==> SomeOpens(ring, mixed) != AllOpen(ring, mixed);
    assert |mixed| == n;
    if n == 1 {
      forall samples: seq<Cipher> | |samples| == 1 ensures SomeOpens(ring, samples) <==> AllOpen(ring, samples) {
        assert Opens(ring, samples[0]) ==> SomeOpens(ring, samples);
      }
    }
  }

  function KidOf(c: Cipher): Option<string> {
    if c.Envelope? then Some(c.kid) else None
  }

  predicate LiveUnder(db: Db, kid: Option<string>) {
    exists s :: s in db && db[s].live && KidOf(db[s].blob) == kid
  }

  /** One count, at least, to each kid that live rows are stored under, and to no other. */
  ghost predicate Inventories(counts: seq<KidCount>, db: Db) {
    && (forall s :: s in db && db[s].live ==> exists c :: c in counts && c.kid == KidOf(db[s].blob))
    && (forall c :: c in counts ==> LiveUnder(db, c.kid))
  }

  lemma RotatedDrifts(u: Setup, db: Db, cols: nat)
    requires Assumed(u)
    ensures Drifts(u, db, Rotated(u, db, cols).db)
  {
    var inv := (x: World, i: nat) => Drifts(u, db, x.db);
    forall x, i: nat | inv(x, i) ensures inv(WholeColumn(u)(x, i), i + 1) {
      ColumnLater(u, x, i, None);
      assert Drifts(u, x.db, Column(u, x, i, None).db);
    }
    FoldKeeps(WholeColumn(u), inv, Begin(db), cols);
  }

  /**
    The inventory after a rotation whose stored samples open is clean exactly when no row reported
    failed is still live under a retired key: after a run without failures the keys can be dropped.
   */
  lemma CleanAfterRotation(u: Setup, db: Db, cols: nat, counts: seq<KidCount>)
    requires Assumed(u) && PagesAgree(u)
    requires forall s :: s in db && db[s].live ==> s.col < cols && (Active(u, db[s].blob) || Retired(u, db[s]))
    requires Inventories(counts, Rotated(u, db, cols).db)
    requires forall c :: c in counts ==> SomeOpens(u.ring, c.samples)
    ensures var w := Rotated(u, db, cols);
            Clean(counts, u.ring) <==> forall s :: s in w.failed && s in w.db ==> !Retired(u, w.db[s])
  {
    var w := Rotated(u, db, cols);
    RotatedDrifts(u, db, cols);
    forall s | s in w.db && w.db[s].live ensures Active(u, w.db[s].blob) || (Retired(u, w.db[s]) && s in w.failed) {
      if !Active(u, w.db[s].blob) {
        assert s in db && w.db[s].blob == db[s].blob && db[s].live;
        RotationComplete(u, db, cols, s);
      }
    }
    if s :| s in w.failed && s in w.db && Retired(u, w.db[s]) {
      var c :| c in counts && c.kid == KidOf(w.db[s].blob);
    } else {
      forall c | c in counts ensures c.kid == Some(u.ring.active) {
        var s :| s in w.db && w.db[s].live && KidOf(w.db[s].blob) == c.kid;
      }
    }
  }
}
