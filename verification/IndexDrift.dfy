/** The drift check of scripts/check-index-drift.ts: does a database carry what its migration declared? */
module IndexDrift {
  import opened Orders

  datatype Entry = Entry(idx: nat, when: int, tag: string)

  /** A table of a snapshot; `notNull` may be missing from a column. */
  datatype Table = Table(schema: Option<string>, columns: map<string, Option<bool>>, indexes: set<string>)

  /** A snapshot: its tables under their keys, in file order. */
  datatype Snapshot = Snapshot(tables: seq<(string, Table)>)

  datatype IndexRow = IndexRow(index: string, table: string)
  datatype ColumnRow = ColumnRow(table: string, column: string, notNull: bool)

  datatype Input = Input(
    journal: seq<Entry>,
    trackingTableExists: bool,
    watermark: Option<int>,
    indexes: seq<IndexRow>,
    columns: seq<ColumnRow>,
    constraintBacked: set<string>,
    moduleTables: set<string>,
    snapshots: nat -> Snapshot)

  // ---------- what is declared ----------

  predicate IsPublic(t: Table) {
    t.schema.None? || t.schema.value == "" || t.schema.value == "public"
  }

  /** The part of a key behind its first dot. */
  function Bare(key: string): string {
    if key == [] then [] else if '.' !in key then key else if key[0] == '.' then key[1..] else Bare(key[1..])
  }

  function NotNulls(columns: map<string, Option<bool>>): map<string, bool> {
    map name | name in columns :: columns[name] == Some(true)
  }

  function DeclaredIndexes(tables: seq<(string, Table)>): set<string> {
    if tables == [] then {}
    else
      var last := tables[|tables| - 1].1;
      DeclaredIndexes(tables[..|tables| - 1]) + if IsPublic(last) then last.indexes else {}
  }

  function DeclaredColumns(tables: seq<(string, Table)>): map<string, map<string, bool>> {
    if tables == [] then map[]
    else
      var last := tables[|tables| - 1];
      var before := DeclaredColumns(tables[..|tables| - 1]);
      if IsPublic(last.1) then before[Bare(last.0) := NotNulls(last.1.columns)] else before
  }

  /** The public tables by name. */
  function DeclaredTables(tables: seq<(string, Table)>): set<string> {
    if tables == [] then {}
    else
      var last := tables[|tables| - 1];
      DeclaredTables(tables[..|tables| - 1]) + if IsPublic(last.1) then {Bare(last.0)} else {}
  }

  /** The two halves of the check never disagree about which tables are declared. */
  lemma {:induction false} DeclaredTablesHaveColumns(tables: seq<(string, Table)>)
    ensures DeclaredTables(tables) == DeclaredColumns(tables).Keys
  {
    if tables != [] { DeclaredTablesHaveColumns(tables[..|tables| - 1]); }
  }

  /** An index is declared exactly by the public tables that list it. */
  lemma {:induction false} DeclaredIndexesAre(tables: seq<(string, Table)>, name: string)
    ensures name in DeclaredIndexes(tables) <==>
      exists k :: 0 <= k < |tables| && IsPublic(tables[k].1) && name in tables[k].1.indexes
  {
    if tables != [] {
      var n := |tables| - 1;
      DeclaredIndexesAre(tables[..n], name);
      assert forall k :: 0 <= k < n ==> tables[..n][k] == tables[k];
    }
  }

  predicate DistinctNames(tables: seq<(string, Table)>) {
    forall j, k :: 0 <= j < k < |tables| && IsPublic(tables[j].1) && IsPublic(tables[k].1) ==>
      Bare(tables[j].0) != Bare(tables[k].0)
  }

  /** With one public table to a name, every column of every public table is declared, `NOT NULL` only if it says so. */
  lemma {:induction false} DeclaredColumnsAre(tables: seq<(string, Table)>, k: nat)
    requires DistinctNames(tables) && k < |tables| && IsPublic(tables[k].1)
    ensures Bare(tables[k].0) in DeclaredColumns(tables)
    ensures DeclaredColumns(tables)[Bare(tables[k].0)] == NotNulls(tables[k].1.columns)
  {
    var n := |tables| - 1;
    if k < n {
      assert DistinctNames(tables[..n]) by {
        assert forall j :: 0 <= j < n ==> tables[..n][j] == tables[j];
      }
      DeclaredColumnsAre(tables[..n], k);
    }
  }

  method CollectIndexes(tables: seq<(string, Table)>) returns (names: set<string>)
    ensures names == DeclaredIndexes(tables)
  {
    names := {};
    for k := 0 to |tables|
      invariant names == DeclaredIndexes(tables[..k])
    {
      assert tables[..k + 1][..k] == tables[..k];
      if !IsPublic(tables[k].1) { continue; }
      names := names + tables[k].1.indexes;
    }
    assert tables[..|tables|] == tables;
  }

  method CollectTables(tables: seq<(string, Table)>) returns (names: set<string>)
    ensures names == DeclaredTables(tables)
  {
    names := {};
    for k := 0 to |tables|
      invariant names == DeclaredTables(tables[..k])
    {
      assert tables[..k + 1][..k] == tables[..k];
      if !IsPublic(tables[k].1) { continue; }
      names := names + {Bare(tables[k].0)};
    }
    assert tables[..|tables|] == tables;
  }

  method CollectColumns(tables: seq<(string, Table)>) returns (declared: map<string, map<string, bool>>)
    ensures declared == DeclaredColumns(tables)
  {
    declared := map[];
    for k := 0 to |tables|
      invariant declared == DeclaredColumns(tables[..k])
    {
      assert tables[..k + 1][..k] == tables[..k];
      if !IsPublic(tables[k].1) { continue; }
      declared := declared[Bare(tables[k].0) := NotNulls(tables[k].1.columns)];
    }
    assert tables[..|tables|] == tables;
  }

  // ---------- what is compared ----------

  /** A module's table the snapshot does not declare: its rows take no part. */
  predicate Subtracted(names: set<string>, moduleTables: set<string>, table: string) {
    table !in names && table in moduleTables
  }

  function KeptIndexes(i: Input, s: Snapshot, rows: seq<IndexRow>): seq<IndexRow> {
    if rows == [] then []
    else
      var last := rows[|rows| - 1];
      KeptIndexes(i, s, rows[..|rows| - 1])
      + if Subtracted(DeclaredTables(s.tables), i.moduleTables, last.table) then [] else [last]
  }

  function KeptColumns(i: Input, s: Snapshot, rows: seq<ColumnRow>): seq<ColumnRow> {
    if rows == [] then []
    else
      var last := rows[|rows| - 1];
      KeptColumns(i, s, rows[..|rows| - 1])
      + if Subtracted(DeclaredTables(s.tables), i.moduleTables, last.table) then [] else [last]
  }

  function IndexNames(rows: seq<IndexRow>): set<string> {
    set r | r in rows :: r.index
  }

  /** The columns by table; a later row of the same column wins. */
  function ByTable(rows: seq<ColumnRow>): map<string, map<string, bool>> {
    if rows == [] then map[]
    else
      var last := rows[|rows| - 1];
      var before := ByTable(rows[..|rows| - 1]);
      var columns := if last.table in before then before[last.table] else map[];
      before[last.table := columns[last.column := last.notNull]]
  }

  lemma KeptStep(i: Input, s: Snapshot, rows: seq<ColumnRow>, k: nat)
    requires k < |rows|
    ensures var before := KeptColumns(i, s, rows[..k]);
            KeptColumns(i, s, rows[..k + 1]) ==
              if Subtracted(DeclaredTables(s.tables), i.moduleTables, rows[k].table) then before else before + [rows[k]]
  {
    assert rows[..k + 1][..k] == rows[..k];
    assert KeptColumns(i, s, rows[..k]) + [] == KeptColumns(i, s, rows[..k]);
  }

  lemma ByTableSnoc(rows: seq<ColumnRow>, row: ColumnRow)
    ensures var before := ByTable(rows);
            var columns := if row.table in before then before[row.table] else map[];
            ByTable(rows + [row]) == before[row.table := columns[row.column := row.notNull]]
  {
    assert (rows + [row])[..|rows|] == rows;
  }

  function ColumnIn(tables: map<string, map<string, bool>>, table: string, column: string): Option<bool> {
    if table in tables && column in tables[table] then Some(tables[table][column]) else None
  }

  datatype ColumnDiff = ColumnDiff(
    absent: set<(string, string)>, nullability: set<(string, string)>, undeclared: set<(string, string)>)

  /** Declared columns not there, there with the other nullability, and there without being declared. */
  ghost predicate IsDiff(
    declared: map<string, map<string, bool>>, actual: map<string, map<string, bool>>, d: ColumnDiff)
  {
    && (forall t, c :: (t, c) in d.absent <==> t in declared && c in declared[t] && ColumnIn(actual, t, c).None?)
    && (forall t, c :: (t, c) in d.nullability <==>
          t in declared && c in declared[t] && ColumnIn(actual, t, c) == Some(!declared[t][c]))
    && (forall t, c :: (t, c) in d.undeclared <==>
          t in declared && c !in declared[t] && ColumnIn(actual, t, c).Some?)
  }

  method DiffTable(table: string, columns: map<string, bool>, found: map<string, bool>) returns (d: ColumnDiff)
    ensures d.absent == set c | c in columns && c !in found :: (table, c)
    ensures d.nullability == set c | c in columns && c in found && found[c] != columns[c] :: (table, c)
    ensures d.undeclared == set c | c in found && c !in columns :: (table, c)
  {
    var absent: set<(string, string)>, nullability: set<(string, string)> := {}, {};
    var rest := columns.Keys;
    while rest != {}
      invariant rest <= columns.Keys
      invariant absent == set c | c in columns && c !in rest && c !in found :: (table, c)
      invariant nullability == set c | c in columns && c !in rest && c in found && found[c] != columns[c] :: (table, c)
      decreases |rest|
    {
      var c :| c in rest;
      rest := rest - {c};
      if c !in found { absent := absent + {(table, c)}; }
      else if found[c] != columns[c] { nullability := nullability + {(table, c)}; }
    }
    d := ColumnDiff(absent, nullability, set c | c in found && c !in columns :: (table, c));
  }

  /** The columns a snapshot declares against the ones the database has, table by declared table. */
  method DiffColumns(declared: map<string, map<string, bool>>, actual: map<string, map<string, bool>>)
    returns (d: ColumnDiff)
    ensures IsDiff(declared, actual, d)
  {
    d := ColumnDiff({}, {}, {});
    var rest := declared.Keys;
    while rest != {}
      invariant rest <= declared.Keys
      invariant forall t, c :: (t, c) in d.absent <==>
        t in declared && t !in rest && c in declared[t] && ColumnIn(actual, t, c).None?
      invariant forall t, c :: (t, c) in d.nullability <==>
        t in declared && t !in rest && c in declared[t] && ColumnIn(actual, t, c) == Some(!declared[t][c])
      invariant forall t, c :: (t, c) in d.undeclared <==>
        t in declared && t !in rest && c !in declared[t] && ColumnIn(actual, t, c).Some?
      decreases |rest|
    {
      var table :| table in rest;
      rest := rest - {table};
      var found := if table in actual then actual[table] else map[];
      var more := DiffTable(table, declared[table], found);
      d := ColumnDiff(d.absent + more.absent, d.nullability + more.nullability, d.undeclared + more.undeclared);
    }
  }

  // ---------- the verdict ----------

  /** The first journal entry with exactly this watermark. */
  function EntryAt(journal: seq<Entry>, watermark: int): (r: Option<Entry>)
    ensures r.Some? ==> r.value in journal && r.value.when == watermark
    ensures r.None? ==> forall e :: e in journal ==> e.when != watermark
  {
    if journal == [] then None
    else if journal[0].when == watermark then Some(journal[0])
    else EntryAt(journal[1..], watermark)
  }

  function SnapshotOf(i: Input): Option<Snapshot> {
    if !i.trackingTableExists || i.watermark.None? then None
    else
      var e := EntryAt(i.journal, i.watermark.value);
      if e.None? then None else Some(i.snapshots(e.value.idx))
  }

  /** Every declared index name stands on a table that takes part. */
  predicate IndexesPresent(i: Input, s: Snapshot) {
    forall name :: name in DeclaredIndexes(s.tables) ==>
      exists r :: r in i.indexes && r.index == name && !Subtracted(DeclaredTables(s.tables), i.moduleTables, r.table)
  }

  /** Every declared column is there, with the nullability declared for it. */
  predicate ColumnsPresent(i: Input, s: Snapshot) {
    var declared, actual := DeclaredColumns(s.tables), ByTable(KeptColumns(i, s, i.columns));
    forall t, c :: t in declared && c in declared[t] ==> ColumnIn(actual, t, c) == Some(declared[t][c])
  }

  /** What the check reports, beside its exit code. */
  datatype Report =
    | CannotCheck
    | Checked(pending: nat, missing: set<string>, expected: set<string>, reverseDrift: set<string>, columns: ColumnDiff,
              skipped: seq<IndexRow>, undeclaredTables: set<string>)

  function Pending(journal: seq<Entry>, watermark: int): nat {
    if journal == [] then 0 else Pending(journal[1..], watermark) + if journal[0].when > watermark then 1 else 0
  }

  lemma {:induction false} KeptIndexesHas(i: Input, s: Snapshot, rows: seq<IndexRow>, r: IndexRow)
    ensures r in KeptIndexes(i, s, rows) <==>
      r in rows && !Subtracted(DeclaredTables(s.tables), i.moduleTables, r.table)
  {
    if rows != [] {
      var n := |rows| - 1;
      KeptIndexesHas(i, s, rows[..n], r);
      assert r in rows <==> r in rows[..n] || r == rows[n];
    }
  }

  method KeepIndexes(i: Input, s: Snapshot, names: set<string>)
    returns (considered: seq<IndexRow>, skipped: seq<IndexRow>)
    requires names == DeclaredTables(s.tables)
    ensures considered == KeptIndexes(i, s, i.indexes)
    ensures forall r :: r in skipped <==>
      r in i.indexes && Subtracted(DeclaredTables(s.tables), i.moduleTables, r.table)
  {
    considered, skipped := [], [];
    for k := 0 to |i.indexes|
      invariant considered == KeptIndexes(i, s, i.indexes[..k])
      invariant forall r :: r in skipped <==>
        r in i.indexes[..k] && Subtracted(DeclaredTables(s.tables), i.moduleTables, r.table)
    {
      var row := i.indexes[k];
      assert i.indexes[..k + 1] == i.indexes[..k] + [row];
      assert i.indexes[..k + 1][..k] == i.indexes[..k];
      if row.table !in names && row.table in i.moduleTables { skipped := skipped + [row]; }
      else { considered := considered + [row]; }
    }
    assert i.indexes[..|i.indexes|] == i.indexes;
  }

  method GroupColumns(i: Input, s: Snapshot, names: set<string>) returns (tables: map<string, map<string, bool>>)
    requires names == DeclaredTables(s.tables)
    ensures tables == ByTable(KeptColumns(i, s, i.columns))
  {
    tables := map[];
    for k := 0 to |i.columns|
      invariant tables == ByTable(KeptColumns(i, s, i.columns[..k]))
    {
      var row := i.columns[k];
      KeptStep(i, s, i.columns, k);
      ByTableSnoc(KeptColumns(i, s, i.columns[..k]), row);
      if row.table !in names && row.table in i.moduleTables { continue; }
      var columns := if row.table in tables then tables[row.table] else map[];
      tables := tables[row.table := columns[row.column := row.notNull]];
    }
    assert i.columns[..|i.columns|] == i.columns;
  }

  /** Every decision of the check. It exits 0 only for a database it could compare and found complete. */
  method RunCheck(i: Input) returns (exitCode: nat, report: Report)
    ensures exitCode == 0 <==>
      SnapshotOf(i).Some? && IndexesPresent(i, SnapshotOf(i).value) && ColumnsPresent(i, SnapshotOf(i).value)
    ensures exitCode <= 1
    ensures report.CannotCheck? <==> SnapshotOf(i).None?
    ensures report.Checked? ==>
      var s := SnapshotOf(i).value;
      && report.missing == DeclaredIndexes(s.tables) - IndexNames(KeptIndexes(i, s, i.indexes))
      && report.expected + report.reverseDrift == IndexNames(KeptIndexes(i, s, i.indexes)) - DeclaredIndexes(s.tables)
      && report.expected <= i.constraintBacked && report.reverseDrift !! i.constraintBacked
      && report.pending == Pending(i.journal, i.watermark.value)
      && report.undeclaredTables ==
           (set r | r in KeptIndexes(i, s, i.indexes) && r.table !in DeclaredTables(s.tables) :: r.table)
      && (forall r :: r in report.skipped <==>
            r in i.indexes && Subtracted(DeclaredTables(s.tables), i.moduleTables, r.table))
      && IsDiff(DeclaredColumns(s.tables), ByTable(KeptColumns(i, s, i.columns)), report.columns)
  {
    if !i.trackingTableExists || i.watermark.None? { return 1, CannotCheck; }
    var entry := EntryAt(i.journal, i.watermark.value);
    if entry.None? { return 1, CannotCheck; }
    var s := i.snapshots(entry.value.idx);
    var declared := CollectIndexes(s.tables);
    var names := CollectTables(s.tables);
    var considered, skipped := KeepIndexes(i, s, names);
    var actual := IndexNames(considered);
    var missing, undeclared := declared - actual, actual - declared;
    var declaredColumns := CollectColumns(s.tables);
    var actualColumns := GroupColumns(i, s, names);
    var columns := DiffColumns(declaredColumns, actualColumns);
    report := Checked(
      Pending(i.journal, i.watermark.value), missing, undeclared * i.constraintBacked, undeclared - i.constraintBacked,
      columns, skipped, set r | r in considered && r.table !in names :: r.table);
    exitCode := if missing != {} || columns.absent != {} || columns.nullability != {} then 1 else 0;
    MissingNone(i, s);
    assert columns.absent == {} && columns.nullability == {} <==> ColumnsPresent(i, s) by {
      ColumnsNone(declaredColumns, actualColumns, columns);
    }
  }

  lemma MissingNone(i: Input, s: Snapshot)
    ensures DeclaredIndexes(s.tables) - IndexNames(KeptIndexes(i, s, i.indexes)) == {} <==> IndexesPresent(i, s)
  {
    var kept := KeptIndexes(i, s, i.indexes);
    forall r ensures r in kept <==> r in i.indexes && !Subtracted(DeclaredTables(s.tables), i.moduleTables, r.table) {
      KeptIndexesHas(i, s, i.indexes, r);
    }
    var missing := DeclaredIndexes(s.tables) - IndexNames(kept);
    if missing == {} {
      forall name | name in DeclaredIndexes(s.tables)
        ensures exists r ::
          r in i.indexes && r.index == name && !Subtracted(DeclaredTables(s.tables), i.moduleTables, r.table)
      {
        assert name !in missing;
        var r :| r in kept && r.index == name;
      }
    }
    forall name | name in DeclaredIndexes(s.tables) && IndexesPresent(i, s) ensures name in IndexNames(kept) {
      var r :| r in i.indexes && r.index == name && !Subtracted(DeclaredTables(s.tables), i.moduleTables, r.table);
      assert r in kept;
    }
  }

  lemma ColumnsNone(declared: map<string, map<string, bool>>, actual: map<string, map<string, bool>>, d: ColumnDiff)
    requires IsDiff(declared, actual, d)
    ensures d.absent == {} && d.nullability == {} <==>
      forall t, c :: t in declared && c in declared[t] ==> ColumnIn(actual, t, c) == Some(declared[t][c])
  {
    if d.absent == {} && d.nullability == {} {
      forall t, c | t in declared && c in declared[t] ensures ColumnIn(actual, t, c) == Some(declared[t][c]) {
        assert (t, c) !in d.absent && (t, c) !in d.nullability;
        var found := ColumnIn(actual, t, c);
        assert found != Some(!declared[t][c]);
        assert found.Some? && found.value == declared[t][c];
      }
    } else if d.absent != {} {
      var p :| p in d.absent;
      assert (p.0, p.1) in d.absent;
    } else {
      var p :| p in d.nullability;
      assert (p.0, p.1) in d.nullability;
    }
  }

  // ---------- what can and cannot change the verdict ----------

  ghost predicate Passes(i: Input) {
    SnapshotOf(i).Some? && IndexesPresent(i, SnapshotOf(i).value) && ColumnsPresent(i, SnapshotOf(i).value)
  }

  /** Two states of one database that differ only in rows on module-owned, undeclared tables. */
  ghost predicate SameCore(i: Input, j: Input) {
    && j == i.(indexes := j.indexes, columns := j.columns)
    && (SnapshotOf(i).Some? ==>
          var s := SnapshotOf(i).value;
          KeptIndexes(i, s, i.indexes) == KeptIndexes(i, s, j.indexes)
          && KeptColumns(i, s, i.columns) == KeptColumns(i, s, j.columns))
  }

  lemma {:induction false} SameKept(i: Input, j: Input, s: Snapshot, rows: seq<IndexRow>, columns: seq<ColumnRow>)
    requires i.moduleTables == j.moduleTables
    ensures KeptIndexes(i, s, rows) == KeptIndexes(j, s, rows)
    ensures KeptColumns(i, s, columns) == KeptColumns(j, s, columns)
    decreases |rows| + |columns|
  {
    if rows != [] { SameKept(i, j, s, rows[..|rows| - 1], columns); }
    else if columns != [] { SameKept(i, j, s, rows, columns[..|columns| - 1]); }
  }

  /** Rows a module owns, on tables the snapshot does not declare, never change the verdict. */
  lemma ModuleRowsAreIrrelevant(i: Input, j: Input)
    requires SameCore(i, j)
    ensures Passes(i) <==> Passes(j)
  {
    if SnapshotOf(i).Some? {
      var s := SnapshotOf(i).value;
      assert SnapshotOf(j) == SnapshotOf(i);
      SameKept(i, j, s, j.indexes, j.columns);
      MissingNone(i, s);
      MissingNone(j, s);
    }
  }

  lemma {:induction false} KeptJoin(i: Input, s: Snapshot, a: seq<IndexRow>, b: seq<IndexRow>)
    ensures KeptIndexes(i, s, a + b) == KeptIndexes(i, s, a) + KeptIndexes(i, s, b)
    decreases |b|
  {
    if b == [] {
      assert a + b == a;
    } else {
      assert (a + b)[..|a + b| - 1] == a + b[..|b| - 1];
      KeptJoin(i, s, a, b[..|b| - 1]);
    }
  }

  lemma {:induction false} KeptColumnsJoin(i: Input, s: Snapshot, a: seq<ColumnRow>, b: seq<ColumnRow>)
    ensures KeptColumns(i, s, a + b) == KeptColumns(i, s, a) + KeptColumns(i, s, b)
    decreases |b|
  {
    if b == [] {
      assert a + b == a;
    } else {
      assert (a + b)[..|a + b| - 1] == a + b[..|b| - 1];
      KeptColumnsJoin(i, s, a, b[..|b| - 1]);
    }
  }

  /** So such a row may come or go anywhere in either listing. */
  lemma ModuleRowComesAndGoes(i: Input, before: seq<IndexRow>, row: IndexRow, after: seq<IndexRow>,
                              left: seq<ColumnRow>, column: ColumnRow, right: seq<ColumnRow>)
    requires SnapshotOf(i).Some? ==>
      var s := SnapshotOf(i).value;
      && Subtracted(DeclaredTables(s.tables), i.moduleTables, row.table)
      && Subtracted(DeclaredTables(s.tables), i.moduleTables, column.table)
    requires i.indexes == before + after && i.columns == left + right
    ensures Passes(i) <==> Passes(i.(indexes := before + [row] + after, columns := left + [column] + right))
  {
    var j := i.(indexes := before + [row] + after, columns := left + [column] + right);
    if SnapshotOf(i).Some? {
      var s := SnapshotOf(i).value;
      KeptJoin(i, s, before, after);
      KeptJoin(i, s, before + [row], after);
      KeptJoin(i, s, before, [row]);
      KeptColumnsJoin(i, s, left, right);
      KeptColumnsJoin(i, s, left + [column], right);
      KeptColumnsJoin(i, s, left, [column]);
      assert [row][..0] == [] && [column][..0] == [];
    }
    ModuleRowsAreIrrelevant(i, j);
  }

  /** An index more, declared or not, never fails a run. */
  lemma IndexesNeverFail(i: Input, row: IndexRow)
    requires Passes(i)
    ensures Passes(i.(indexes := i.indexes + [row]))
  {
    var j := i.(indexes := i.indexes + [row]);
    var s := SnapshotOf(i).value;
    assert SnapshotOf(j) == Some(s);
    forall name | name in DeclaredIndexes(s.tables)
      ensures exists r ::
        r in j.indexes && r.index == name && !Subtracted(DeclaredTables(s.tables), j.moduleTables, r.table)
    {
      var r :| r in i.indexes && r.index == name && !Subtracted(DeclaredTables(s.tables), i.moduleTables, r.table);
      assert r in j.indexes;
    }
    SameKept(i, j, s, i.indexes, i.columns);
  }

  // ---------- a declared table always takes part ----------

  /** What the last row of a column says. */
  function LastRow(rows: seq<ColumnRow>, table: string, column: string): Option<bool> {
    if rows == [] then None
    else
      var last := rows[|rows| - 1];
      if last.table == table && last.column == column then Some(last.notNull)
      else LastRow(rows[..|rows| - 1], table, column)
  }

  lemma {:induction false} LastRowIs(rows: seq<ColumnRow>, table: string, column: string)
    ensures ColumnIn(ByTable(rows), table, column) == LastRow(rows, table, column)
  {
    if rows != [] { LastRowIs(rows[..|rows| - 1], table, column); }
  }

  lemma {:induction false} LastRowKept(i: Input, s: Snapshot, rows: seq<ColumnRow>, table: string, column: string)
    requires table in DeclaredTables(s.tables)
    ensures LastRow(KeptColumns(i, s, rows), table, column) == LastRow(rows, table, column)
  {
    if rows != [] {
      var n := |rows| - 1;
      LastRowKept(i, s, rows[..n], table, column);
      KeptStep(i, s, rows, n);
      assert rows[..n + 1] == rows;
      LastRowSnoc(KeptColumns(i, s, rows[..n]), rows[n], table, column);
    }
  }

  lemma LastRowSnoc(rows: seq<ColumnRow>, row: ColumnRow, table: string, column: string)
    ensures LastRow(rows + [row], table, column) ==
      if row.table == table && row.column == column then Some(row.notNull) else LastRow(rows, table, column)
  {
    assert (rows + [row])[..|rows|] == rows;
  }

  /** A module that owns a declared table subtracts nothing from it: its columns are judged by the database's rows. */
  lemma DeclaredTablesTakePart(i: Input, s: Snapshot)
    ensures ColumnsPresent(i, s) <==>
      forall t, c :: t in DeclaredColumns(s.tables) && c in DeclaredColumns(s.tables)[t] ==>
        LastRow(i.columns, t, c) == Some(DeclaredColumns(s.tables)[t][c])
  {
    DeclaredTablesHaveColumns(s.tables);
    var declared, actual := DeclaredColumns(s.tables), ByTable(KeptColumns(i, s, i.columns));
    forall t, c | t in declared && c in declared[t] ensures ColumnIn(actual, t, c) == LastRow(i.columns, t, c) {
      LastRowIs(KeptColumns(i, s, i.columns), t, c);
      LastRowKept(i, s, i.columns, t, c);
    }
  }
}
