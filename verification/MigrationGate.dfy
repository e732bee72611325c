/** The gate of scripts/verify-no-migration-dml.ts. */
module MigrationGate {
  /*
    Which statements of a migration rewrite rows, over the two readings of SqlReader, and which of
    them a constraint clause licences.
   */

  import opened Lists
  import opened Orders
  import opened SqlReader
  import opened Texts
  import opened SqlClauses

  // ---------- the write vocabulary ----------

  datatype Verb = Update | Insert | Delete | Truncate | Merge

  function VerbAt(s: string, i: nat): Option<Verb> {
    if WordAt(s, i, "UPDATE") then Some(Update)
    else if WordAt(s, i, "INSERT") then Some(Insert)
    else if WordAt(s, i, "DELETE") then Some(Delete)
    else if WordAt(s, i, "TRUNCATE") then Some(Truncate)
    else if WordAt(s, i, "MERGE") then Some(Merge)
    else None
  }

  /** The table of the `UPDATE` at `i`. */
  function UpdateTarget(s: string, i: nat): Option<string>
    requires i <= |s|
  {
    var at := After(s, i, ["UPDATE"]);
    if at == i || OnlyTable(s, at).None? then None else Some(OnlyTable(s, at).value.1)
  }

  // ---------- ALTER COLUMN … USING ----------

  /** A `USING` expression that rewrites rows: where it starts, its statement, and the table altered. */
  datatype Repair = Repair(index: nat, start: nat, table: string)

  function AlterHead(s: string, i: nat): Option<(nat, string)> {
    if i >= |s| || !Boundary(s, i) || After(s, i, ["ALTER", "TABLE"]) == i then None
    else OnlyTable(s, After(s, i, ["ALTER", "TABLE"]))
  }

  function FindWord(s: string, i: nat, word: string): (r: Option<nat>)
    requires i <= |s|
    ensures r.Some? ==> i <= r.value && r.value + |word| <= |s|
    decreases |s| - i
  {
    if WordAt(s, i, word) then Some(i) else if i == |s| then None else FindWord(s, i + 1, word)
  }

  function ColumnUsing(s: string, i: nat): Option<(nat, string)> {
    if i >= |s| || !Boundary(s, i) || After(s, i, ["ALTER", "COLUMN"]) == i then None
    else
      var using := FindWord(s, After(s, i, ["ALTER", "COLUMN"]), "USING");
      if using.None? then None else Some((using.value + 5, ""))
  }

  function Actions(s: string, head: Match): seq<Match>
    requires head.start <= |s|
  {
    Matches(ColumnUsing, s[head.start..StatementEnd(s, head.start)], 0)
  }

  /** The expression behind the `USING` of an action. */
  function UsingText(s: string, head: Match, action: Match): string {
    if head.start <= |s| && head.start + action.end <= StatementEnd(s, head.start)
    then s[head.start + action.end..ActionEnd(s, head.start + action.end, StatementEnd(s, head.start), 0)]
    else ""
  }

  /** The action of the statement at `head`, when its expression does more than convert. */
  function RepairOf(s: string, head: Match, converts: string -> bool): Match -> seq<Repair> {
    (action: Match) =>
      if converts(UsingText(s, head, action)) then []
      else [Repair(head.start + action.end, head.start, head.name)]
  }

  function RepairsAt(s: string, converts: string -> bool): Match -> seq<Repair> {
    (head: Match) =>
      if head.start <= |s| && StartsStatement(s, head.start)
      then Gather(RepairOf(s, head, converts), Actions(s, head)) else []
  }

  /** Every repair of the text, each inside the statement that holds it. */
  function Repairs(s: string, converts: string -> bool): seq<Repair> {
    Gather(RepairsAt(s, converts), Matches(AlterHead, s, 0))
  }

  /** An `ALTER TABLE` that opens a statement. */
  predicate Alters(s: string, head: Match) {
    head in Matches(AlterHead, s, 0) && head.start <= |s| && StartsStatement(s, head.start)
  }

  /** An action of the statement does more than convert. */
  predicate RepairsWithin(s: string, h: Match, converts: string -> bool, r: Repair)
    requires h.start <= |s|
  {
    exists a :: a in Actions(s, h) && !converts(UsingText(s, h, a)) && r == Repair(h.start + a.end, h.start, h.name)
  }

  lemma RepairsOfOne(s: string, h: Match, converts: string -> bool, r: Repair)
    requires h.start <= |s|
    ensures r in Gather(RepairOf(s, h, converts), Actions(s, h)) <==> RepairsWithin(s, h, converts, r)
  {
    var of := RepairOf(s, h, converts);
    GatherHas(of, Actions(s, h), r);
    forall a: Match
      ensures r in of(a) <==> !converts(UsingText(s, h, a)) && r == Repair(h.start + a.end, h.start, h.name)
    {
    }
  }

  /** The repairs are exactly the `USING` expressions that do more than convert. */
  lemma RepairsAre(s: string, converts: string -> bool, r: Repair)
    ensures r in Repairs(s, converts) <==>
      exists h :: Alters(s, h) && RepairsWithin(s, h, converts, r)
  {
    GatherHas(RepairsAt(s, converts), Matches(AlterHead, s, 0), r);
    forall h: Match | h.start <= |s| { RepairsOfOne(s, h, converts, r); }
  }

  lemma ActionsInside(s: string, head: Match)
    requires head.start <= |s|
    ensures forall a :: a in Actions(s, head) ==> head.start + a.end <= StatementEnd(s, head.start)
  {
    MatchesAre(ColumnUsing, s[head.start..StatementEnd(s, head.start)], 0);
  }

  method RepairOfAction(s: string, head: Match, action: Match, converts: string -> bool) returns (repair: seq<Repair>)
    requires head.start <= |s| && head.start + action.end <= StatementEnd(s, head.start)
    ensures repair == RepairOf(s, head, converts)(action)
  {
    var at := head.start + action.end;
    var expr := UsingExpression(s, at, StatementEnd(s, head.start));
    assert expr == UsingText(s, head, action);
    repair := if converts(expr) then [] else [Repair(at, head.start, head.name)];
  }

  method RepairsOfStatement(s: string, head: Match, converts: string -> bool) returns (repairs: seq<Repair>)
    requires head.start <= |s|
    ensures repairs == Gather(RepairOf(s, head, converts), Actions(s, head))
  {
    var actions := Actions(s, head);
    ActionsInside(s, head);
    ghost var of := RepairOf(s, head, converts);
    repairs := [];
    for a := 0 to |actions|
      invariant repairs == Gather(of, actions[..a])
    {
      GatherStep(of, actions, a);
      assert actions[a] in actions;
      var repair := RepairOfAction(s, head, actions[a], converts);
      repairs := repairs + repair;
    }
    GatherWhole(of, actions);
  }

  method UsingWrites(s: string, converts: string -> bool) returns (repairs: seq<Repair>)
    ensures repairs == Repairs(s, converts)
  {
    var heads := Matches(AlterHead, s, 0);
    MatchesAre(AlterHead, s, 0);
    repairs := [];
    for h := 0 to |heads|
      invariant repairs == Gather(RepairsAt(s, converts), heads[..h])
    {
      GatherStep(RepairsAt(s, converts), heads, h);
      assert heads[h] in heads;
      if !StartsStatement(s, heads[h].start) { continue; }
      var found := RepairsOfStatement(s, heads[h], converts);
      repairs := repairs + found;
    }
    GatherWhole(RepairsAt(s, converts), heads);
  }

  // ---------- command strings ----------

  function DynamicAt(s: string, i: nat): Option<(nat, string)> {
    if i >= |s| || !Boundary(s, i) then None
    else if At(s, i, "EXECUTE") && Boundary(s, i + 7)
            && !(SkipSpaces(s, i + 7) > i + 7
                 && (FollowedBy(s, SkipSpaces(s, i + 7), "FUNCTION")
                     || FollowedBy(s, SkipSpaces(s, i + 7), "PROCEDURE")))
    then Some((i + 7, ""))
    else if At(s, i, "FORMAT") && SkipSpaces(s, i + 6) < |s| && s[SkipSpaces(s, i + 6)] == '('
    then Some((SkipSpaces(s, i + 6) + 1, ""))
    else None
  }

  predicate FollowedBy(s: string, i: nat, word: string)
    requires i <= |s|
  {
    At(s, i, word) && Boundary(s, i + |word|)
  }

  function SpansOf(s: string, ms: seq<Match>): (r: seq<Span>)
    requires forall m :: m in ms ==> m.start <= |s|
    ensures |r| == |ms| && forall k :: 0 <= k < |r| ==> r[k] == Span(ms[k].start, StatementEnd(s, ms[k].start))
  {
    seq(|ms|, k requires 0 <= k < |ms| => assert ms[k] in ms; Span(ms[k].start, StatementEnd(s, ms[k].start)))
  }

  /** Every statement or `format(…)` call that builds a command, to the `;` of the blanked reading. */
  function DynamicSpans(s: string): seq<Span> {
    MatchesAre(DynamicAt, s, 0);
    SpansOf(s, Matches(DynamicAt, s, 0))
  }

  /** The first of the spans that holds `i`. */
  function SpanOf(spans: seq<Span>, i: nat): (r: Option<Span>)
    ensures r.Some? ==> r.value in spans && r.value.start <= i < r.value.end
    ensures r.Some? <==> Within(spans, i)
  {
    if spans == [] then None
    else if spans[0].start <= i < spans[0].end then Some(spans[0])
    else
      assert forall k :: 1 <= k < |spans| ==> spans[k] == spans[1..][k - 1];
      SpanOf(spans[1..], i)
  }

  // ---------- what a migration does to rows ----------

  /** A migration and what the gate reads in it. */
  datatype Scan = Scan(
    sql: string, text: string, dynamic: string, bodies: seq<Span>, repairs: seq<Repair>, spans: seq<Span>)

  function ScanOf(sql: string, converts: string -> bool): Scan {
    var text := Reading(sql, Blanked);
    Scan(sql, text, Reading(sql, Literals), FunctionBodies(text), Repairs(text, converts), DynamicSpans(text))
  }

  predicate Aligned(c: Scan) {
    |c.text| == |c.dynamic| == |c.sql| && forall r :: r in c.repairs ==> r.index <= |c.text| && r.start <= |c.text|
  }

  lemma RepairsInside(s: string, converts: string -> bool)
    ensures forall r :: r in Repairs(s, converts) ==> r.index <= |s| && r.start <= |s|
  {
    forall r | r in Repairs(s, converts) ensures r.index <= |s| && r.start <= |s| {
      RepairsAre(s, converts, r);
      var h :| Alters(s, h) && RepairsWithin(s, h, converts, r);
      ActionsInside(s, h);
    }
  }

  lemma ScanIsAligned(sql: string, converts: string -> bool)
    ensures Aligned(ScanOf(sql, converts))
  {
    RepairsInside(Reading(sql, Blanked), converts);
  }

  /** The write at `i` opens a statement that runs when the migration is applied. */
  predicate Opens(s: string, bodies: seq<Span>, i: nat) {
    i < |s| && VerbAt(s, i).Some? && StartsStatement(s, i) && !Within(bodies, i)
  }

  function Written(c: Scan): nat -> bool {
    (i: nat) => Opens(c.text, c.bodies, i)
  }

  function Executed(c: Scan): nat -> bool {
    (i: nat) => Within(c.spans, i) && Opens(c.dynamic, c.bodies, i)
  }

  /** `i` lies in the statement of an earlier MERGE that itself runs. */
  ghost predicate InMerge(s: string, runs: nat -> bool, i: nat) {
    Covered(s, runs, i, i)
  }

  /** A MERGE that starts before `n` and runs reaches past `i`. */
  ghost predicate Covered(s: string, runs: nat -> bool, n: nat, i: nat) {
    exists j: nat :: j < n && MergeOver(s, runs, j, i)
  }

  predicate MergeOver(s: string, runs: nat -> bool, j: nat, i: nat) {
    j < i && j < |s| && runs(j) && VerbAt(s, j) == Some(Merge) && i < StatementEnd(s, j)
  }

  /** An UPDATE of a table some clause licences: the only exemption. */
  predicate Excused(s: string, licenced: set<string>, i: nat)
    requires i <= |s|
  {
    VerbAt(s, i) == Some(Update) && UpdateTarget(s, i).Some? && UpdateTarget(s, i).value in licenced
  }

  /** What the first pass reports: a write of the file as written. */
  ghost predicate Literal(c: Scan, licenced: set<string>, i: nat) {
    i <= |c.text| && Written(c)(i) && !InMerge(c.text, Written(c), i) && !Excused(c.text, licenced, i)
  }

  predicate Repairing(c: Scan, licenced: set<string>, k: nat, i: nat) {
    k < |c.repairs| && c.repairs[k].index == i && !Within(c.bodies, i) && c.repairs[k].table !in licenced
  }

  /** What the second pass reports: a write of a command the file builds. */
  ghost predicate Built(c: Scan, i: nat) {
    Executed(c)(i) && !InMerge(c.dynamic, Executed(c), i)
  }

  ghost predicate Rewrites(c: Scan, licenced: set<string>, i: nat) {
    Literal(c, licenced, i) || (exists k: nat :: Repairing(c, licenced, k, i)) || Built(c, i)
  }

  // ---------- the skip of a MERGE's own actions ----------

  /** `end` is past `i` exactly for the offsets inside a MERGE that starts before `n`. */
  ghost predicate MergesUpTo(s: string, runs: nat -> bool, end: int, n: nat) {
    forall i: nat :: n <= i <= |s| ==> SkipIs(s, runs, end, n, i)
  }

  ghost predicate SkipIs(s: string, runs: nat -> bool, end: int, n: nat, i: nat) {
    i < end <==> Covered(s, runs, n, i)
  }

  lemma StatementEndsTogether(s: string, j: nat, i: nat)
    requires j <= i <= |s| && i < StatementEnd(s, j)
    ensures StatementEnd(s, i) == StatementEnd(s, j)
  {
    var far, near := FindChar(s, j, ';'), FindChar(s, i, ';');
    assert far < |s| ==> s[far] == ';';
    assert near < |s| ==> s[near] == ';';
  }

  lemma MergeStep(s: string, runs: nat -> bool, end: int, n: nat)
    requires n < |s| && MergesUpTo(s, runs, end, n)
    ensures var opens := runs(n) && VerbAt(s, n) == Some(Merge);
            MergesUpTo(s, runs, if opens && !(n < end) then StatementEnd(s, n) else end, n + 1)
  {
    var opens := runs(n) && VerbAt(s, n) == Some(Merge);
    var next := if opens && !(n < end) then StatementEnd(s, n) else end;
    assert SkipIs(s, runs, end, n, n);
    var m := n + 1;
    forall i: nat | m <= i <= |s| ensures SkipIs(s, runs, next, m, i) {
      assert Covered(s, runs, m, i) <==> Covered(s, runs, n, i) || MergeOver(s, runs, n, i);
      assert SkipIs(s, runs, end, n, i);
      if Covered(s, runs, n, i) {
        var j: nat :| j < n && MergeOver(s, runs, j, i);
        assert MergeOver(s, runs, j, n);
      }
      if opens && n < end {
        var j: nat :| j < n && MergeOver(s, runs, j, n);
        StatementEndsTogether(s, j, n);
        assert i < StatementEnd(s, n) ==> MergeOver(s, runs, j, i);
      }
    }
  }

  // ---------- reporting ----------

  /** A reported statement: its offset and line, and its text as the author wrote it. */
  datatype Finding = Finding(index: nat, line: nat, statement: string)

  function FindingAt(c: Scan, i: nat, quoteFrom: nat): Finding
    requires |c.sql| == |c.text| && i <= |c.text| && quoteFrom <= |c.text|
  {
    Finding(i, 1 + Newlines(c.text[..i]), c.sql[quoteFrom..StatementEnd(c.text, quoteFrom)])
  }

  /** The findings of one file by offset. */
  class Findings {
    const scan: Scan
    var entries: map<nat, Finding>

    ghost predicate Valid() {
      Aligned(scan)
    }

    constructor (scan: Scan)
      requires Aligned(scan)
      ensures Valid() && this.scan == scan && entries == map[]
    {
      this.scan := scan;
      entries := map[];
    }

    /** The first report at an offset stands. */
    method Report(i: nat, quoteFrom: nat)
      requires Valid() && i <= |scan.text| && quoteFrom <= |scan.text|
      modifies this
      ensures Valid()
      ensures entries == if i in old(entries) then old(entries) else old(entries)[i := FindingAt(scan, i, quoteFrom)]
    {
      if i in entries { return; }
      entries := entries[i := FindingAt(scan, i, quoteFrom)];
    }

    method ReadAsWritten(licenced: set<string>, i: nat, mergeEnd: int) returns (report: bool, next: int)
      requires i < |scan.text| && MergesUpTo(scan.text, Written(scan), mergeEnd, i)
      ensures report <==> Literal(scan, licenced, i)
      ensures MergesUpTo(scan.text, Written(scan), next, i + 1)
    {
      var s := scan.text;
      assert SkipIs(s, Written(scan), mergeEnd, i, i);
      MergeStep(s, Written(scan), mergeEnd, i);
      if VerbAt(s, i).None? { return false, mergeEnd; }
      if i < mergeEnd { return false, mergeEnd; }
      if !StartsStatement(s, i) { return false, mergeEnd; }
      if Within(scan.bodies, i) { return false, mergeEnd; }
      if Excused(s, licenced, i) { return false, mergeEnd; }
      return true, if VerbAt(s, i).value.Merge? then StatementEnd(s, i) else mergeEnd;
    }

    method ReadAsBuilt(i: nat, mergeEnd: int) returns (report: bool, next: int)
      requires i < |scan.dynamic| && MergesUpTo(scan.dynamic, Executed(scan), mergeEnd, i)
      ensures report <==> Built(scan, i)
      ensures MergesUpTo(scan.dynamic, Executed(scan), next, i + 1)
    {
      var s := scan.dynamic;
      assert SkipIs(s, Executed(scan), mergeEnd, i, i);
      MergeStep(s, Executed(scan), mergeEnd, i);
      if VerbAt(s, i).None? { return false, mergeEnd; }
      if SpanOf(scan.spans, i).None? { return false, mergeEnd; }
      if i < mergeEnd { return false, mergeEnd; }
      if !StartsStatement(s, i) { return false, mergeEnd; }
      if Within(scan.bodies, i) { return false, mergeEnd; }
      return true, if VerbAt(s, i).value.Merge? then StatementEnd(s, i) else mergeEnd;
    }

    /** What the file executes as written. */
    method Pass1(licenced: set<string>)
      requires Valid()
      modifies this
      ensures entries == AsWritten(scan, licenced, old(entries))
    {
      ghost var picks, quote := LiteralWrites(scan, licenced), Itself(scan);
      var mergeEnd: int := -1;
      for i := 0 to |scan.text|
        invariant MergesUpTo(scan.text, Written(scan), mergeEnd, i)
        invariant entries == Collect(scan, old(entries), picks, quote, i)
      {
        mergeEnd := TakeWritten(licenced, i, mergeEnd, old(entries));
      }
    }

    method TakeWritten(licenced: set<string>, i: nat, mergeEnd: int, ghost before: map<nat, Finding>)
      returns (next: int)
      requires Valid() && i < |scan.text| && MergesUpTo(scan.text, Written(scan), mergeEnd, i)
      requires entries == Collect(scan, before, LiteralWrites(scan, licenced), Itself(scan), i)
      modifies this
      ensures MergesUpTo(scan.text, Written(scan), next, i + 1)
      ensures entries == Collect(scan, before, LiteralWrites(scan, licenced), Itself(scan), i + 1)
    {
      var report;
      report, next := ReadAsWritten(licenced, i, mergeEnd);
      if report { Report(i, i); }
    }

    /** `ALTER COLUMN … USING <repair>`, under the same carve-out. */
    method Pass1b(licenced: set<string>)
      requires Valid()
      modifies this
      ensures entries == WithRepairs(scan, licenced, old(entries), |scan.repairs|)
    {
      for k := 0 to |scan.repairs|
        invariant entries == WithRepairs(scan, licenced, old(entries), k)
      {
        var r := scan.repairs[k];
        assert r in scan.repairs;
        if Within(scan.bodies, r.index) { continue; }
        if r.table in licenced { continue; }
        Report(r.index, r.start);
      }
    }

    /** What the file builds and then executes. */
    method Pass2()
      requires Valid()
      modifies this
      ensures entries == WithBuilt(scan, old(entries))
    {
      ghost var picks, quote := Commands(scan), Builder(scan);
      var mergeEnd: int := -1;
      for i := 0 to |scan.dynamic|
        invariant MergesUpTo(scan.dynamic, Executed(scan), mergeEnd, i)
        invariant entries == Collect(scan, old(entries), picks, quote, i)
      {
        mergeEnd := TakeBuilt(i, mergeEnd, old(entries));
      }
    }

    method TakeBuilt(i: nat, mergeEnd: int, ghost before: map<nat, Finding>) returns (next: int)
      requires Valid() && i < |scan.dynamic| && MergesUpTo(scan.dynamic, Executed(scan), mergeEnd, i)
      requires entries == Collect(scan, before, Commands(scan), Builder(scan), i)
      modifies this
      ensures MergesUpTo(scan.dynamic, Executed(scan), next, i + 1)
      ensures entries == Collect(scan, before, Commands(scan), Builder(scan), i + 1)
    {
      var report;
      report, next := ReadAsBuilt(i, mergeEnd);
      if report { Report(i, QuoteOfBuilt(scan, i)); }
    }
  }

  // ---------- the findings of a file ----------

  /** The first report at an offset stands. */
  function Add(c: Scan, entries: map<nat, Finding>, i: nat, quoteFrom: nat): map<nat, Finding>
    requires Aligned(c) && i <= |c.text| && quoteFrom <= |c.text|
  {
    if i in entries then entries else entries[i := FindingAt(c, i, quoteFrom)]
  }

  /** A report at each of the first `n` offsets that `picks` holds for. */
  ghost function Collect(
    c: Scan, entries: map<nat, Finding>, picks: nat -> bool, quote: nat -> nat, n: nat): map<nat, Finding>
    requires Aligned(c) && n <= |c.text| && forall i :: quote(i) <= |c.text|
  {
    if n == 0 then entries
    else
      var before := Collect(c, entries, picks, quote, n - 1);
      if picks(n - 1) then Add(c, before, n - 1, quote(n - 1)) else before
  }

  lemma {:induction false} CollectHas(
    c: Scan, entries: map<nat, Finding>, picks: nat -> bool, quote: nat -> nat, n: nat, i: nat)
    requires Aligned(c) && n <= |c.text| && forall i :: quote(i) <= |c.text|
    ensures var m := Collect(c, entries, picks, quote, n);
            && (i in m <==> i in entries || (i < n && picks(i)))
            && (i in entries ==> m[i] == entries[i])
            && (i in m && i !in entries ==> m[i] == FindingAt(c, i, quote(i)))
  {
    if n > 0 { CollectHas(c, entries, picks, quote, n - 1, i); }
  }

  ghost function LiteralWrites(c: Scan, licenced: set<string>): nat -> bool {
    (i: nat) => Literal(c, licenced, i)
  }

  ghost function Itself(c: Scan): (r: nat -> nat)
    ensures forall i :: r(i) <= |c.text|
  {
    (i: nat) => if i <= |c.text| then i else 0
  }

  ghost function AsWritten(c: Scan, licenced: set<string>, entries: map<nat, Finding>): map<nat, Finding>
    requires Aligned(c)
  {
    Collect(c, entries, LiteralWrites(c, licenced), Itself(c), |c.text|)
  }

  ghost function WithRepairs(c: Scan, licenced: set<string>, entries: map<nat, Finding>, n: nat): map<nat, Finding>
    requires Aligned(c) && n <= |c.repairs|
  {
    if n == 0 then entries
    else
      var r := c.repairs[n - 1];
      assert r in c.repairs;
      var before := WithRepairs(c, licenced, entries, n - 1);
      if Within(c.bodies, r.index) || r.table in licenced then before else Add(c, before, r.index, r.start)
  }

  /** Where the statement that builds the command at `i` starts. */
  function QuoteOfBuilt(c: Scan, i: nat): nat
    requires Within(c.spans, i)
  {
    SpanOf(c.spans, i).value.start
  }

  ghost function Commands(c: Scan): nat -> bool {
    (i: nat) => Built(c, i)
  }

  ghost function Builder(c: Scan): (r: nat -> nat)
    ensures forall i :: r(i) <= |c.text|
  {
    (i: nat) => if Within(c.spans, i) && i <= |c.text| then QuoteOfBuilt(c, i) else 0
  }

  ghost function WithBuilt(c: Scan, entries: map<nat, Finding>): map<nat, Finding>
    requires Aligned(c)
  {
    Collect(c, entries, Commands(c), Builder(c), |c.text|)
  }

  /** The first of `n` repairs the pass reports at `i`. */
  function FirstRepair(c: Scan, licenced: set<string>, n: nat, i: nat): (r: Option<nat>)
    requires n <= |c.repairs|
    ensures r.Some? ==> r.value < n && Repairing(c, licenced, r.value, i)
    ensures forall j: nat :: j < n && (r.None? || j < r.value) ==> !Repairing(c, licenced, j, i)
  {
    if n == 0 then None
    else
      var before := FirstRepair(c, licenced, n - 1, i);
      if before.Some? then before else if Repairing(c, licenced, n - 1, i) then Some(n - 1) else None
  }

  lemma {:induction false} WithRepairsHas(c: Scan, licenced: set<string>, entries: map<nat, Finding>, n: nat, i: nat)
    requires Aligned(c) && n <= |c.repairs|
    ensures var m, first := WithRepairs(c, licenced, entries, n), FirstRepair(c, licenced, n, i);
            && (i in m <==> i in entries || first.Some?)
            && (i in entries ==> m[i] == entries[i])
            && (i in m && i !in entries ==>
                  c.repairs[first.value] in c.repairs && m[i] == FindingAt(c, i, c.repairs[first.value].start))
  {
    if n > 0 {
      assert c.repairs[n - 1] in c.repairs;
      WithRepairsHas(c, licenced, entries, n - 1, i);
    }
  }

  // ---------- the gate on one file ----------

  /** The findings below `n`, in file order. */
  function InOrder(entries: map<nat, Finding>, n: nat): seq<Finding> {
    if n == 0 then []
    else InOrder(entries, n - 1) + if n - 1 in entries then [entries[n - 1]] else []
  }

  ghost function Entries(c: Scan, licenced: set<string>): map<nat, Finding>
    requires Aligned(c)
  {
    WithBuilt(c, WithRepairs(c, licenced, AsWritten(c, licenced, map[]), |c.repairs|))
  }

  /** Where the quote of a reported offset starts: the write, its ALTER TABLE, or what builds its command. */
  ghost function QuoteFrom(c: Scan, licenced: set<string>, i: nat): nat
    requires Rewrites(c, licenced, i)
  {
    if Literal(c, licenced, i) then i
    else if FirstRepair(c, licenced, |c.repairs|, i).Some?
    then c.repairs[FirstRepair(c, licenced, |c.repairs|, i).value].start
    else QuoteOfBuilt(c, i)
  }

  lemma EntriesAre(c: Scan, licenced: set<string>, i: nat)
    requires Aligned(c)
    ensures i in Entries(c, licenced) <==> Rewrites(c, licenced, i)
    ensures i in Entries(c, licenced) ==>
      (i <= |c.text| && QuoteFrom(c, licenced, i) <= |c.text|
       && Entries(c, licenced)[i] == FindingAt(c, i, QuoteFrom(c, licenced, i)))
  {
    var written := AsWritten(c, licenced, map[]);
    var repaired := WithRepairs(c, licenced, written, |c.repairs|);
    CollectHas(c, map[], LiteralWrites(c, licenced), Itself(c), |c.text|, i);
    WithRepairsHas(c, licenced, written, |c.repairs|, i);
    CollectHas(c, repaired, Commands(c), Builder(c), |c.text|, i);
    var first := FirstRepair(c, licenced, |c.repairs|, i);
    assert first.Some? ==> c.repairs[first.value] in c.repairs;
  }

  /** What the gate owes a file: a finding for each write, in file order, at its line, quoting the author. */
  ghost predicate Verdict(c: Scan, licenced: set<string>, findings: seq<Finding>)
    requires Aligned(c)
  {
    && (forall j, k :: 0 <= j < k < |findings| ==> findings[j].index < findings[k].index)
    && (forall i: nat :: Rewrites(c, licenced, i) <==> Found(findings, i))
    && (forall f :: f in findings ==> Faithful(c, licenced, f))
  }

  predicate Found(findings: seq<Finding>, i: nat) {
    exists f :: f in findings && f.index == i
  }

  ghost predicate Faithful(c: Scan, licenced: set<string>, f: Finding)
    requires Aligned(c)
  {
    && Rewrites(c, licenced, f.index)
    && f.index <= |c.sql| && f.line == 1 + Newlines(c.sql[..f.index])
    && var from := QuoteFrom(c, licenced, f.index);
       from <= |c.text| && f.statement == c.sql[from..StatementEnd(c.text, from)]
  }

  lemma {:induction false} InOrderIs(entries: map<nat, Finding>, n: nat)
    requires forall i :: i in entries ==> entries[i].index == i
    ensures var fs := InOrder(entries, n);
            && (forall j, k :: 0 <= j < k < |fs| ==> fs[j].index < fs[k].index)
            && (forall f :: f in fs <==> f.index < n && f.index in entries && entries[f.index] == f)
  {
    if n > 0 { InOrderIs(entries, n - 1); }
  }

  lemma EntriesVerdict(c: Scan, licenced: set<string>)
    requires Aligned(c) && forall k :: 0 <= k < |c.sql| ==> (c.text[k] == '\n' <==> c.sql[k] == '\n')
    ensures Verdict(c, licenced, InOrder(Entries(c, licenced), |c.sql| + 1))
  {
    var entries := Entries(c, licenced);
    forall i | i in entries ensures entries[i].index == i { EntriesAre(c, licenced, i); }
    var fs := InOrder(entries, |c.sql| + 1);
    InOrderIs(entries, |c.sql| + 1);
    forall i: nat ensures Rewrites(c, licenced, i) <==> Found(fs, i) {
      EntriesAre(c, licenced, i);
      assert i in entries ==> entries[i] in fs;
    }
    forall f | f in fs ensures Faithful(c, licenced, f) {
      EntriesAre(c, licenced, f.index);
      SameLines(c.text, c.sql, f.index);
    }
  }

  /** Every row-rewriting statement of one migration that no constraint licences. */
  method FindDml(sql: string, converts: string -> bool) returns (findings: seq<Finding>)
    ensures var c := ScanOf(sql, converts); Aligned(c) && Verdict(c, LicenceSet(c.text), findings)
  {
    var text := Sanitize(sql, false);
    var licenced := LicencedTables(text);
    var definitions := CollectBodies(text);
    var repairs := UsingWrites(text, converts);
    var dynamic := Sanitize(sql, true);
    var scan := Scan(sql, text, dynamic, definitions, repairs, DynamicSpans(text));
    ScanIsAligned(sql, converts);
    var found := new Findings(scan);
    found.Pass1(licenced);
    found.Pass1b(licenced);
    found.Pass2();
    ReadingKeepsOffsets(sql, Blanked);
    EntriesVerdict(scan, licenced);
    findings := InOrder(found.entries, |sql| + 1);
  }

  // ---------- the carve-out ----------

  /**
    Licensing more tables only drops findings, and each one it drops is an UPDATE of a newly
    licenced table or a `USING` repair of one. So an INSERT, DELETE, TRUNCATE or MERGE is reported
    whatever the file licences.
   */
  lemma CarveOut(c: Scan, narrow: set<string>, wide: set<string>, i: nat)
    requires Aligned(c) && narrow <= wide
    ensures Rewrites(c, wide, i) ==> Rewrites(c, narrow, i)
    ensures Rewrites(c, narrow, i) && !Rewrites(c, wide, i) ==>
      || (i <= |c.text| && VerbAt(c.text, i) == Some(Update) && UpdateTarget(c.text, i).Some?
          && UpdateTarget(c.text, i).value in wide - narrow)
      || (exists k: nat :: Repairing(c, narrow, k, i) && c.repairs[k].table in wide)
  {
    if exists k: nat :: Repairing(c, wide, k, i) {
      var k: nat :| Repairing(c, wide, k, i);
      assert Repairing(c, narrow, k, i);
    }
    if exists k: nat :: Repairing(c, narrow, k, i) {
      var k: nat :| Repairing(c, narrow, k, i);
      assert c.repairs[k].table !in wide ==> Repairing(c, wide, k, i);
    }
  }

  /** A MERGE over a write that runs: the outermost one, which is itself in none. */
  lemma {:induction false} OutermostMerge(s: string, runs: nat -> bool, i: nat) returns (j: nat)
    requires i < |s| && InMerge(s, runs, i)
    ensures MergeOver(s, runs, j, i) && !InMerge(s, runs, j)
    decreases i
  {
    j :| j < i && MergeOver(s, runs, j, i);
    if InMerge(s, runs, j) {
      var k := OutermostMerge(s, runs, j);
      StatementEndsTogether(s, k, j);
      assert MergeOver(s, runs, k, i);
      j := k;
    }
  }

  /**
    No write escapes: one that opens a statement of the file outside function bodies is reported,
    or is the UPDATE of a licenced table, or lies in the statement of a MERGE that is reported.
   */
  lemma EveryWriteAnswered(c: Scan, licenced: set<string>, i: nat)
    requires Written(c)(i)
    ensures || Literal(c, licenced, i)
            || (i <= |c.text| && Excused(c.text, licenced, i))
            || exists j: nat :: MergeOver(c.text, Written(c), j, i) && Literal(c, licenced, j)
  {
    if InMerge(c.text, Written(c), i) {
      var j := OutermostMerge(c.text, Written(c), i);
      assert Literal(c, licenced, j);
    }
  }

  /** Nor does one of a command string: it is reported, or lies in a reported MERGE of the string. */
  lemma EveryCommandAnswered(c: Scan, i: nat)
    requires Executed(c)(i)
    ensures Built(c, i) || exists j: nat :: MergeOver(c.dynamic, Executed(c), j, i) && Built(c, j)
  {
    if InMerge(c.dynamic, Executed(c), i) {
      var j := OutermostMerge(c.dynamic, Executed(c), i);
      assert Built(c, j);
    }
  }

  function VerbName(v: Verb): string {
    match v
    case Update => "UPDATE" case Insert => "INSERT" case Delete => "DELETE"
    case Truncate => "TRUNCATE" case Merge => "MERGE"
  }

  lemma KeepsWord(sql: string, mode: Mode, i: nat, word: string)
    requires At(Reading(sql, mode), i, word) && forall k :: 0 <= k < |word| ==> IsLetter(word[k])
    ensures At(sql, i, word)
  {
    var r := Reading(sql, mode);
    forall k: nat | i <= k < i + |word| ensures r[k] == sql[k] {
      assert Uppers(r[i..i + |word|])[k - i] == word[k - i];
      assert r[i..i + |word|][k - i] == r[k];
      ReadingShowsTheText(sql, mode, k);
    }
  }

  /** A verb the gate reads, in either mode, stands in the author's text at that very offset. */
  lemma VerbsAreTheAuthors(sql: string, mode: Mode, i: nat)
    requires VerbAt(Reading(sql, mode), i).Some?
    ensures At(sql, i, VerbName(VerbAt(Reading(sql, mode), i).value))
  {
    var word := VerbName(VerbAt(Reading(sql, mode), i).value);
    assert At(Reading(sql, mode), i, word);
    KeepsWord(sql, mode, i, word);
  }

  // ---------- the gate over a directory ----------

  datatype Migration = Migration(name: string, sql: string)

  /** A file the gate passes: nothing in it rewrites rows without a licence. */
  ghost predicate Passes(sql: string, converts: string -> bool) {
    var c := ScanOf(sql, converts);
    forall i: nat :: !Rewrites(c, LicenceSet(c.text), i)
  }

  /**
    The gate over a set of migrations. It is silent exactly when every file it does not exempt
    passes and every exemption names a file.
   */
  method Review(migrations: seq<Migration>, grandfathered: seq<string>, converts: string -> bool)
    returns (flagged: seq<string>, dead: seq<string>)
    ensures forall name :: name in flagged <==>
      exists m :: m in migrations && m.name == name && m.name !in grandfathered && !Passes(m.sql, converts)
    ensures forall name :: name in dead <==> name in grandfathered && !exists m :: m in migrations && m.name == name
  {
    flagged, dead := [], [];
    for k := 0 to |migrations|
      invariant forall name :: name in flagged <==> exists m ::
        m in migrations[..k] && m.name == name && m.name !in grandfathered && !Passes(m.sql, converts)
    {
      var m := migrations[k];
      assert forall x :: x in migrations[..k + 1] <==> x in migrations[..k] || x == m;
      if m.name in grandfathered { continue; }
      var findings := FindDml(m.sql, converts);
      PassesIs(m.sql, converts, findings);
      if findings == [] { continue; }
      flagged := flagged + [m.name];
    }
    assert migrations[..|migrations|] == migrations;
    for k := 0 to |grandfathered|
      invariant forall name :: name in dead <==>
        name in grandfathered[..k] && !exists m :: m in migrations && m.name == name
    {
      var name := grandfathered[k];
      assert forall x :: x in grandfathered[..k + 1] <==> x in grandfathered[..k] || x == name;
      if !Names(migrations, name) { dead := dead + [name]; }
    }
    assert grandfathered[..|grandfathered|] == grandfathered;
  }

  predicate Names(migrations: seq<Migration>, name: string) {
    exists m :: m in migrations && m.name == name
  }

  lemma PassesIs(sql: string, converts: string -> bool, findings: seq<Finding>)
    requires var c := ScanOf(sql, converts); Aligned(c) && Verdict(c, LicenceSet(c.text), findings)
    ensures Passes(sql, converts) <==> findings == []
  {
    var c := ScanOf(sql, converts);
    if findings != [] {
      assert findings[0] in findings;
      assert Found(findings, findings[0].index);
    }
  }
}
