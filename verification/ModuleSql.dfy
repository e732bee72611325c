/**
  The module boundary of scripts/verify-module-sql-boundary.ts: an offset-preserving reader that
  keeps the SQL a TypeScript source holds, and the tables named in it.
 */
module ModuleSql {
  import opened Lists
  import opened Orders
  import opened SqlClauses
  import opened SqlReader
  import opened Texts

  // ---------- literals and interpolations ----------

  function Min(a: nat, b: nat): nat { if a < b then a else b }

  /** Just past the literal that opens before `i`; a regex ends at a line break, a quote at the end of the text. */
  function QuotedEnd(s: string, i: nat, quote: char): (end: nat)
    ensures end <= |s| && (i <= |s| ==> i <= end)
    decreases |s| - i
  {
    if i >= |s| then |s|
    else if s[i] == '\\' then QuotedEnd(s, i + 2, quote)
    else if s[i] == quote then i + 1
    else if quote == '/' && s[i] == '\n' then i
    else QuotedEnd(s, i + 1, quote)
  }

  /** Just past the `}` that closes an interpolation read from `i` at `depth`, its literals skipped whole. */
  function InterpolationEnd(s: string, i: nat, depth: nat): (end: nat)
    ensures i <= |s| ==> i <= end <= |s|
    ensures i > |s| ==> end == |s|
    decreases |s| - i, 1
  {
    if i >= |s| then |s|
    else if depth == 0 then i
    else if s[i] == '"' || s[i] == '\'' then InterpolationEnd(s, Later(i, QuotedEnd(s, i + 1, s[i])), depth)
    else if s[i] == '`' then InterpolationEnd(s, Later(i, TemplateEnd(s, i + 1)), depth)
    else if s[i] == '{' then InterpolationEnd(s, i + 1, depth + 1)
    else if s[i] == '}' then InterpolationEnd(s, i + 1, depth - 1)
    else InterpolationEnd(s, i + 1, depth)
  }

  function Later(i: nat, end: nat): (j: nat)
    ensures j > i && j >= end
  {
    if end > i then end else i + 1
  }

  /** Just past the backtick that closes a template read from `i`. */
  function TemplateEnd(s: string, i: nat): (end: nat)
    ensures end <= |s| + 1 && (i <= |s| ==> i <= end)
    decreases |s| - i, 0
  {
    if i >= |s| then |s|
    else if s[i] == '`' then i + 1
    else if s[i] == '\\' then TemplateEnd(s, i + 2)
    else if Pair(s, i, '$', '{') then TemplateEnd(s, Later(i, InterpolationEnd(s, i + 2, 1)))
    else TemplateEnd(s, i + 1)
  }

  // ---------- what makes a literal SQL ----------

  predicate EndsWith(s: string, word: string) {
    |word| <= |s| && s[|s| - |word|..] == word
  }

  function Drop(s: string, n: nat): string
    requires n <= |s|
  {
    s[..|s| - n]
  }

  /** The code before a template ends with the tag `sql`. */
  predicate SqlTag(out: string) {
    var code := TrimEnd(out);
    EndsWith(code, "sql")
    && (|code| == 3 || !(IsWord(code[|code| - 4]) || code[|code| - 4] == '$' || code[|code| - 4] == '.'))
  }

  /** The code ends with a `.` and the word, spaces between them aside. */
  predicate EndsWithMember(code: string, word: string) {
    EndsWith(code, word) && EndsWith(TrimEnd(Drop(code, |word|)), ".")
  }

  /** The code before a literal opens a call of `sql.raw`, `.execute` or `.unsafe`. */
  predicate SqlCall(out: string) {
    var code := TrimEnd(out);
    EndsWith(code, "(") &&
    var callee := TrimEnd(Drop(code, 1));
    || EndsWithMember(callee, "execute")
    || EndsWithMember(callee, "unsafe")
    || (EndsWithMember(callee, "raw") && EndsWith(TrimEnd(Drop(TrimEnd(Drop(callee, 3)), 1)), "sql"))
  }

  /** Is a literal behind this code one that a database executes? */
  predicate SqlLiteral(code: string, quote: char) {
    SqlCall(code) || (quote == '`' && SqlTag(code))
  }

  // ---------- the walker ----------

  const REGEX_PRECEDERS := ['(', ',', '=', ':', '[', '!', '&', '|', '?', '{', '}', ';', '+', '-', '*', '%', '~', '^']

  /** Where a token ends, what it reads as, the last character of code up to it, and whether it is an SQL literal. */
  datatype Lexeme = Lexeme(next: nat, piece: string, prev: Option<char>, sql: bool)

  function Kept(s: string, i: nat, j: nat, keeps: bool): (r: string)
    requires i <= j <= |s|
    ensures |r| == j - i
  {
    if keeps then s[i..j] else Blank(s[i..j])
  }

  /** Does the template keep the character at `i`: neither an escape nor the start of an interpolation? */
  predicate PlainIn(s: string, i: nat)
    requires i < |s|
  {
    s[i] != '\\' && !Pair(s, i, '$', '{')
  }

  /** Where the template goes on after what starts at `i`. */
  function TemplateStep(s: string, i: nat): (j: nat)
    requires i < |s|
    ensures i < j <= |s| && (PlainIn(s, i) ==> j == i + 1)
  {
    if s[i] == '\\' then Min(i + 2, |s|)
    else if Pair(s, i, '$', '{') then Min(Later(i, InterpolationEnd(s, i + 2, 1)), |s|)
    else i + 1
  }

  /** The inside of a template up to its backtick or the end of the text. */
  function TemplateText(s: string, i: nat, keeps: bool): (r: (nat, string))
    requires i <= |s|
    ensures i <= r.0 <= |s| && |r.1| == r.0 - i
    ensures r.0 < |s| ==> s[r.0] == '`'
    decreases |s| - i
  {
    if i == |s| || s[i] == '`' then (i, "")
    else
      var j := TemplateStep(s, i);
      var rest := TemplateText(s, j, keeps);
      (rest.0, Kept(s, i, j, keeps && PlainIn(s, i)) + rest.1)
  }

  /** A literal whose inside reads as `inside`, closed by what stands from `close` to `end`. */
  function Delimited(s: string, i: nat, inside: string, close: nat, end: nat, sql: bool): (t: Lexeme)
    requires i < close <= end <= |s| && |inside| == close - i - 1
    ensures t.next == end && |t.piece| == end - i
  {
    Lexeme(end, Blank(s[i..i + 1]) + inside + Blank(s[close..end]), Some(s[i]), sql)
  }

  /** A quoted literal, its delimiters blank. */
  function QuotedLexeme(s: string, i: nat, sql: bool): (t: Lexeme)
    requires i < |s|
    ensures i < t.next <= |s| && |t.piece| == t.next - i
  {
    var end := QuotedEnd(s, i + 1, s[i]);
    var close := BodyEnd(i, end);
    Delimited(s, i, Kept(s, i + 1, close, sql), close, end, sql)
  }

  /** A template, its delimiters blank. */
  function TemplateLexeme(s: string, i: nat, sql: bool): (t: Lexeme)
    requires i < |s| && s[i] == '`'
    ensures i < t.next <= |s| && |t.piece| == t.next - i
  {
    var inside := TemplateText(s, i + 1, sql);
    Delimited(s, i, inside.1, inside.0, Min(inside.0 + 1, |s|), sql)
  }

  function NextLexeme(s: string, i: nat, out: string, prev: Option<char>): (t: Lexeme)
    requires i < |s|
    ensures i < t.next <= |s| && |t.piece| == t.next - i
  {
    var c := s[i];
    if Pair(s, i, '/', '/') then
      var end := FindChar(s, i, '\n');
      Lexeme(end, Blank(s[i..end]), prev, false)
    else if Pair(s, i, '/', '*') then
      var end := CommentEnd(s, i + 2);
      Lexeme(end, Blank(s[i..end]), prev, false)
    else if c == '/' && (prev.None? || prev.value in REGEX_PRECEDERS) then
      var end := QuotedEnd(s, i + 1, '/');
      Lexeme(end, Blank(s[i..end]), Some('/'), false)
    else if c == '"' || c == '\'' then QuotedLexeme(s, i, SqlCall(out))
    else if c == '`' then TemplateLexeme(s, i, SqlLiteral(out, '`'))
    else
      Lexeme(i + 1, [c], if IsSpace(c) then prev else Some(c), false)
  }

  datatype Sql = Sql(text: string, literals: nat)

  function Walk(s: string, i: nat, out: string, prev: Option<char>, literals: nat): (r: Sql)
    requires i <= |s|
    decreases |s| - i
  {
    if i == |s| then Sql(out, literals)
    else
      var t := NextLexeme(s, i, out, prev);
      Walk(s, t.next, out + t.piece, t.prev, literals + if t.sql then 1 else 0)
  }

  function SqlIn(source: string): Sql {
    Walk(source, 0, "", None, 0)
  }

  // ---------- every character is kept or blanked, where it stood ----------

  lemma BlankMasks(s: string, i: nat, j: nat)
    requires i <= j <= |s|
    ensures Masks(s[i..j], Blank(s[i..j]))
  {
  }

  lemma KeptMasks(s: string, i: nat, j: nat, keeps: bool)
    requires i <= j <= |s|
    ensures Masks(s[i..j], Kept(s, i, j, keeps))
  {
  }

  lemma MasksThree(s: string, i: nat, j: nat, k: nat, end: nat, a: string, b: string, c: string)
    requires i <= j <= k <= end <= |s|
    requires Masks(s[i..j], a) && Masks(s[j..k], b) && Masks(s[k..end], c)
    ensures Masks(s[i..end], a + b + c)
  {
    MasksJoin(s[i..j], a, s[j..k], b);
    MasksJoin(s[i..j] + s[j..k], a + b, s[k..end], c);
    assert s[i..end] == s[i..j] + s[j..k] + s[k..end];
  }

  lemma {:induction false} TemplateMasks(s: string, i: nat, keeps: bool)
    requires i <= |s|
    ensures var r := TemplateText(s, i, keeps); Masks(s[i..r.0], r.1)
    decreases |s| - i
  {
    if i < |s| && s[i] != '`' {
      var j := TemplateStep(s, i);
      var first, rest := Kept(s, i, j, keeps && PlainIn(s, i)), TemplateText(s, j, keeps);
      TemplateMasks(s, j, keeps);
      KeptMasks(s, i, j, keeps && PlainIn(s, i));
      MasksJoin(s[i..j], first, s[j..rest.0], rest.1);
      assert s[i..j] + s[j..rest.0] == s[i..rest.0];
    }
  }

  lemma QuotedMasks(s: string, i: nat, sql: bool)
    requires i < |s|
    ensures var t := QuotedLexeme(s, i, sql); Masks(s[i..t.next], t.piece)
  {
    var end := QuotedEnd(s, i + 1, s[i]);
    var close := BodyEnd(i, end);
    KeptMasks(s, i + 1, close, sql);
    DelimitedMasks(s, i, close, end, Kept(s, i + 1, close, sql));
  }

  lemma TemplateLexemeMasks(s: string, i: nat, sql: bool)
    requires i < |s| && s[i] == '`'
    ensures var t := TemplateLexeme(s, i, sql); Masks(s[i..t.next], t.piece)
  {
    var inside := TemplateText(s, i + 1, sql);
    TemplateMasks(s, i + 1, sql);
    DelimitedMasks(s, i, inside.0, Min(inside.0 + 1, |s|), inside.1);
  }

  lemma DelimitedMasks(s: string, i: nat, close: nat, end: nat, inside: string)
    requires i < close <= end <= |s| && Masks(s[i + 1..close], inside)
    ensures Masks(s[i..end], Blank(s[i..i + 1]) + inside + Blank(s[close..end]))
  {
    BlankMasks(s, i, i + 1);
    BlankMasks(s, close, end);
    MasksThree(s, i, i + 1, close, end, Blank(s[i..i + 1]), inside, Blank(s[close..end]));
  }

  lemma LexemeMasks(s: string, i: nat, out: string, prev: Option<char>)
    requires i < |s|
    ensures var t := NextLexeme(s, i, out, prev); Masks(s[i..t.next], t.piece)
  {
    if s[i] == '"' || s[i] == '\'' {
      QuotedMasks(s, i, SqlCall(out));
    } else if s[i] == '`' {
      TemplateLexemeMasks(s, i, SqlLiteral(out, '`'));
    } else {
      BlankMasks(s, i, NextLexeme(s, i, out, prev).next);
    }
  }

  lemma {:induction false} WalkMasks(s: string, i: nat, out: string, prev: Option<char>, literals: nat)
    requires i <= |s| && Masks(s[..i], out)
    ensures Masks(s, Walk(s, i, out, prev, literals).text)
    decreases |s| - i
  {
    if i == |s| {
      assert s[..i] == s;
    } else {
      var t := NextLexeme(s, i, out, prev);
      LexemeMasks(s, i, out, prev);
      MasksJoin(s[..i], out, s[i..t.next], t.piece);
      assert s[..i] + s[i..t.next] == s[..t.next];
      WalkMasks(s, t.next, out + t.piece, t.prev, literals + if t.sql then 1 else 0);
    }
  }

  /** The reading has the length of the source, and each character is the source's or a blank, line breaks kept. */
  lemma SqlKeepsOffsets(source: string)
    ensures Masks(source, SqlIn(source).text)
    ensures forall k :: 0 <= k < |source| ==> (SqlIn(source).text[k] == '\n' <==> source[k] == '\n')
  {
    assert source[..0] == "";
    WalkMasks(source, 0, "", None, 0);
  }

  // ---------- the loops of the source ----------

  method ReadTemplate(s: string, i: nat, keeps: bool) returns (next: nat, piece: string)
    requires i <= |s|
    ensures (next, piece) == TemplateText(s, i, keeps)
  {
    next, piece := i, "";
    while next < |s| && s[next] != '`'
      invariant i <= next <= |s| && |piece| == next - i
      invariant TemplateFrom(s, i, next, piece, keeps)
      decreases |s| - next
    {
      var j := TemplateStep(s, next);
      TemplateOn(s, i, next, piece, keeps);
      if s[next] == '\\' || Pair(s, next, '$', '{') { piece := piece + Blank(s[next..j]); }
      else if keeps { piece := piece + s[next..j]; }
      else { piece := piece + Blank(s[next..j]); }
      next := j;
    }
    assert piece + "" == piece;
  }

  /** What was read up to `next`, and what there is from it, make the whole. */
  predicate TemplateFrom(s: string, i: nat, next: nat, piece: string, keeps: bool)
    requires i <= |s| && next <= |s|
  {
    var whole, rest := TemplateText(s, i, keeps), TemplateText(s, next, keeps);
    whole.0 == rest.0 && whole.1 == piece + rest.1
  }

  lemma TemplateOn(s: string, i: nat, next: nat, piece: string, keeps: bool)
    requires i <= |s| && next < |s| && s[next] != '`' && TemplateFrom(s, i, next, piece, keeps)
    ensures var j := TemplateStep(s, next);
            TemplateFrom(s, i, j, piece + Kept(s, next, j, keeps && PlainIn(s, next)), keeps)
  {
    var j := TemplateStep(s, next);
    var first, rest := Kept(s, next, j, keeps && PlainIn(s, next)), TemplateText(s, j, keeps);
    TemplateUnfolds(s, next, keeps);
    Reassociates(piece, first, rest.1);
  }

  lemma Reassociates(a: string, b: string, c: string)
    ensures a + (b + c) == a + b + c
  {
  }

  lemma TemplateUnfolds(s: string, i: nat, keeps: bool)
    requires i < |s| && s[i] != '`'
    ensures var j := TemplateStep(s, i); var rest := TemplateText(s, j, keeps);
            TemplateText(s, i, keeps) == (rest.0, Kept(s, i, j, keeps && PlainIn(s, i)) + rest.1)
  {
  }

  method ReadTemplateLexeme(s: string, i: nat, sql: bool) returns (t: Lexeme)
    requires i < |s| && s[i] == '`'
    ensures t == TemplateLexeme(s, i, sql)
  {
    var inside, piece := ReadTemplate(s, i + 1, sql);
    t := Delimited(s, i, piece, inside, Min(inside + 1, |s|), sql);
  }

  method ReadLexeme(s: string, i: nat, out: string, prev: Option<char>) returns (t: Lexeme)
    requires i < |s|
    ensures t == NextLexeme(s, i, out, prev)
  {
    var c := s[i];
    if Pair(s, i, '/', '/') {
      var end := FindChar(s, i, '\n');
      return Lexeme(end, Blank(s[i..end]), prev, false);
    }
    if Pair(s, i, '/', '*') {
      var end := CommentEnd(s, i + 2);
      return Lexeme(end, Blank(s[i..end]), prev, false);
    }
    if c == '/' && (prev.None? || prev.value in REGEX_PRECEDERS) {
      var end := QuotedEnd(s, i + 1, '/');
      return Lexeme(end, Blank(s[i..end]), Some('/'), false);
    }
    if c == '"' || c == '\'' { return QuotedLexeme(s, i, SqlCall(out)); }
    if c == '`' {
      t := ReadTemplateLexeme(s, i, SqlLiteral(out, '`'));
      return;
    }
    t := Lexeme(i + 1, [c], if IsSpace(c) then prev else Some(c), false);
  }

  lemma WalkOn(s: string, i: nat, out: string, prev: Option<char>, literals: nat)
    requires i < |s|
    ensures var t := NextLexeme(s, i, out, prev);
            Walk(s, i, out, prev, literals) == Walk(s, t.next, out + t.piece, t.prev, literals + if t.sql then 1 else 0)
  {
  }

  method SqlText(source: string) returns (r: Sql)
    ensures r == SqlIn(source)
  {
    var out, prev, literals, i := "", None, 0, 0;
    while i < |source|
      invariant i <= |source|
      invariant Walk(source, i, out, prev, literals) == SqlIn(source)
      decreases |source| - i
    {
      var t := ReadLexeme(source, i, out, prev);
      WalkOn(source, i, out, prev, literals);
      out, prev, i := out + t.piece, t.prev, t.next;
      if t.sql { literals := literals + 1; }
    }
    r := Sql(out, literals);
  }

  // ---------- table references ----------

  function TableRun(s: string, i: nat): (j: nat)
    requires i <= |s|
    ensures i <= j <= |s|
    decreases |s| - i
  {
    if i < |s| && (IsWord(s[i]) || s[i] == '"' || s[i] == '.' || s[i] == '$') then TableRun(s, i + 1) else i
  }

  function NameAt(s: string, i: nat): Option<(nat, string)>
    requires i <= |s|
  {
    if i < |s| && (IsLetter(s[i]) || s[i] == '_' || s[i] == '"')
    then Some((TableRun(s, i + 1), s[i..TableRun(s, i + 1)])) else None
  }

  /** A name, `ONLY` skipped when a name follows it. */
  function OnlyName(s: string, i: nat): Option<(nat, string)>
    requires i <= |s|
  {
    if NameAt(s, After(s, i, ["ONLY"])).Some? then NameAt(s, After(s, i, ["ONLY"])) else NameAt(s, i)
  }

  function ClauseKeyword(s: string, i: nat): (j: nat)
    requires i <= |s|
    ensures i <= j <= |s|
  {
    if After(s, i, ["FROM"]) > i then After(s, i, ["FROM"])
    else if After(s, i, ["JOIN"]) > i then After(s, i, ["JOIN"])
    else if After(s, i, ["INTO"]) > i then After(s, i, ["INTO"])
    else if After(s, i, ["UPDATE"]) > i then After(s, i, ["UPDATE"])
    else After(s, i, ["TRUNCATE"])
  }

  /** A clause that names a table, and the name. */
  function TableClause(s: string, i: nat): Option<(nat, string)> {
    if i >= |s| || !Boundary(s, i) || ClauseKeyword(s, i) == i then None
    else
      var j := ClauseKeyword(s, i);
      var k := After(s, j, ["TABLE"]);
      if OnlyName(s, k).Some? then OnlyName(s, k) else OnlyName(s, j)
  }

  const NOT_A_TABLE := ["SET", "SELECT", "VALUES", "WHERE", "RETURNING", "LATERAL", "DISTINCT", "ALL"]

  datatype Reference = Reference(table: string, line: nat)

  /** A match that names a table: no keyword, and no call. */
  predicate NamesTable(s: string, m: Match) {
    Uppers(m.name) !in NOT_A_TABLE && m.start <= |s| && !(m.end < |s| && s[m.end] == '(')
  }

  function ReferenceOf(s: string): Match -> seq<Reference> {
    (m: Match) => if NamesTable(s, m) then [Reference(m.name, 1 + Newlines(s[..m.start]))] else []
  }

  method ReadReference(sql: string, m: Match) returns (refs: seq<Reference>)
    requires m.start <= |sql|
    ensures refs == ReferenceOf(sql)(m)
  {
    if Uppers(m.name) in NOT_A_TABLE { return []; }
    if m.end < |sql| && sql[m.end] == '(' { return []; }
    refs := [Reference(m.name, 1 + Newlines(sql[..m.start]))];
  }

  method FindTableReferences(sql: string) returns (refs: seq<Reference>)
    ensures refs == Gather(ReferenceOf(sql), Matches(TableClause, sql, 0))
  {
    var clauses := Matches(TableClause, sql, 0);
    MatchesAre(TableClause, sql, 0);
    ghost var of := ReferenceOf(sql);
    refs := [];
    for k := 0 to |clauses|
      invariant refs == Gather(of, clauses[..k])
    {
      GatherStep(of, clauses, k);
      assert clauses[k] in clauses;
      var found := ReadReference(sql, clauses[k]);
      refs := refs + found;
    }
    GatherWhole(of, clauses);
  }

  // ---------- whose table is it ----------

  function Unquoted(name: string): string {
    if name == [] then [] else (if name[0] == '"' then [] else [Lower(name[0])]) + Unquoted(name[1..])
  }

  predicate StartsWith(s: string, word: string) {
    word <= s
  }

  /** The schema of a name, when it has one, and the rest. */
  function Split(name: string): (Option<string>, string) {
    var lower := Unquoted(name);
    var dot := FindChar(lower, 0, '.');
    if dot == |lower| then (None, lower) else (Some(lower[..dot]), lower[dot + 1..])
  }

  predicate IsSystemRelation(name: string) {
    var parts := Split(name);
    StartsWith(parts.1, "pg_") || (parts.0.Some? && parts.0.value in ["pg_catalog", "information_schema", "drizzle"])
  }

  predicate IsOwnTable(name: string, own: set<string>) {
    var parts := Split(name);
    (parts.0.None? || parts.0.value == "public") && parts.1 in own
  }

  predicate Foreign(name: string, own: set<string>) {
    !IsOwnTable(name, own) && !IsSystemRelation(name)
  }

  // ---------- the review of a module ----------

  /** A file, and which of its import specifiers name the platform's schema. */
  datatype ScannedFile = ScannedFile(file: string, source: string, platformImports: seq<string>)

  datatype Problem = Imports(file: string, specifier: string) | Names(file: string, table: string, line: nat)

  /** The file names a foreign table in the SQL it holds, at that line of its source. */
  predicate NamesForeign(f: ScannedFile, own: set<string>, table: string, line: nat) {
    Foreign(table, own)
    && exists m :: m in Matches(TableClause, SqlIn(f.source).text, 0) && Mentions(f, m, table, line)
  }

  predicate Mentions(f: ScannedFile, m: Match, table: string, line: nat) {
    NamesTable(SqlIn(f.source).text, m) && m.name == table && m.start <= |f.source|
    && line == 1 + Newlines(f.source[..m.start])
  }

  predicate Commits(f: ScannedFile, own: set<string>, p: Problem) {
    p.file == f.file &&
    match p
    case Imports(_, specifier) => specifier in f.platformImports
    case Names(_, table, line) => NamesForeign(f, own, table, line)
  }

  /** A reference is found exactly where a clause of the SQL names a table, at its line of the source. */
  lemma ReferencesAre(f: ScannedFile, r: Reference)
    ensures var sql := SqlIn(f.source).text;
            r in Gather(ReferenceOf(sql), Matches(TableClause, sql, 0)) <==>
              exists m :: m in Matches(TableClause, sql, 0) && Mentions(f, m, r.table, r.line)
  {
    var sql := SqlIn(f.source).text;
    GatherHas(ReferenceOf(sql), Matches(TableClause, sql, 0), r);
    SqlKeepsOffsets(f.source);
    forall m: Match ensures r in ReferenceOf(sql)(m) <==> Mentions(f, m, r.table, r.line) {
      ReferenceIs(f, sql, m, r);
    }
  }

  lemma ReferenceIs(f: ScannedFile, sql: string, m: Match, r: Reference)
    requires sql == SqlIn(f.source).text && |sql| == |f.source|
    requires forall k :: 0 <= k < |sql| ==> (sql[k] == '\n' <==> f.source[k] == '\n')
    ensures r in ReferenceOf(sql)(m) <==> Mentions(f, m, r.table, r.line)
  {
    if m.start <= |sql| { SameLines(sql, f.source, m.start); }
  }

  predicate Imported(f: ScannedFile, n: nat, p: Problem)
    requires n <= |f.platformImports|
  {
    p.Imports? && p.file == f.file && p.specifier in f.platformImports[..n]
  }

  method ReviewImports(f: ScannedFile) returns (problems: seq<Problem>)
    ensures forall p :: p in problems <==> Imported(f, |f.platformImports|, p)
  {
    problems := [];
    for k := 0 to |f.platformImports|
      invariant forall p :: p in problems <==> Imported(f, k, p)
    {
      var more := Imports(f.file, f.platformImports[k]);
      assert f.platformImports[..k + 1] == f.platformImports[..k] + [f.platformImports[k]];
      problems := problems + [more];
    }
  }

  predicate Named(file: string, refs: seq<Reference>, own: set<string>, p: Problem) {
    p.Names? && p.file == file && Reference(p.table, p.line) in refs && Foreign(p.table, own)
  }

  method ReviewReferences(file: string, refs: seq<Reference>, own: set<string>) returns (problems: seq<Problem>)
    ensures forall p :: p in problems <==> Named(file, refs, own, p)
  {
    problems := [];
    for k := 0 to |refs|
      invariant forall p :: p in problems <==> Named(file, refs[..k], own, p)
    {
      assert refs[..k + 1] == refs[..k] + [refs[k]];
      if IsOwnTable(refs[k].table, own) || IsSystemRelation(refs[k].table) { continue; }
      problems := problems + [Names(file, refs[k].table, refs[k].line)];
    }
    assert refs[..|refs|] == refs;
  }

  method ReviewFile(f: ScannedFile, own: set<string>) returns (problems: seq<Problem>)
    ensures forall p :: p in problems <==> Commits(f, own, p)
  {
    problems := ReviewImports(f);
    var sql := SqlText(f.source);
    var refs := FindTableReferences(sql.text);
    var named := ReviewReferences(f.file, refs, own);
    assert f.platformImports[..|f.platformImports|] == f.platformImports;
    forall p: Problem | p.Names? { ReferencesAre(f, Reference(p.table, p.line)); }
    problems := problems + named;
  }

  /**
    The problems of a module are exactly the imports of the platform's schema and the foreign tables
    its SQL names, each at its line; a module that declares no table is refused.
   */
  method ReviewModule(files: seq<ScannedFile>, own: set<string>) returns (vacuous: bool, problems: seq<Problem>)
    ensures vacuous <==> own == {}
    ensures forall p :: p in problems <==> !vacuous && exists f :: f in files && Commits(f, own, p)
  {
    problems := [];
    vacuous := own == {};
    if vacuous { return; }
    for k := 0 to |files|
      invariant forall p :: p in problems <==> exists f :: f in files[..k] && Commits(f, own, p)
    {
      var more := ReviewFile(files[k], own);
      assert forall f :: f in files[..k + 1] <==> f in files[..k] || f == files[k];
      problems := problems + more;
    }
    assert files[..|files|] == files;
  }
}
