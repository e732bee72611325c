/** The clauses scripts/verify-no-migration-dml.ts reads. */
module SqlClauses {
  /*
    Found in a blanked reading: function bodies, actions of an ALTER TABLE, and the tables whose
    constraint clauses licence an update.
   */

  import opened Lists
  import opened Orders
  import opened SqlReader
  import opened Texts

  datatype Span = Span(start: nat, end: nat)

  predicate Within(spans: seq<Span>, i: nat) {
    exists k :: 0 <= k < |spans| && spans[k].start <= i < spans[k].end
  }

  /** Just past the statement's `;`, or the end of the text. */
  function StatementEnd(s: string, i: nat): (end: nat)
    requires i <= |s|
    ensures i <= end <= |s|
  {
    var j := FindChar(s, i, ';');
    if j < |s| then j + 1 else |s|
  }

  // ---------- matching a pattern from left to right ----------

  /** A match of a pattern: where it starts and ends, and the name it captures, when it has one. */
  datatype Match = Match(start: nat, end: nat, name: string)

  /** A pattern tried at one offset: where the match ends and what it captures. */
  type Pattern = (string, nat) -> Option<(nat, string)>

  predicate MatchesAt(p: Pattern, s: string, i: nat) {
    p(s, i).Some? && i < p(s, i).value.0 <= |s|
  }

  /** Every match from `i`, each search starting where the last match ended. */
  function Matches(p: Pattern, s: string, i: nat): seq<Match>
    requires i <= |s|
    decreases |s| - i
  {
    if i == |s| then []
    else if MatchesAt(p, s, i) then
      var m := p(s, i).value;
      [Match(i, m.0, m.1)] + Matches(p, s, m.0)
    else Matches(p, s, i + 1)
  }

  predicate IsMatch(p: Pattern, s: string, m: Match) {
    MatchesAt(p, s, m.start) && p(s, m.start).value == (m.end, m.name)
  }

  lemma {:induction false} MatchesAre(p: Pattern, s: string, i: nat)
    requires i <= |s|
    ensures forall m :: m in Matches(p, s, i) ==> i <= m.start < m.end <= |s| && IsMatch(p, s, m)
    decreases |s| - i
  {
    if i < |s| {
      MatchesAre(p, s, if MatchesAt(p, s, i) then p(s, i).value.0 else i + 1);
    }
  }

  /** A place where the pattern holds is a match, unless an earlier match runs over it. */
  lemma {:induction false} MatchesMissNothing(p: Pattern, s: string, i: nat, j: nat)
    requires i <= j < |s| && MatchesAt(p, s, j)
    ensures exists m :: m in Matches(p, s, i) && m.start <= j < m.end
    decreases |s| - i
  {
    if MatchesAt(p, s, i) {
      var m := p(s, i).value;
      var first, rest := Match(i, m.0, m.1), Matches(p, s, m.0);
      assert first in [first] + rest;
      if m.0 <= j {
        MatchesMissNothing(p, s, m.0, j);
        var later :| later in rest && later.start <= j < later.end;
        assert later in [first] + rest;
      }
    } else {
      MatchesMissNothing(p, s, i + 1, j);
    }
  }

  /** `words`, one or more spaces between them: where the last one ends. */
  function Phrase(s: string, i: nat, words: seq<string>): Option<nat>
    requires i <= |s|
    decreases |words|
  {
    if words == [] then Some(i)
    else if !At(s, i, words[0]) then None
    else
      var end := i + |words[0]|;
      if |words| == 1 then Some(end)
      else if SkipSpaces(s, end) == end then None
      else Phrase(s, SkipSpaces(s, end), words[1..])
  }

  /** Where the text goes on after `words` and a space; its own start when they are not there. */
  function After(s: string, i: nat, words: seq<string>): (j: nat)
    requires i <= |s|
    ensures i <= j <= |s|
  {
    var end := Phrase(s, i, words);
    if end.Some? && i <= end.value <= |s| && SkipSpaces(s, end.value) > end.value
    then SkipSpaces(s, end.value) else i
  }

  /** A phrase between word boundaries. */
  function PhraseAt(s: string, i: nat, words: seq<string>): Option<(nat, string)> {
    if i > |s| || !Boundary(s, i) then None
    else
      var end := Phrase(s, i, words);
      if end.Some? && end.value <= |s| && Boundary(s, end.value) then Some((end.value, "")) else None
  }

  // ---------- names ----------

  /** An identifier at `i`: its bare name and where it ends. */
  function Identifier(s: string, i: nat): (r: Option<(string, nat)>)
    requires i <= |s|
    ensures r.Some? ==> i < r.value.1 <= |s|
  {
    if i == |s| then None
    else if s[i] == '"' then
      var k := FindChar(s, i + 1, '"');
      if k < |s| then Some((s[i + 1..k], k + 1)) else None
    else if IsLetter(s[i]) || s[i] == '_' then
      var j := WordRun(s, i + 1);
      Some((s[i..j], j))
    else None
  }

  /** The rest of a qualified name whose last part so far is `name`, ending at `i`. */
  function QualifiedTail(s: string, name: string, i: nat): (r: (string, nat))
    requires i <= |s|
    ensures i <= r.1 <= |s|
    decreases |s| - i
  {
    var dot := SkipSpaces(s, i);
    if dot < |s| && s[dot] == '.' then
      var next := Identifier(s, SkipSpaces(s, dot + 1));
      if next.Some? then QualifiedTail(s, next.value.0, next.value.1) else (name, i)
    else (name, i)
  }

  /** A table name: its last part in lower case, and where it ends. */
  function TableName(s: string, i: nat): (r: Option<(nat, string)>)
    requires i <= |s|
    ensures r.Some? ==> i < r.value.0 <= |s|
  {
    var head := Identifier(s, i);
    if head.None? then None
    else
      var tail := QualifiedTail(s, head.value.0, head.value.1);
      Some((tail.1, Lowers(tail.0)))
  }

  /** A table name, `ONLY` skipped when a name follows it. */
  function OnlyTable(s: string, i: nat): (r: Option<(nat, string)>)
    requires i <= |s|
    ensures r.Some? ==> i < r.value.0 <= |s|
  {
    var j := After(s, i, ["ONLY"]);
    if TableName(s, j).Some? then TableName(s, j) else TableName(s, i)
  }

  /** A table name behind `IF EXISTS` or `IF NOT EXISTS`, when a name follows those. */
  function GuardedTable(s: string, i: nat): (r: Option<(nat, string)>)
    requires i <= |s|
    ensures r.Some? ==> i < r.value.0 <= |s|
  {
    var j := After(s, i, ["IF", "NOT", "EXISTS"]);
    var k := if j > i then j else After(s, i, ["IF", "EXISTS"]);
    if OnlyTable(s, k).Some? then OnlyTable(s, k) else OnlyTable(s, i)
  }

  // ---------- nesting ----------

  function Step(c: char): int {
    if c == '(' then 1 else if c == ')' then -1 else 0
  }

  /** Opening minus closing parentheses in `s[a..b]`. */
  function Nest(s: string, a: nat, b: nat): int
    requires a <= b <= |s|
    decreases b - a
  {
    if a == b then 0 else Nest(s, a, b - 1) + Step(s[b - 1])
  }

  lemma NestStep(s: string, a: nat, b: nat)
    requires a <= b < |s|
    ensures Nest(s, a, b + 1) == Nest(s, a, b) + Step(s[b])
  {
  }

  /** `i` is just past the parenthesis that closes the one at `open`. */
  ghost predicate Closes(s: string, open: nat, i: nat) {
    && open < i <= |s| && Nest(s, open, i) == 0 && s[i - 1] == ')'
    && forall j :: open < j < i ==> Nest(s, open, j) > 0
  }

  lemma ClosesUnique(s: string, open: nat, i: nat, j: nat)
    requires Closes(s, open, i) && Closes(s, open, j)
    ensures i == j
  {
  }

  /** The first `,` or `;` at depth 0, or the limit when there is none before it. */
  function ActionEnd(s: string, i: nat, limit: nat, depth: int): (e: nat)
    requires i <= limit <= |s|
    ensures i <= e <= limit
    decreases limit - i
  {
    if i == limit || (depth == 0 && (s[i] == ',' || s[i] == ';')) then i
    else ActionEnd(s, i + 1, limit, depth + Step(s[i]))
  }

  /** An action stops at the first separator outside parentheses opened since `from`. */
  lemma NestOn(s: string, from: nat, i: nat)
    requires from <= i < |s|
    ensures Nest(s, from, i + 1) == Nest(s, from, i) + Step(s[i])
  {
  }

  lemma {:induction false} ActionEndIs(s: string, from: nat, i: nat, limit: nat)
    requires from <= i <= limit <= |s|
    ensures var e := ActionEnd(s, i, limit, Nest(s, from, i));
            && (forall j :: i <= j < e ==> !(Nest(s, from, j) == 0 && s[j] in [',', ';']))
            && (e < limit ==> Nest(s, from, e) == 0 && s[e] in [',', ';'])
    decreases limit - i
  {
    if i < limit && !(Nest(s, from, i) == 0 && s[i] in [',', ';']) {
      NestOn(s, from, i);
      ActionEndIs(s, from, i + 1, limit);
    }
  }

  /** The `USING` expression, to the end of its ALTER action. */
  method UsingExpression(s: string, from: nat, limit: nat) returns (expr: string)
    requires from <= limit <= |s|
    ensures expr == s[from..ActionEnd(s, from, limit, 0)]
  {
    var depth := 0;
    var i := from;
    while i < limit
      invariant from <= i <= limit
      invariant ActionEnd(s, i, limit, depth) == ActionEnd(s, from, limit, 0)
    {
      if s[i] == '(' { depth := depth + 1; }
      else if s[i] == ')' { depth := depth - 1; }
      else if depth == 0 && (s[i] == ',' || s[i] == ';') { return s[from..i]; }
      i := i + 1;
    }
    expr := s[from..limit];
  }

  // ---------- constraints added NOT VALID ----------

  function NotValid(s: string, i: nat): Option<(nat, string)> {
    PhraseAt(s, i, ["NOT", "VALID"])
  }

  predicate SaysNotValid(s: string) {
    exists i :: 0 <= i < |s| && MatchesAt(NotValid, s, i)
  }

  /** `NOT VALID` stands between the close of the parenthesis at `open` and the end of its action. */
  ghost predicate DeferredFrom(s: string, open: nat) {
    exists i: nat :: Closes(s, open, i) && SaysNotValid(s[i..ActionEnd(s, i, |s|, 0)])
  }

  /** The parenthesis the gate starts at: it searches back from one past the match that ends at `p`. */
  function ParenthesisRead(s: string, p: nat): nat
    requires 1 <= p <= |s|
  {
    if p < |s| && s[p] == '(' then p else p - 1
  }

  /** Is the `CHECK (` whose match ends at `p` added `NOT VALID`? */
  method IsDeferredCheck(s: string, p: nat) returns (deferred: bool)
    requires 1 <= p <= |s| && s[p - 1] == '('
    ensures deferred <==> DeferredFrom(s, ParenthesisRead(s, p))
  {
    var open := ParenthesisRead(s, p);
    var depth := 0;
    var i := open;
    ghost var closed := false;
    while i < |s|
      invariant open <= i <= |s| && depth == Nest(s, open, i)
      invariant forall j :: open < j <= i ==> Nest(s, open, j) > 0
      invariant !closed
    {
      if s[i] == '(' { depth := depth + 1; }
      else if s[i] == ')' {
        depth := depth - 1;
        if depth == 0 {
          i := i + 1;
          closed := true;
          break;
        }
      }
      i := i + 1;
    }
    var end := ActionEnd(s, i, |s|, 0);
    deferred := SaysNotValid(s[i..end]);
    if closed {
      assert Closes(s, open, i);
      forall j | Closes(s, open, j) ensures j == i { ClosesUnique(s, open, i, j); }
    }
  }

  /** Just after the parenthesis that ends `prefix`, whatever follows `c` is read as the CHECK's own. */
  ghost predicate ReadsItsOwn(prefix: string, c: char) {
    forall rest: string :: ReadsTheCheck(prefix, [c] + rest)
  }

  ghost predicate ReadsTheCheck(prefix: string, rest: string) {
    prefix != [] ==>
      (DeferredFrom(prefix + rest, ParenthesisRead(prefix + rest, |prefix|))
       <==> DeferredFrom(prefix + rest, |prefix| - 1))
  }

  /**
    The gate decides by the CHECK's own parenthesis exactly when no second one follows it directly.
    `CHECK ((a)), ADD … NOT VALID` is the failure: the inner close is taken for the CHECK's.
   */
  lemma OwnParenthesisOnly(prefix: string, c: char)
    requires prefix != [] && prefix[|prefix| - 1] == '('
    ensures ReadsItsOwn(prefix, c) <==> c != '('
  {
    if c == '(' { TakesInnerClose(prefix); } else { ReadsOwnOtherwise(prefix, c); }
  }

  lemma ReadsOwn(prefix: string, rest: string)
    requires rest == [] || rest[0] != '('
    ensures ReadsTheCheck(prefix, rest)
  {
    assert rest != [] ==> (prefix + rest)[|prefix|] == rest[0];
    assert prefix != [] ==> ParenthesisRead(prefix + rest, |prefix|) == |prefix| - 1;
  }

  lemma ReadsOwnOtherwise(prefix: string, c: char)
    requires c != '('
    ensures ReadsItsOwn(prefix, c)
  {
    forall rest: string ensures ReadsTheCheck(prefix, [c] + rest) { ReadsOwn(prefix, [c] + rest); }
  }

  const WITNESS: string := "()), NOT VALID"

  lemma SliceOfEnd(s: string, p: nat, k: nat)
    requires p + k <= |s|
    ensures s[p + k..|s|] == s[p..][k..]
  {
  }

  /** The inner parenthesis closes at once, and the outer close hides the comma behind it. */
  lemma InnerCloseDefers(s: string, p: nat)
    requires p <= |s| && s[p..] == WITNESS
    ensures DeferredFrom(s, p)
  {
    assert forall k :: 0 <= k < 14 ==> s[p + k] == WITNESS[k];
    assert s[p] == s[p..][0] && s[p + 1] == s[p..][1];
    NestStep(s, p, p);
    NestStep(s, p, p + 1);
    assert Closes(s, p, p + 2);
    NoActionBelowZero(s, p + 3, |s|, -1);
    assert ActionEnd(s, p + 2, |s|, 0) == |s|;
    var i: nat := p + 2;
    SliceOfEnd(s, p, 2);
    WitnessSaysNotValid(WITNESS[2..]);
    assert Closes(s, p, i) && SaysNotValid(s[i..ActionEnd(s, i, |s|, 0)]);
  }

  lemma WitnessSaysNotValid(t: string)
    requires t == "), NOT VALID"
    ensures SaysNotValid(t)
  {
    assert t[3..6] == "NOT" && t[7..12] == "VALID";
    assert At(t, 3, "NOT") && At(t, 7, "VALID");
    assert SkipSpaces(t, 6) == 7;
    assert ["NOT", "VALID"][1..] == ["VALID"];
    assert Phrase(t, 3, ["NOT", "VALID"]) == Some(12);
    assert MatchesAt(NotValid, t, 3);
  }

  /** The outer one closes just before the comma, and nothing is left of its action. */
  lemma OuterCloseDoesNot(s: string, p: nat)
    requires 1 <= p <= |s| && s[p - 1] == '(' && s[p..] == WITNESS
    ensures !DeferredFrom(s, p - 1)
  {
    assert s[p] == s[p..][0] && s[p + 1] == s[p..][1] && s[p + 2] == s[p..][2] && s[p + 3] == s[p..][3];
    NestStep(s, p - 1, p - 1);
    NestStep(s, p - 1, p);
    NestStep(s, p - 1, p + 1);
    NestStep(s, p - 1, p + 2);
    assert Closes(s, p - 1, p + 3);
    assert ActionEnd(s, p + 3, |s|, 0) == p + 3;
    var q: nat := p - 1;
    forall j: nat | Closes(s, q, j) ensures !SaysNotValid(s[j..ActionEnd(s, j, |s|, 0)]) {
      ClosesUnique(s, q, p + 3, j);
    }
  }

  lemma WitnessMisread(prefix: string)
    requires prefix != [] && prefix[|prefix| - 1] == '('
    ensures !ReadsTheCheck(prefix, WITNESS)
  {
    var s, p := prefix + WITNESS, |prefix|;
    assert s[p..] == WITNESS && s[p - 1] == '(' && s[p] == WITNESS[0];
    InnerCloseDefers(s, p);
    OuterCloseDoesNot(s, p);
  }

  lemma TakesInnerClose(prefix: string)
    requires prefix != [] && prefix[|prefix| - 1] == '('
    ensures !ReadsItsOwn(prefix, '(')
  {
    WitnessMisread(prefix);
    assert WITNESS == ['('] + WITNESS[1..];
    assert !ReadsTheCheck(prefix, ['('] + WITNESS[1..]);
  }

  lemma {:induction false} NoActionBelowZero(s: string, i: nat, limit: nat, depth: int)
    requires i <= limit <= |s| && depth < 0
    requires forall j :: i <= j < limit ==> s[j] != '('
    ensures ActionEnd(s, i, limit, depth) == limit
    decreases limit - i
  {
    if i < limit { NoActionBelowZero(s, i + 1, limit, depth + Step(s[i])); }
  }

  // ---------- function bodies ----------

  /** A depth that starts at 1 and moves by `step` at each offset of `from..end`. */
  function Depth(step: nat -> int, from: nat, end: nat): int
    requires from <= end
    decreases end
  {
    if from == end then 1 else Depth(step, from, end - 1) + step(end - 1)
  }

  /** The first offset from `i` whose step brings the depth to 0. */
  function Balances(step: nat -> int, i: nat, limit: nat, depth: int): (j: Option<nat>)
    requires i <= limit
    ensures j.Some? ==> i <= j.value < limit
    decreases limit - i
  {
    if i == limit then None
    else if depth + step(i) == 0 then Some(i)
    else Balances(step, i + 1, limit, depth + step(i))
  }

  /** The step at `j` is the first that returns the depth to 0. */
  ghost predicate FirstBalance(step: nat -> int, from: nat, j: nat) {
    from <= j && Depth(step, from, j + 1) == 0 && forall k :: from <= k <= j ==> Depth(step, from, k) != 0
  }

  lemma {:induction false} BalancesIs(step: nat -> int, from: nat, i: nat, limit: nat)
    requires from <= i <= limit && forall k :: from <= k <= i ==> Depth(step, from, k) != 0
    ensures var r := Balances(step, i, limit, Depth(step, from, i));
            && (r.Some? ==> FirstBalance(step, from, r.value))
            && (r.None? ==> forall k :: from <= k <= limit ==> Depth(step, from, k) != 0)
    decreases limit - i
  {
    if i < limit {
      var depth, next := Depth(step, from, i), Depth(step, from, i + 1);
      assert next == depth + step(i);
      if next != 0 {
        BalancesIs(step, from, i + 1, limit);
        assert Balances(step, i, limit, depth) == Balances(step, i + 1, limit, next);
      } else {
        assert Balances(step, i, limit, depth) == Some(i);
      }
    }
  }

  /** CASE opens a level of an atomic body and END closes one. */
  function AtomicStep(s: string): nat -> int {
    (i: nat) => if WordAt(s, i, "CASE") then 1 else if WordAt(s, i, "END") then -1 else 0
  }

  function AtomicOpen(s: string, i: nat): Option<(nat, string)> {
    PhraseAt(s, i, ["BEGIN", "ATOMIC"])
  }

  function DollarTag(s: string, i: nat): Option<(nat, string)> {
    if i < |s| && s[i] == '$' then
      var j := TagRun(s, i + 1);
      if j < |s| && s[j] == '$' then Some((j + 1, s[i..j + 1])) else None
    else None
  }

  function TagRun(s: string, i: nat): (j: nat)
    requires i <= |s|
    ensures i <= j <= |s|
    decreases |s| - i
  {
    if i < |s| && IsWord(s[i]) then TagRun(s, i + 1) else i
  }

  /** The first match from `i`. */
  function First(p: Pattern, s: string, i: nat): (r: Option<Match>)
    requires i <= |s|
    ensures r.Some? ==> i <= r.value.start < r.value.end <= |s| && IsMatch(p, s, r.value)
    ensures r.Some? ==> forall j :: i <= j < r.value.start ==> !MatchesAt(p, s, j)
    ensures r.None? ==> forall j :: i <= j < |s| ==> !MatchesAt(p, s, j)
    decreases |s| - i
  {
    if i == |s| then None
    else if MatchesAt(p, s, i) then Some(Match(i, p(s, i).value.0, p(s, i).value.1))
    else First(p, s, i + 1)
  }

  /** Where `word` first stands, exactly as written. */
  function IndexOf(s: string, i: nat, word: string): (r: Option<nat>)
    requires i <= |s|
    ensures r.Some? ==> i <= r.value && r.value + |word| <= |s| && s[r.value..r.value + |word|] == word
    ensures forall j :: i <= j <= |s| && (r.None? || j < r.value) ==> !(word <= s[j..])
    decreases |s| - i
  {
    if word <= s[i..] then Some(i) else if i == |s| then None else IndexOf(s, i + 1, word)
  }

  function DollarBody(s: string, from: nat): (r: Option<Span>)
    requires from <= |s|
  {
    var open := First(DollarTag, s, from);
    if open.None? || open.value.start >= StatementEnd(s, from) then None
    else
      var close := IndexOf(s, open.value.end, open.value.name);
      if close.None? then None else Some(Span(open.value.start, close.value + |open.value.name|))
  }

  /** The body opened by `open`, when that stands before the statement's `;`. */
  function BalancedFrom(s: string, from: nat, open: Option<Match>): (r: Option<Span>)
    requires from <= |s| && (open.Some? ==> open.value.end <= |s|)
  {
    if open.None? || open.value.start >= StatementEnd(s, from) then None
    else
      var end := Balances(AtomicStep(s), open.value.end, |s|, 1);
      if end.None? then None else Some(Span(open.value.start, end.value + 3))
  }

  function AtomicSpan(s: string, from: nat): (r: Option<Span>)
    requires from <= |s|
  {
    BalancedFrom(s, from, First(AtomicOpen, s, from))
  }

  method BalancingEnd(s: string, from: nat) returns (end: Option<nat>)
    requires from <= |s|
    ensures end == Balances(AtomicStep(s), from, |s|, 1)
  {
    ghost var step := AtomicStep(s);
    var depth := 1;
    var i := from;
    while i < |s|
      invariant from <= i <= |s| && depth >= 1
      invariant Balances(step, i, |s|, depth) == Balances(step, from, |s|, 1)
    {
      assert step(i) == if WordAt(s, i, "CASE") then 1 else if WordAt(s, i, "END") then -1 else 0;
      if WordAt(s, i, "CASE") { depth := depth + 1; }
      else if WordAt(s, i, "END") {
        depth := depth - 1;
        if depth == 0 { return Some(i); }
      }
      i := i + 1;
    }
    end := None;
  }

  method BodyFrom(s: string, from: nat, open: Option<Match>) returns (body: Option<Span>)
    requires from <= |s| && (open.Some? ==> open.value.end <= |s|)
    ensures body == BalancedFrom(s, from, open)
  {
    if open.None? || open.value.start >= StatementEnd(s, from) { return None; }
    var end := BalancingEnd(s, open.value.end);
    body := if end.None? then None else Some(Span(open.value.start, end.value + 3));
  }

  /** The span of a `BEGIN ATOMIC` body; a body that never balances has none, so the gate reads on inside it. */
  method AtomicBody(s: string, from: nat) returns (body: Option<Span>)
    requires from <= |s|
    ensures body == AtomicSpan(s, from)
  {
    var open := First(AtomicOpen, s, from);
    body := BodyFrom(s, from, open);
  }

  /** The END at `j` closes the body whose text starts at `i`. */
  ghost predicate ClosesBody(s: string, i: nat, j: nat) {
    WordAt(s, j, "END") && FirstBalance(AtomicStep(s), i, j)
  }

  lemma BalanceCloses(s: string, i: nat)
    requires i <= |s|
    ensures match Balances(AtomicStep(s), i, |s|, 1)
            case Some(j) => ClosesBody(s, i, j)
            case None => forall k :: i <= k <= |s| ==> Depth(AtomicStep(s), i, k) != 0
  {
    var step := AtomicStep(s);
    assert Depth(step, i, i) == 1;
    BalancesIs(step, i, i, |s|);
    var end := Balances(step, i, |s|, 1);
    if end.Some? {
      StaysPositive(s, i, end.value);
      assert Depth(step, i, end.value + 1) == Depth(step, i, end.value) + step(end.value);
    }
  }

  /**
    A span is the shortest balanced one from its `BEGIN ATOMIC`: it ends with the END that first
    returns the count to 0. There is none exactly when no opening stands before the statement's `;`
    or the count never returns to 0.
   */
  lemma AtomicBodyIsShortest(s: string, from: nat, open: Option<Match>)
    requires from <= |s| && open == First(AtomicOpen, s, from)
    ensures var opens := open.Some? && open.value.start < StatementEnd(s, from);
            match AtomicSpan(s, from)
            case Some(body) => opens && body.start == open.value.start
              && exists j: nat :: ClosesBody(s, open.value.end, j) && body.end == j + 3
            case None => opens ==>
              forall k :: open.value.end <= k <= |s| ==> Depth(AtomicStep(s), open.value.end, k) != 0
  {
    BalancedFromIs(s, from, open);
  }

  lemma BalancedFromIs(s: string, from: nat, open: Option<Match>)
    requires from <= |s| && (open.Some? ==> open.value.end <= |s|)
    ensures var opens := open.Some? && open.value.start < StatementEnd(s, from);
            match BalancedFrom(s, from, open)
            case Some(body) => opens && body.start == open.value.start
              && exists j: nat :: ClosesBody(s, open.value.end, j) && body.end == j + 3
            case None => opens ==>
              forall k :: open.value.end <= k <= |s| ==> Depth(AtomicStep(s), open.value.end, k) != 0
  {
    if open.Some? && open.value.start < StatementEnd(s, from) {
      BalanceCloses(s, open.value.end);
    }
  }

  lemma {:induction false} StaysPositive(s: string, from: nat, k: nat)
    requires from <= k && forall j :: from <= j <= k ==> Depth(AtomicStep(s), from, j) != 0
    ensures Depth(AtomicStep(s), from, k) >= 1
  {
    if from < k { StaysPositive(s, from, k - 1); }
  }

  function DefinitionAt(s: string, i: nat): Option<(nat, string)> {
    if i >= |s| || !Boundary(s, i) || After(s, i, ["CREATE"]) == i then None
    else
      var j := After(s, i, ["CREATE"]);
      var k := After(s, j, ["OR", "REPLACE"]);
      if At(s, k, "FUNCTION") && Boundary(s, k + 8) then Some((k + 8, ""))
      else if At(s, k, "PROCEDURE") && Boundary(s, k + 9) then Some((k + 9, ""))
      else None
  }

  function BodyOf(s: string, m: Match): Option<Span>
    requires m.start <= |s|
  {
    var dollar := DollarBody(s, m.start);
    if dollar.Some? then dollar else AtomicSpan(s, m.start)
  }

  function BodyList(s: string): Match -> seq<Span> {
    (m: Match) => if m.start <= |s| && BodyOf(s, m).Some? then [BodyOf(s, m).value] else []
  }

  /** Every `CREATE FUNCTION` or `CREATE PROCEDURE` body of the text. */
  function FunctionBodies(s: string): seq<Span> {
    Gather(BodyList(s), Matches(DefinitionAt, s, 0))
  }

  predicate DefinesBody(s: string, m: Match, span: Span) {
    m.start <= |s| && BodyOf(s, m) == Some(span)
  }

  /** The bodies are exactly those of the definitions: dollar-quoted, or atomic when there is no such quote. */
  lemma FunctionBodiesAre(s: string, span: Span)
    ensures span in FunctionBodies(s) <==> exists m :: m in Matches(DefinitionAt, s, 0) && DefinesBody(s, m, span)
  {
    GatherHas(BodyList(s), Matches(DefinitionAt, s, 0), span);
    forall m: Match ensures span in BodyList(s)(m) <==> DefinesBody(s, m, span) {
    }
  }

  /** A tag stands at both ends of a span and nowhere between. */
  predicate Tagged(s: string, span: Span, tag: string) {
    && 2 <= |tag| && span.start + 2 * |tag| <= span.end <= |s|
    && s[span.start..span.start + |tag|] == tag && s[span.end - |tag|..span.end] == tag
    && forall j :: span.start + |tag| <= j < span.end - |tag| ==> !(tag <= s[j..])
  }

  /** A tag that stands again past its first standing encloses a body. */
  lemma TagCloses(s: string, open: Match, close: nat)
    requires open.start < open.end <= |s| && open.name == s[open.start..open.end] && |open.name| >= 2
    requires open.end <= close && close + |open.name| <= |s| && s[close..close + |open.name|] == open.name
    requires forall j :: open.end <= j < close ==> !(open.name <= s[j..])
    ensures Tagged(s, Span(open.start, close + |open.name|), open.name)
  {
  }

  lemma NoCloseNoBody(s: string, from: nat, open: Match)
    requires from <= |s| && First(DollarTag, s, from) == Some(open) && open.end <= |s|
    requires DollarBody(s, from).None? && open.start < StatementEnd(s, from)
    ensures forall j :: open.end <= j <= |s| ==> !(open.name <= s[j..])
  {
    assert IndexOf(s, open.end, open.name).None?;
  }

  lemma BodyHasClose(s: string, from: nat, open: Match) returns (close: nat)
    requires from <= |s| && First(DollarTag, s, from) == Some(open) && open.end <= |s|
    requires DollarBody(s, from).Some?
    ensures open.start < StatementEnd(s, from) && IndexOf(s, open.end, open.name) == Some(close)
    ensures DollarBody(s, from).value == Span(open.start, close + |open.name|)
  {
    close := IndexOf(s, open.end, open.name).value;
  }

  lemma BodyIsTagged(s: string, from: nat, open: Match)
    requires from <= |s| && First(DollarTag, s, from) == Some(open) && DollarBody(s, from).Some?
    ensures var span := DollarBody(s, from).value;
            from <= span.start < StatementEnd(s, from) && Tagged(s, span, open.name)
  {
    TagIs(s, open);
    var close := BodyHasClose(s, from, open);
    TagCloses(s, open, close);
  }

  /** A dollar-quoted body runs from its tag, inside the statement, to the next standing of that tag. */
  lemma DollarBodyIs(s: string, from: nat, open: Match)
    requires from <= |s| && First(DollarTag, s, from) == Some(open)
    ensures match DollarBody(s, from)
            case Some(span) => from <= span.start < StatementEnd(s, from) && Tagged(s, span, open.name)
            case None => open.start < StatementEnd(s, from) ==>
              forall j :: open.end <= j <= |s| ==> !(open.name <= s[j..])
  {
    if DollarBody(s, from).Some? {
      BodyIsTagged(s, from, open);
    } else if open.start < StatementEnd(s, from) {
      NoCloseNoBody(s, from, open);
    }
  }

  lemma TagIs(s: string, open: Match)
    requires MatchesAt(DollarTag, s, open.start) && IsMatch(DollarTag, s, open)
    ensures open.end <= |s| && open.name == s[open.start..open.end] && |open.name| >= 2
  {
  }

  method ReadBody(s: string, m: Match) returns (body: Option<Span>)
    requires m.start <= |s|
    ensures body == BodyOf(s, m)
  {
    body := DollarBody(s, m.start);
    if body.None? { body := AtomicBody(s, m.start); }
  }

  method CollectBodies(s: string) returns (bodies: seq<Span>)
    ensures bodies == FunctionBodies(s)
  {
    var definitions := Matches(DefinitionAt, s, 0);
    MatchesAre(DefinitionAt, s, 0);
    bodies := [];
    for k := 0 to |definitions|
      invariant bodies == Gather(BodyList(s), definitions[..k])
    {
      GatherStep(BodyList(s), definitions, k);
      assert definitions[k] in definitions;
      var body := ReadBody(s, definitions[k]);
      if body.Some? { bodies := bodies + [body.value]; }
    }
    GatherWhole(BodyList(s), definitions);
  }

  // ---------- licences ----------

  function TableStatement(s: string, i: nat): Option<(nat, string)> {
    if i >= |s| || !Boundary(s, i) then None
    else
      var j := After(s, i, ["ALTER", "TABLE"]);
      var k := if j > i then j else After(s, i, ["CREATE", "TABLE"]);
      if k == i then None else GuardedTable(s, k)
  }

  /** `ADD CONSTRAINT <name> CHECK (`, to its parenthesis. */
  function AddCheck(s: string, i: nat): Option<(nat, string)> {
    if i >= |s| || !Boundary(s, i) || After(s, i, ["ADD", "CONSTRAINT"]) == i then None
    else
      var name := Identifier(s, After(s, i, ["ADD", "CONSTRAINT"]));
      if name.None? || SkipSpaces(s, name.value.1) == name.value.1 || !At(s, SkipSpaces(s, name.value.1), "CHECK")
      then None
      else
        var paren := SkipSpaces(s, SkipSpaces(s, name.value.1) + 5);
        if paren < |s| && s[paren] == '(' then Some((paren + 1, "CHECK")) else None
  }

  /** The clauses that licence an update of their table. */
  function LicenceClause(s: string, i: nat): Option<(nat, string)> {
    if MatchesAt(AddCheck, s, i) then AddCheck(s, i)
    else if PhraseAt(s, i, ["SET", "NOT", "NULL"]).Some? then PhraseAt(s, i, ["SET", "NOT", "NULL"])
    else if PhraseAt(s, i, ["VALIDATE", "CONSTRAINT"]).Some? then PhraseAt(s, i, ["VALIDATE", "CONSTRAINT"])
    else PhraseAt(s, i, ["DROP", "COLUMN"])
  }

  /** The last of `ms` that starts before `i`. */
  function LastBefore(ms: seq<Match>, i: nat): Option<Match> {
    if ms == [] then None
    else if ms[|ms| - 1].start < i then Some(ms[|ms| - 1])
    else LastBefore(ms[..|ms| - 1], i)
  }

  /** A clause that is enforced when the migration is applied. */
  ghost predicate Enforced(s: string, definitions: seq<Span>, m: Match) {
    && !Within(definitions, m.start)
    && (m.name == "CHECK" && 1 <= m.end <= |s| ==> !DeferredFrom(s, ParenthesisRead(s, m.end)))
  }

  /** The table of the last table statement before a clause. */
  function ClauseTable(statements: seq<Match>, m: Match): Option<string> {
    var enclosing := LastBefore(statements, m.start);
    if enclosing.Some? then Some(enclosing.value.name) else None
  }

  /** The table a clause licences, if any. */
  ghost function Licence(s: string, statements: seq<Match>, definitions: seq<Span>): Match -> Option<string> {
    m => if Enforced(s, definitions, m) then ClauseTable(statements, m) else None
  }

  /** What `pick` yields from a list. */
  ghost function Picked<T, X>(list: seq<T>, pick: T -> Option<X>): set<X> {
    if list == [] then {}
    else
      var last := pick(list[|list| - 1]);
      Picked(list[..|list| - 1], pick) + if last.Some? then {last.value} else {}
  }

  lemma {:induction false} PickedHas<T, X>(list: seq<T>, pick: T -> Option<X>, x: X)
    ensures x in Picked(list, pick) <==> exists t :: t in list && pick(t) == Some(x)
  {
    if list != [] {
      var n := |list| - 1;
      PickedHas(list[..n], pick, x);
      assert forall t :: t in list <==> t in list[..n] || t == list[n];
    }
  }

  /** The tables an enforced clause of the text lands on. */
  ghost function LicenceSet(s: string): set<string> {
    Picked(Matches(LicenceClause, s, 0), Licence(s, Matches(TableStatement, s, 0), FunctionBodies(s)))
  }

  /** A table is licenced exactly when an enforced clause of the text lands on it. */
  lemma LicencedExactly(s: string, table: string)
    ensures table in LicenceSet(s) <==>
      exists m :: m in Matches(LicenceClause, s, 0) && Enforced(s, FunctionBodies(s), m)
        && ClauseTable(Matches(TableStatement, s, 0), m) == Some(table)
  {
    var statements, definitions := Matches(TableStatement, s, 0), FunctionBodies(s);
    var pick, clauses := Licence(s, statements, definitions), Matches(LicenceClause, s, 0);
    PickedHas(clauses, pick, table);
    forall m | m in clauses
      ensures pick(m) == Some(table) <==> Enforced(s, definitions, m) && ClauseTable(statements, m) == Some(table)
    {
    }
  }

  lemma AddCheckEnds(s: string, i: nat)
    requires MatchesAt(LicenceClause, s, i) && LicenceClause(s, i).value.1 == "CHECK"
    ensures var p := LicenceClause(s, i).value.0; 1 <= p <= |s| && s[p - 1] == '('
  {
  }

  method LicencedBy(s: string, m: Match, statements: seq<Match>, definitions: seq<Span>) returns (table: Option<string>)
    requires m.start < m.end <= |s| && IsMatch(LicenceClause, s, m)
    ensures table == Licence(s, statements, definitions)(m)
  {
    if m.name == "CHECK" {
      AddCheckEnds(s, m.start);
      var deferred := IsDeferredCheck(s, m.end);
      if deferred { return None; }
    }
    if Within(definitions, m.start) { return None; }
    var enclosing := LastBefore(statements, m.start);
    table := if enclosing.Some? then Some(enclosing.value.name) else None;
  }

  method CollectLicences(s: string, clauses: seq<Match>, statements: seq<Match>, definitions: seq<Span>)
    returns (tables: set<string>)
    requires forall m :: m in clauses ==> m.start < m.end <= |s| && IsMatch(LicenceClause, s, m)
    ensures tables == Picked(clauses, Licence(s, statements, definitions))
  {
    ghost var pick := Licence(s, statements, definitions);
    tables := {};
    for k := 0 to |clauses|
      invariant tables == Picked(clauses[..k], pick)
    {
      assert clauses[k] in clauses && clauses[..k + 1][..k] == clauses[..k];
      var table := LicencedBy(s, clauses[k], statements, definitions);
      if table.Some? { tables := tables + {table.value}; }
    }
    assert clauses[..|clauses|] == clauses;
  }

  method LicencedTables(s: string) returns (tables: set<string>)
    ensures tables == LicenceSet(s)
  {
    var definitions := CollectBodies(s);
    MatchesAre(LicenceClause, s, 0);
    tables := CollectLicences(s, Matches(LicenceClause, s, 0), Matches(TableStatement, s, 0), definitions);
  }
}
