/** What the module reader keeps, place by place. */
module ModulePlaces {
  import opened ModuleSql
  import opened Orders
  import opened SqlReader
  import opened Texts

  // ---------- what stands at a place ----------

  /** What is open inside a `${…}`: braces, a quoted literal, a nested template. */
  datatype Frame = Braces(depth: nat) | Str(quote: char, escaped: bool) | Tpl(escaped: bool)

  /** Between two characters; `prev` is the last character of code that is no space. */
  datatype Scan =
    | InCode(prev: Option<char>)
    | InLine(prev: Option<char>)
    | BlockStar(prev: Option<char>)    // before the `*` that opens a block comment
    | InBlock(prev: Option<char>)
    | BlockSlash(prev: Option<char>)   // before the `/` that closes one
    | InRegex(escaped: bool)
    | InQuoted(quote: char, sql: bool, escaped: bool)
    | InTemplate(sql: bool, escaped: bool)
    | InHole(sql: bool, stack: seq<Frame>)

  /** What a character is. A quoted literal closes at its last character when it has no closing quote. */
  datatype Kind = Code | Comment | Regex | Opener(sql: bool) | Closer | Escape | Interpolation | Text(sql: bool)

  datatype Move = Move(kind: Kind, goes: Scan)

  /** One character of code. Whether a literal is SQL is decided by what `r`, the reading, shows before it. */
  function CodeMove(s: string, r: string, i: nat, prev: Option<char>): Move
    requires i < |s| == |r|
  {
    var c := s[i];
    if Pair(s, i, '/', '/') then Move(Comment, InLine(prev))
    else if Pair(s, i, '/', '*') then Move(Comment, BlockStar(prev))
    else if c == '/' && (prev.None? || prev.value in REGEX_PRECEDERS) then Move(Regex, InRegex(false))
    else if c == '"' || c == '\'' || c == '`' then
      var sql := SqlLiteral(r[..i], c);
      Move(Opener(sql), if c == '`' then InTemplate(sql, false) else InQuoted(c, sql, false))
    else Move(Code, InCode(if IsSpace(c) then prev else Some(c)))
  }

  /** What is open after one more character inside a `${…}`, `top` being what was opened last. */
  function TopStep(s: string, i: nat, rest: seq<Frame>, top: Frame): seq<Frame>
    requires i < |s|
  {
    var c, stack := s[i], rest + [top];
    match top
    case Braces(depth) =>
      if c == '"' || c == '\'' then stack + [Str(c, false)]
      else if c == '`' then stack + [Tpl(false)]
      else if c == '{' then rest + [Braces(depth + 1)]
      else if c != '}' then stack
      else if depth <= 1 then rest
      else rest + [Braces(depth - 1)]
    case Str(quote, escaped) =>
      if escaped then rest + [Str(quote, false)]
      else if c == '\\' then rest + [Str(quote, true)]
      else if c == quote then rest
      else stack
    case Tpl(escaped) =>
      if escaped then rest + [Tpl(false)]
      else if c == '`' then rest
      else if c == '\\' then rest + [Tpl(true)]
      else if Pair(s, i, '$', '{') then stack + [Braces(0)]
      else stack
  }

  function Within(sql: bool, stack: seq<Frame>): Scan {
    if stack == [] then InTemplate(sql, false) else InHole(sql, stack)
  }

  function Next(s: string, r: string, i: nat, at: Scan): Move
    requires i < |s| == |r|
  {
    var c := s[i];
    match at
    case InCode(prev) => CodeMove(s, r, i, prev)
    case InLine(prev) => if c == '\n' then Move(Code, InCode(prev)) else Move(Comment, at)
    case BlockStar(prev) => Move(Comment, InBlock(prev))
    case InBlock(prev) => Move(Comment, if Pair(s, i, '*', '/') then BlockSlash(prev) else at)
    case BlockSlash(prev) => Move(Comment, InCode(prev))
    case InRegex(escaped) =>
      if escaped then Move(Regex, InRegex(false))
      else if c == '\\' then Move(Regex, InRegex(true))
      else if c == '/' then Move(Regex, InCode(Some('/')))
      else if c == '\n' then Move(Code, InCode(Some('/')))
      else Move(Regex, at)
    case InQuoted(quote, sql, escaped) =>
      if i == |s| - 1 || (!escaped && c == quote) then Move(Closer, InCode(Some(quote)))
      else Move(Text(sql), InQuoted(quote, sql, !escaped && c == '\\'))
    case InTemplate(sql, escaped) =>
      if escaped then Move(Escape, InTemplate(sql, false))
      else if c == '`' then Move(Closer, InCode(Some('`')))
      else if c == '\\' then Move(Escape, InTemplate(sql, true))
      else if Pair(s, i, '$', '{') then Move(Interpolation, InHole(sql, [Braces(0)]))
      else Move(Text(sql), at)
    case InHole(sql, stack) =>
      Move(Interpolation, if stack == [] then InTemplate(sql, false)
                          else Within(sql, TopStep(s, i, stack[..|stack| - 1], stack[|stack| - 1])))
  }

  function ScanAt(s: string, r: string, i: nat): Scan
    requires i <= |s| == |r|
  {
    if i == 0 then InCode(None) else Next(s, r, i - 1, ScanAt(s, r, i - 1)).goes
  }

  function KindAt(s: string, r: string, i: nat): Kind
    requires i < |s| == |r|
  {
    Next(s, r, i, ScanAt(s, r, i)).kind
  }

  /** Code and the text of SQL literals are kept; all else is blank. */
  function Shown(kind: Kind, c: char): char {
    if kind == Code || kind == Text(true) then c else BlankChar(c)
  }

  /** What each character of a text is. */
  function Kinds(s: string, r: string): nat -> Kind
    requires |s| == |r|
  {
    (k: nat) => if k < |s| then KindAt(s, r, k) else Code
  }

  function Begun(kind: Kind): nat {
    if kind == Opener(true) then 1 else 0
  }

  /** How many SQL literals open before `i`. */
  function SqlOpeners(kinds: nat -> Kind, i: nat): nat {
    if i == 0 then 0 else SqlOpeners(kinds, i - 1) + Begun(kinds(i - 1))
  }

  ghost predicate ShowsAll(s: string, r: string) {
    |s| == |r| && forall k {:trigger KindAt(s, r, k)} :: 0 <= k < |s| ==> r[k] == Shown(KindAt(s, r, k), s[k])
  }

  /** The places of a text at once: where the scan stands, and what each character is. */
  datatype Lexing = Lexing(s: string, r: string, scan: nat -> Scan, kind: nat -> Kind)

  function LexingOf(s: string, r: string): Lexing
    requires |s| == |r|
  {
    Lexing(s, r, (k: nat) => if k <= |s| then ScanAt(s, r, k) else InCode(None),
           Kinds(s, r))
  }

  /** The first `n` steps of the scan. */
  ghost predicate Follows(x: Lexing, n: nat) {
    && n <= |x.s| == |x.r|
    && if n == 0 then x.scan(0) == InCode(None)
       else
         Follows(x, n - 1) && Steps(x, n - 1)
  }

  ghost predicate Steps(x: Lexing, i: nat)
    requires i < |x.s| == |x.r|
  {
    Move(x.kind(i), x.scan(i + 1)) == Next(x.s, x.r, i, x.scan(i))
  }

  ghost predicate Lexed(x: Lexing) {
    Follows(x, |x.s|)
  }

  lemma {:induction false} LexingFollows(s: string, r: string, n: nat)
    requires n <= |s| == |r|
    ensures Follows(LexingOf(s, r), n)
  {
    if n > 0 { LexingFollows(s, r, n - 1); }
  }

  lemma {:induction false} StepIs(x: Lexing, i: nat, n: nat)
    requires Follows(x, n) && i < n
    ensures Steps(x, i)
  {
    if i < n - 1 { StepIs(x, i, n - 1); }
  }

  // ---------- the tokens of the reader, scanned ----------

  /** `piece` is what the places from `i` on show, and `begun` SQL literals open there. */
  ghost predicate Segment(x: Lexing, i: nat, piece: string, begun: nat)
    decreases |piece|
  {
    if piece == "" then i <= |x.s| && begun == 0
    else
      var n := |piece| - 1;
      && i + n < |x.s| && piece[n] == Shown(x.kind(i + n), x.s[i + n]) && Begun(x.kind(i + n)) <= begun
      && Segment(x, i, piece[..n], begun - Begun(x.kind(i + n)))
  }

  lemma {:induction false} SegmentJoin(x: Lexing, i: nat, a: string, m: nat, b: string, n: nat)
    requires Segment(x, i, a, m) && Segment(x, i + |a|, b, n)
    ensures Segment(x, i, a + b, m + n)
    decreases |b|
  {
    if b == "" {
      assert a + b == a;
    } else {
      var l := |b| - 1;
      assert (a + b)[..|a| + l] == a + b[..l];
      SegmentJoin(x, i, a, m, b[..l], n - Begun(x.kind(i + |a| + l)));
    }
  }

  lemma {:induction false} SegmentIs(x: Lexing, i: nat, piece: string)
    requires i + |piece| <= |x.s|
    requires forall k :: i <= k < i + |piece| ==> piece[k - i] == Shown(x.kind(k), x.s[k]) && Begun(x.kind(k)) == 0
    ensures Segment(x, i, piece, 0)
  {
    if piece != "" { SegmentIs(x, i, piece[..|piece| - 1]); }
  }

  lemma SegmentJoinThree(x: Lexing, i: nat, a: string, n: nat, b: string, c: string)
    requires Segment(x, i, a, n) && Segment(x, i + |a|, b, 0) && Segment(x, i + |a| + |b|, c, 0)
    ensures Segment(x, i, a + b + c, n)
  {
    SegmentJoin(x, i, a, n, b, 0);
    SegmentJoin(x, i, a + b, n, c, 0);
  }

  predicate Hidden(kind: Kind) {
    kind.Comment? || kind.Regex? || kind.Closer? || kind.Escape? || kind.Interpolation? || kind == Text(false)
  }

  lemma BlankSegment(x: Lexing, i: nat, j: nat)
    requires Lexed(x) && i <= j <= |x.s| && forall k :: i <= k < j ==> Hidden(x.kind(k))
    ensures Segment(x, i, Blank(x.s[i..j]), 0)
  {
    assert forall k :: i <= k < j ==> x.s[i..j][k - i] == x.s[k];
    SegmentIs(x, i, Blank(x.s[i..j]));
  }

  lemma TextSegment(x: Lexing, i: nat, j: nat, sql: bool)
    requires Lexed(x) && i <= j <= |x.s| && forall k :: i <= k < j ==> x.kind(k) == Text(sql)
    ensures Segment(x, i, Kept(x.s, i, j, sql), 0)
  {
    assert forall k :: i <= k < j ==> x.s[i..j][k - i] == x.s[k];
    SegmentIs(x, i, Kept(x.s, i, j, sql));
  }

  /** A token of code can start at `i`. */
  ghost predicate CodeAt(x: Lexing, i: nat, prev: Option<char>) {
    i < |x.s| ==>
      || x.scan(i) == InCode(prev)
      || (x.s[i] == '\n' && (x.scan(i) == InLine(prev) || (prev == Some('/') && x.scan(i) == InRegex(false))))
  }

  lemma CodeMoves(x: Lexing, i: nat, prev: Option<char>)
    requires Lexed(x) && i < |x.s| && CodeAt(x, i, prev)
    ensures Move(x.kind(i), x.scan(i + 1)) == CodeMove(x.s, x.r, i, prev)
  {
    StepIs(x, i, |x.s|);
  }

  lemma {:induction false} LineScanned(x: Lexing, i: nat, j: nat, prev: Option<char>)
    requires Lexed(x) && i <= j <= |x.s| && x.scan(i) == InLine(prev) && forall k :: i <= k < j ==> x.s[k] != '\n'
    ensures x.scan(j) == InLine(prev) && forall k :: i <= k < j ==> x.kind(k) == Comment
  {
    if i < j {
      LineScanned(x, i, j - 1, prev);
      StepIs(x, j - 1, |x.s|);
    }
  }

  lemma {:induction false} BlockScanned(x: Lexing, i: nat, prev: Option<char>)
    requires Lexed(x) && i <= |x.s| && x.scan(i) == InBlock(prev)
    ensures var end := CommentEnd(x.s, i);
            (forall k :: i <= k < end ==> x.kind(k) == Comment) && CodeAt(x, end, prev)
    decreases |x.s| - i
  {
    if i < |x.s| {
      StepIs(x, i, |x.s|);
      if Pair(x.s, i, '*', '/') { StepIs(x, i + 1, |x.s|); } else { BlockScanned(x, i + 1, prev); }
    }
  }

  lemma {:induction false} RegexScanned(x: Lexing, i: nat)
    requires Lexed(x) && i <= |x.s| && x.scan(i) == InRegex(false)
    ensures var end := QuotedEnd(x.s, i, '/');
            (forall k :: i <= k < end ==> x.kind(k) == Regex) && CodeAt(x, end, Some('/'))
    decreases |x.s| - i
  {
    if i < |x.s| {
      StepIs(x, i, |x.s|);
      if x.s[i] == '\\' {
        if i + 1 < |x.s| {
          StepIs(x, i + 1, |x.s|);
          RegexScanned(x, i + 2);
        }
      } else if x.s[i] != '/' && x.s[i] != '\n' {
        RegexScanned(x, i + 1);
      }
    }
  }

  ghost predicate ClosesAt(x: Lexing, i: nat, end: nat, quote: char, sql: bool) {
    && (forall k :: i <= k < end - 1 ==> x.kind(k) == Text(sql))
    && (i < end ==> x.kind(end - 1) == Closer) && (end < |x.s| ==> x.scan(end) == InCode(Some(quote)))
  }

  lemma QuotedOn(x: Lexing, i: nat, quote: char, sql: bool, escaped: bool)
    requires Lexed(x) && i < |x.s| && x.scan(i) == InQuoted(quote, sql, escaped)
    ensures if i == |x.s| - 1 || (!escaped && x.s[i] == quote) then
              x.kind(i) == Closer && x.scan(i + 1) == InCode(Some(quote))
            else
              x.kind(i) == Text(sql) && x.scan(i + 1) == InQuoted(quote, sql, !escaped && x.s[i] == '\\')
  {
    StepIs(x, i, |x.s|);
  }

  lemma {:induction false} QuotedScanned(x: Lexing, i: nat, quote: char, sql: bool)
    requires Lexed(x) && i <= |x.s| && x.scan(i) == InQuoted(quote, sql, false) && quote in ['"', '\'']
    ensures ClosesAt(x, i, QuotedEnd(x.s, i, quote), quote, sql)
    decreases |x.s| - i
  {
    if i < |x.s| {
      QuotedOn(x, i, quote, sql, false);
      if i + 1 < |x.s| {
        if x.s[i] == '\\' {
          QuotedOn(x, i + 1, quote, sql, true);
          assert QuotedEnd(x.s, i, quote) == QuotedEnd(x.s, i + 2, quote);
          if i + 2 < |x.s| { QuotedScanned(x, i + 2, quote, sql); }
        } else if x.s[i] != quote {
          QuotedScanned(x, i + 1, quote, sql);
        }
      }
    }
  }

  /** From `i` on it is all interpolation, up to where `stack` is open again. */
  ghost predicate HoleUntil(x: Lexing, i: nat, end: nat, sql: bool, stack: seq<Frame>) {
    && (forall k :: i <= k < end && k < |x.s| ==> x.kind(k) == Interpolation)
    && (end < |x.s| ==> x.scan(end) == Within(sql, stack))
  }

  lemma HoleJoin(x: Lexing, i: nat, m: nat, end: nat, sql: bool, stack: seq<Frame>, rest: seq<Frame>)
    requires HoleUntil(x, i, m, sql, stack) && (m < |x.s| ==> HoleUntil(x, m, end, sql, rest))
    requires (m <= end || end >= |x.s|) && (m >= |x.s| ==> end >= |x.s|)
    ensures HoleUntil(x, i, end, sql, rest)
  {
  }

  /** One more character in a hole, `top` being open. */
  lemma HoleOn(x: Lexing, i: nat, sql: bool, rest: seq<Frame>, top: Frame)
    requires Lexed(x) && i < |x.s| && x.scan(i) == InHole(sql, rest + [top])
    ensures HoleUntil(x, i, i + 1, sql, TopStep(x.s, i, rest, top))
  {
    assert (rest + [top])[..|rest|] == rest;
    StepIs(x, i, |x.s|);
  }

  lemma {:induction false} StringScanned(x: Lexing, i: nat, quote: char, sql: bool, rest: seq<Frame>)
    requires Lexed(x) && i <= |x.s| && quote in ['"', '\''] && x.scan(i) == InHole(sql, rest + [Str(quote, false)])
    ensures HoleUntil(x, i, QuotedEnd(x.s, i, quote), sql, rest)
    decreases |x.s| - i
  {
    if i < |x.s| {
      HoleOn(x, i, sql, rest, Str(quote, false));
      if x.s[i] == '\\' {
        if i + 1 < |x.s| {
          HoleOn(x, i + 1, sql, rest, Str(quote, true));
          if i + 2 < |x.s| { StringScanned(x, i + 2, quote, sql, rest); }
        }
      } else if x.s[i] != quote && i + 1 < |x.s| {
        StringScanned(x, i + 1, quote, sql, rest);
      }
    }
  }

  /** Just past the literal that opens at `i`. */
  function LiteralEnd(s: string, i: nat): (m: nat)
    requires i < |s|
    ensures i < m
  {
    Later(i, if s[i] == '`' then TemplateEnd(s, i + 1) else QuotedEnd(s, i + 1, s[i]))
  }

  lemma {:induction false} LiteralScanned(x: Lexing, i: nat, depth: nat, sql: bool, rest: seq<Frame>)
    requires Lexed(x) && i < |x.s| && x.scan(i) == InHole(sql, rest + [Braces(depth)]) && x.s[i] in ['"', '\'', '`']
    ensures HoleUntil(x, i, LiteralEnd(x.s, i), sql, rest + [Braces(depth)])
    decreases |x.s| - i, 0
  {
    var stack := rest + [Braces(depth)];
    HoleOn(x, i, sql, rest, Braces(depth));
    if i + 1 < |x.s| {
      if x.s[i] == '`' { NestedScanned(x, i + 1, sql, stack); } else { StringScanned(x, i + 1, x.s[i], sql, stack); }
    }
  }

  lemma {:induction false} BracesScanned(x: Lexing, i: nat, depth: nat, sql: bool, rest: seq<Frame>)
    requires Lexed(x) && i < |x.s| && depth > 0 && x.scan(i) == InHole(sql, rest + [Braces(depth)])
    ensures HoleUntil(x, i, InterpolationEnd(x.s, i, depth), sql, rest)
    decreases |x.s| - i, 1
  {
    if x.s[i] in ['"', '\'', '`'] {
      var m := LiteralEnd(x.s, i);
      LiteralScanned(x, i, depth, sql, rest);
      if m < |x.s| { BracesScanned(x, m, depth, sql, rest); }
      HoleJoin(x, i, m, InterpolationEnd(x.s, i, depth), sql, rest + [Braces(depth)], rest);
    } else {
      HoleOn(x, i, sql, rest, Braces(depth));
      if i + 1 < |x.s| {
        if x.s[i] == '{' {
          BracesScanned(x, i + 1, depth + 1, sql, rest);
        } else if x.s[i] != '}' {
          BracesScanned(x, i + 1, depth, sql, rest);
        } else if depth > 1 {
          BracesScanned(x, i + 1, depth - 1, sql, rest);
        }
      }
    }
  }

  lemma {:induction false} NestedScanned(x: Lexing, i: nat, sql: bool, rest: seq<Frame>)
    requires Lexed(x) && i < |x.s| && x.scan(i) == InHole(sql, rest + [Tpl(false)])
    ensures HoleUntil(x, i, TemplateEnd(x.s, i), sql, rest)
    decreases |x.s| - i, 0
  {
    var stack := rest + [Tpl(false)];
    HoleOn(x, i, sql, rest, Tpl(false));
    if i + 1 < |x.s| {
      if x.s[i] == '\\' {
        HoleOn(x, i + 1, sql, rest, Tpl(true));
        if i + 2 < |x.s| { NestedScanned(x, i + 2, sql, rest); }
      } else if Pair(x.s, i, '$', '{') {
        HoleOn(x, i + 1, sql, stack, Braces(0));
        if i + 2 < |x.s| {
          var m := Later(i, InterpolationEnd(x.s, i + 2, 1));
          BracesScanned(x, i + 2, 1, sql, stack);
          if m < |x.s| { NestedScanned(x, m, sql, rest); }
          HoleJoin(x, i, m, TemplateEnd(x.s, i), sql, stack, rest);
        }
      } else if x.s[i] != '`' {
        NestedScanned(x, i + 1, sql, rest);
      }
    }
  }

  /** The template is open at `i`, if the text goes on there. */
  ghost predicate TemplateAt(x: Lexing, i: nat, sql: bool) {
    i < |x.s| ==> x.scan(i) == InTemplate(sql, false)
  }

  lemma EscapeScanned(x: Lexing, i: nat, sql: bool)
    requires Lexed(x) && i < |x.s| && x.scan(i) == InTemplate(sql, false) && x.s[i] == '\\'
    ensures TemplateAt(x, i + 2, sql) && forall k :: i <= k < i + 2 && k < |x.s| ==> x.kind(k) == Escape
  {
    StepIs(x, i, |x.s|);
    if i + 1 < |x.s| { StepIs(x, i + 1, |x.s|); }
  }

  /** The `${` that opens an interpolation. */
  lemma HoleOpened(x: Lexing, i: nat, sql: bool)
    requires Lexed(x) && i + 1 < |x.s| && x.scan(i) == InTemplate(sql, false) && Pair(x.s, i, '$', '{')
    ensures x.kind(i) == Interpolation == x.kind(i + 1)
    ensures i + 2 < |x.s| ==> x.scan(i + 2) == InHole(sql, [Braces(1)])
  {
    StepIs(x, i, |x.s|);
    assert [] + [Braces(0)] == [Braces(0)] && [] + [Braces(1)] == [Braces(1)];
    HoleOn(x, i + 1, sql, [], Braces(0));
  }

  lemma HoleScanned(x: Lexing, i: nat, sql: bool)
    requires Lexed(x) && i < |x.s| && x.scan(i) == InTemplate(sql, false) && Pair(x.s, i, '$', '{')
    ensures HoleUntil(x, i, Later(i, InterpolationEnd(x.s, i + 2, 1)), sql, [])
  {
    HoleOpened(x, i, sql);
    if i + 2 < |x.s| {
      assert [] + [Braces(1)] == [Braces(1)];
      BracesScanned(x, i + 2, 1, sql, []);
    }
  }

  lemma TemplateOnce(x: Lexing, i: nat, sql: bool)
    requires Lexed(x) && i < |x.s| && x.scan(i) == InTemplate(sql, false) && x.s[i] != '`'
    ensures var j := TemplateStep(x.s, i);
            Segment(x, i, Kept(x.s, i, j, sql && PlainIn(x.s, i)), 0) && TemplateAt(x, j, sql)
  {
    var j := TemplateStep(x.s, i);
    if x.s[i] == '\\' {
      EscapeScanned(x, i, sql);
      BlankSegment(x, i, j);
    } else if Pair(x.s, i, '$', '{') {
      HoleScanned(x, i, sql);
      BlankSegment(x, i, j);
    } else {
      StepIs(x, i, |x.s|);
      TextSegment(x, i, j, sql);
    }
  }

  lemma {:induction false} TemplateScanned(x: Lexing, i: nat, sql: bool, t: (nat, string))
    requires Lexed(x) && i <= |x.s| && TemplateAt(x, i, sql) && t == TemplateText(x.s, i, sql)
    ensures Segment(x, i, t.1, 0) && TemplateAt(x, t.0, sql)
    decreases |x.s| - i
  {
    if i < |x.s| && x.s[i] != '`' {
      var j := TemplateStep(x.s, i);
      var rest := TemplateText(x.s, j, sql);
      TemplateOnce(x, i, sql);
      TemplateScanned(x, j, sql, rest);
      TemplateJoined(x, i, j, sql, Kept(x.s, i, j, sql && PlainIn(x.s, i)), rest);
      TemplateUnfolds(x.s, i, sql);
    }
  }

  lemma TemplateJoined(x: Lexing, i: nat, j: nat, sql: bool, first: string, rest: (nat, string))
    requires i <= j && |first| == j - i
    requires Segment(x, i, first, 0) && Segment(x, j, rest.1, 0) && TemplateAt(x, rest.0, sql)
    ensures Segment(x, i, first + rest.1, 0)
  {
    SegmentJoin(x, i, first, 0, rest.1, 0);
  }

  /** The delimiter that opens a literal. */
  lemma OpenerScanned(x: Lexing, i: nat, prev: Option<char>)
    requires Lexed(x) && i < |x.s| && CodeAt(x, i, prev) && x.s[i] in ['"', '\'', '`']
    ensures var sql := SqlLiteral(x.r[..i], x.s[i]);
            && Segment(x, i, Blank(x.s[i..i + 1]), if sql then 1 else 0)
            && x.scan(i + 1) == if x.s[i] == '`' then InTemplate(sql, false) else InQuoted(x.s[i], sql, false)
  {
    CodeMoves(x, i, prev);
    assert Blank(x.s[i..i + 1])[0] == BlankChar(x.s[i]) && Blank(x.s[i..i + 1])[..0] == "";
  }

  ghost predicate TokenScanned(x: Lexing, i: nat, t: Lexeme) {
    Segment(x, i, t.piece, if t.sql then 1 else 0) && i + |t.piece| == t.next && CodeAt(x, t.next, t.prev)
  }

  /** What is between the delimiters of a quoted literal, and the one that closes it. */
  lemma QuotedInside(x: Lexing, i: nat, close: nat, end: nat, quote: char, sql: bool)
    requires Lexed(x) && i <= |x.s| && x.scan(i) == InQuoted(quote, sql, false) && quote in ['"', '\'']
    requires end == QuotedEnd(x.s, i, quote) && close == if end - 1 > i then end - 1 else i
    ensures Segment(x, i, Kept(x.s, i, close, sql), 0) && Segment(x, close, Blank(x.s[close..end]), 0)
    ensures CodeAt(x, end, Some(quote))
  {
    QuotedScanned(x, i, quote, sql);
    TextSegment(x, i, close, sql);
    BlankSegment(x, close, end);
  }

  /** A literal put together: its opening delimiter, its inside, and what closes it. */
  lemma LiteralJoined(x: Lexing, i: nat, inside: string, close: nat, end: nat, sql: bool)
    requires i < close <= end <= |x.s| && |inside| == close - i - 1
    requires Segment(x, i, Blank(x.s[i..i + 1]), if sql then 1 else 0)
    requires Segment(x, i + 1, inside, 0) && Segment(x, close, Blank(x.s[close..end]), 0)
    requires CodeAt(x, end, Some(x.s[i]))
    ensures TokenScanned(x, i, Delimited(x.s, i, inside, close, end, sql))
  {
    SegmentJoinThree(x, i, Blank(x.s[i..i + 1]), if sql then 1 else 0, inside, Blank(x.s[close..end]));
  }

  lemma QuotedRest(x: Lexing, i: nat, end: nat, sql: bool)
    requires Lexed(x) && i < |x.s| && x.s[i] in ['"', '\''] && x.scan(i + 1) == InQuoted(x.s[i], sql, false)
    requires Segment(x, i, Blank(x.s[i..i + 1]), if sql then 1 else 0)
    requires end == QuotedEnd(x.s, i + 1, x.s[i])
    ensures i < end <= |x.s|
    ensures TokenScanned(x, i, Delimited(x.s, i, Kept(x.s, i + 1, BodyEnd(i, end), sql), BodyEnd(i, end), end, sql))
  {
    QuotedInside(x, i + 1, BodyEnd(i, end), end, x.s[i], sql);
    LiteralJoined(x, i, Kept(x.s, i + 1, BodyEnd(i, end), sql), BodyEnd(i, end), end, sql);
  }

  lemma QuotedWhole(x: Lexing, i: nat, sql: bool)
    requires Lexed(x) && i < |x.s| && x.s[i] in ['"', '\''] && x.scan(i + 1) == InQuoted(x.s[i], sql, false)
    requires Segment(x, i, Blank(x.s[i..i + 1]), if sql then 1 else 0)
    ensures TokenScanned(x, i, QuotedLexeme(x.s, i, sql))
  {
    var end := QuotedEnd(x.s, i + 1, x.s[i]);
    QuotedRest(x, i, end, sql);
    QuotedLexemeIs(x.s, i, end, sql);
  }

  lemma QuotedLexemeIs(s: string, i: nat, end: nat, sql: bool)
    requires i < |s| && end == QuotedEnd(s, i + 1, s[i])
    ensures i < end <= |s|
    ensures QuotedLexeme(s, i, sql) == Delimited(s, i, Kept(s, i + 1, BodyEnd(i, end), sql), BodyEnd(i, end), end, sql)
  {
  }

  lemma QuotedToken(x: Lexing, i: nat, prev: Option<char>)
    requires Lexed(x) && i < |x.s| && CodeAt(x, i, prev) && x.s[i] in ['"', '\'']
    ensures TokenScanned(x, i, QuotedLexeme(x.s, i, SqlLiteral(x.r[..i], x.s[i])))
  {
    OpenerScanned(x, i, prev);
    QuotedWhole(x, i, SqlLiteral(x.r[..i], x.s[i]));
  }

  /** What closes a template, if anything does. */
  lemma BacktickScanned(x: Lexing, close: nat, end: nat, sql: bool)
    requires Lexed(x) && close <= |x.s| && TemplateAt(x, close, sql) && end == Min(close + 1, |x.s|)
    requires close < |x.s| ==> x.s[close] == '`'
    ensures Segment(x, close, Blank(x.s[close..end]), 0) && CodeAt(x, end, Some('`'))
  {
    if close < |x.s| { StepIs(x, close, |x.s|); }
    BlankSegment(x, close, end);
  }

  lemma TemplateRest(x: Lexing, i: nat, inside: (nat, string), end: nat, sql: bool)
    requires Lexed(x) && i < |x.s| && x.s[i] == '`' && x.scan(i + 1) == InTemplate(sql, false)
    requires Segment(x, i, Blank(x.s[i..i + 1]), if sql then 1 else 0)
    requires inside == TemplateText(x.s, i + 1, sql) && end == Min(inside.0 + 1, |x.s|)
    ensures TokenScanned(x, i, Delimited(x.s, i, inside.1, inside.0, end, sql))
  {
    TemplateScanned(x, i + 1, sql, inside);
    BacktickScanned(x, inside.0, end, sql);
    LiteralJoined(x, i, inside.1, inside.0, end, sql);
  }

  lemma TemplateToken(x: Lexing, i: nat, prev: Option<char>)
    requires Lexed(x) && i < |x.s| && CodeAt(x, i, prev) && x.s[i] == '`'
    ensures TokenScanned(x, i, TemplateLexeme(x.s, i, SqlLiteral(x.r[..i], '`')))
  {
    OpenerScanned(x, i, prev);
    TemplateWhole(x, i, SqlLiteral(x.r[..i], '`'));
  }

  lemma TemplateWhole(x: Lexing, i: nat, sql: bool)
    requires Lexed(x) && i < |x.s| && x.s[i] == '`' && x.scan(i + 1) == InTemplate(sql, false)
    requires Segment(x, i, Blank(x.s[i..i + 1]), if sql then 1 else 0)
    ensures TokenScanned(x, i, TemplateLexeme(x.s, i, sql))
  {
    var inside := TemplateText(x.s, i + 1, sql);
    var end := Min(inside.0 + 1, |x.s|);
    TemplateRest(x, i, inside, end, sql);
    TemplateLexemeIs(x.s, i, inside, end, sql);
  }

  lemma TemplateLexemeIs(s: string, i: nat, inside: (nat, string), end: nat, sql: bool)
    requires i < |s| && s[i] == '`' && inside == TemplateText(s, i + 1, sql) && end == Min(inside.0 + 1, |s|)
    ensures TemplateLexeme(s, i, sql) == Delimited(s, i, inside.1, inside.0, end, sql)
  {
  }

  lemma CommentToken(x: Lexing, i: nat, prev: Option<char>)
    requires Lexed(x) && i < |x.s| && CodeAt(x, i, prev) && (Pair(x.s, i, '/', '/') || Pair(x.s, i, '/', '*'))
    ensures TokenScanned(x, i, NextLexeme(x.s, i, x.r[..i], prev))
  {
    CodeMoves(x, i, prev);
    if Pair(x.s, i, '/', '/') {
      LineScanned(x, i + 1, FindChar(x.s, i, '\n'), prev);
    } else {
      StepIs(x, i + 1, |x.s|);
      BlockScanned(x, i + 2, prev);
    }
    BlankSegment(x, i, NextLexeme(x.s, i, x.r[..i], prev).next);
  }

  lemma TokenIsScanned(x: Lexing, i: nat, prev: Option<char>)
    requires Lexed(x) && i < |x.s| && CodeAt(x, i, prev)
    ensures TokenScanned(x, i, NextLexeme(x.s, i, x.r[..i], prev))
  {
    if Pair(x.s, i, '/', '/') || Pair(x.s, i, '/', '*') {
      CommentToken(x, i, prev);
    } else if x.s[i] == '"' || x.s[i] == '\'' {
      QuotedToken(x, i, prev);
    } else if x.s[i] == '`' {
      TemplateToken(x, i, prev);
    } else {
      PlainToken(x, i, prev);
    }
  }

  lemma PlainToken(x: Lexing, i: nat, prev: Option<char>)
    requires Lexed(x) && i < |x.s| && CodeAt(x, i, prev) && x.s[i] !in ['"', '\'', '`']
    requires !Pair(x.s, i, '/', '/') && !Pair(x.s, i, '/', '*')
    ensures TokenScanned(x, i, NextLexeme(x.s, i, x.r[..i], prev))
  {
    CodeMoves(x, i, prev);
    StepIs(x, i, |x.s|);
    if x.kind(i) == Regex {
      RegexScanned(x, i + 1);
      BlankSegment(x, i, QuotedEnd(x.s, i + 1, '/'));
    }
  }

  lemma Begins(text: string, out: string, piece: string)
    requires |out| + |piece| <= |text| && text[..|out| + |piece|] == out + piece
    ensures text[..|out|] == out && text[|out|..] == piece + text[|out| + |piece|..]
  {
    assert text[..|out|] == text[..|out| + |piece|][..|out|];
    assert text[|out|..|out| + |piece|] == text[..|out| + |piece|][|out|..];
  }

  /** The walk keeps what it has read, and goes on counting. */
  ghost predicate GoesOn(s: string, w: Sql, out: string, literals: nat) {
    |out| <= |s| == |w.text| && w.text[..|out|] == out && w.literals >= literals
  }

  lemma {:induction false} WalkBegins(s: string, i: nat, out: string, prev: Option<char>, literals: nat)
    requires i <= |s| && |out| == i
    ensures GoesOn(s, ModuleSql.Walk(s, i, out, prev, literals), out, literals)
    decreases |s| - i
  {
    if i < |s| {
      var t := NextLexeme(s, i, out, prev);
      WalkBegins(s, t.next, out + t.piece, t.prev, literals + if t.sql then 1 else 0);
      WalkOn(s, i, out, prev, literals);
      Begins(ModuleSql.Walk(s, i, out, prev, literals).text, out, t.piece);
    } else {
      assert out[..i] == out;
    }
  }

  /** One token of the walk whose reading is `x.r`: what is read then, and how many literals. */
  lemma Turn(x: Lexing, w: Sql, i: nat, out: string, prev: Option<char>, literals: nat)
    returns (t: Lexeme, longer: string, more: nat)
    requires Lexed(x) && i < |x.s| && |out| == i && x.r == w.text && CodeAt(x, i, prev)
    requires w == ModuleSql.Walk(x.s, i, out, prev, literals)
    ensures i < t.next <= |x.s| && TokenScanned(x, i, t)
    ensures longer == out + t.piece && more == literals + if t.sql then 1 else 0
    ensures w == ModuleSql.Walk(x.s, t.next, longer, t.prev, more)
  {
    t := NextLexeme(x.s, i, out, prev);
    longer, more := out + t.piece, literals + if t.sql then 1 else 0;
    WalkBegins(x.s, i, out, prev, literals);
    WalkOn(x.s, i, out, prev, literals);
    assert x.r[..i] == out;
    TokenIsScanned(x, i, prev);
  }

  lemma OutJoined(x: Lexing, out: string, literals: nat, t: Lexeme, longer: string, more: nat)
    requires Segment(x, 0, out, literals) && TokenScanned(x, |out|, t)
    requires longer == out + t.piece && more == literals + if t.sql then 1 else 0
    ensures Segment(x, 0, longer, more) && |longer| == t.next && CodeAt(x, t.next, t.prev)
  {
    SegmentJoin(x, 0, out, literals, t.piece, if t.sql then 1 else 0);
  }

  lemma {:induction false} WalkScanned(x: Lexing, w: Sql, i: nat, out: string, prev: Option<char>, literals: nat)
    requires Lexed(x) && i <= |x.s| && |out| == i && x.r == w.text && CodeAt(x, i, prev)
    requires w == ModuleSql.Walk(x.s, i, out, prev, literals) && Segment(x, 0, out, literals)
    ensures Segment(x, 0, w.text, w.literals)
    decreases |x.s| - i
  {
    if i < |x.s| {
      var t, longer, more := Turn(x, w, i, out, prev, literals);
      OutJoined(x, out, literals, t, longer, more);
      WalkScanned(x, w, t.next, longer, t.prev, more);
    }
  }

  lemma KindIs(s: string, r: string, i: nat)
    requires i < |s| == |r|
    ensures LexingOf(s, r).kind(i) == KindAt(s, r, i)
  {
  }

  lemma {:induction false} SegmentShows(x: Lexing, piece: string, n: nat)
    requires Segment(x, 0, piece, n)
    ensures |piece| <= |x.s| && forall k :: 0 <= k < |piece| ==> piece[k] == Shown(x.kind(k), x.s[k])
    ensures SqlOpeners(x.kind, |piece|) == n
  {
    if piece != "" {
      var l := |piece| - 1;
      SegmentShows(x, piece[..l], n - Begun(x.kind(l)));
      assert forall k :: 0 <= k < l ==> piece[..l][k] == piece[k];
    }
  }

  lemma ShowsWhole(s: string, r: string, n: nat)
    requires |s| == |r| && Segment(LexingOf(s, r), 0, r, n)
    ensures ShowsAll(s, r) && SqlOpeners(Kinds(s, r), |s|) == n
  {
    SegmentShows(LexingOf(s, r), r, n);
    forall k | 0 <= k < |s| ensures LexingOf(s, r).kind(k) == KindAt(s, r, k) { KindIs(s, r, k); }
  }

  lemma WholeLength(source: string)
    ensures |SqlIn(source).text| == |source|
  {
    WalkBegins(source, 0, "", None, 0);
  }

  lemma WholeScanned(source: string, w: Sql)
    requires w == SqlIn(source) && |w.text| == |source|
    ensures Segment(LexingOf(source, w.text), 0, w.text, w.literals)
  {
    LexingFollows(source, w.text, |source|);
    LexingFollows(source, w.text, 0);
    WalkScanned(LexingOf(source, w.text), w, 0, "", None, 0);
  }

  /**
    Every place of every source: the reading keeps code and the text of SQL literals, and nothing else,
    and the literals it counts are the SQL literals that open.
   */
  lemma SqlShowsExactly(source: string, w: Sql)
    requires w == SqlIn(source)
    ensures ShowsAll(source, w.text) && w.literals == SqlOpeners(Kinds(source, w.text), |source|)
  {
    WholeLength(source);
    WholeScanned(source, w);
    ShowsWhole(source, w.text, w.literals);
  }

  lemma {:induction false} ScanDepends(s: string, r: string, q: string, i: nat)
    requires i <= |s| == |r| == |q| && forall k :: 0 <= k < i ==> r[k] == q[k]
    ensures ScanAt(s, r, i) == ScanAt(s, q, i)
  {
    if i > 0 {
      ScanDepends(s, r, q, i - 1);
      assert r[..i - 1] == q[..i - 1];
    }
  }

  lemma KindDepends(s: string, r: string, q: string, i: nat)
    requires i < |s| == |r| == |q| && ScanAt(s, r, i) == ScanAt(s, q, i) && r[..i] == q[..i]
    ensures KindAt(s, r, i) == KindAt(s, q, i)
  {
  }

  lemma ShowsAt(s: string, r: string, k: nat)
    requires ShowsAll(s, r) && k < |s|
    ensures r[k] == Shown(KindAt(s, r, k), s[k])
  {
  }

  lemma ShownOnce(s: string, r: string, q: string, i: nat)
    requires ShowsAll(s, r) && ShowsAll(s, q) && i < |s| && forall k :: 0 <= k < i ==> r[k] == q[k]
    ensures r[i] == q[i]
  {
    ScanDepends(s, r, q, i);
    assert r[..i] == q[..i];
    KindDepends(s, r, q, i);
    ShowsAt(s, r, i);
    ShowsAt(s, q, i);
  }

  lemma {:induction false} ShownAlike(s: string, r: string, q: string, n: nat)
    requires ShowsAll(s, r) && ShowsAll(s, q) && n <= |s|
    ensures forall k :: 0 <= k < n ==> r[k] == q[k]
  {
    if n > 0 {
      ShownAlike(s, r, q, n - 1);
      ShownOnce(s, r, q, n - 1);
    }
  }

  /** So the reading of a source is the one text that shows exactly that. */
  lemma OnlyReadingShows(source: string, r: string, w: Sql)
    requires w == SqlIn(source)
    ensures ShowsAll(source, r) <==> r == w.text
  {
    SqlShowsExactly(source, w);
    if ShowsAll(source, r) {
      ShownAlike(source, r, w.text, |source|);
      assert r == w.text;
    }
  }

  /** Inside a literal, and the literal is SQL or not. */
  predicate InLiteral(at: Scan, sql: bool) {
    || (at.InQuoted? && at.sql == sql) || (at.InTemplate? && at.sql == sql) || (at.InHole? && at.sql == sql)
  }

  /** The places from `open` to `end` are a literal and what is between its delimiters. */
  ghost predicate LiteralFrom(s: string, r: string, open: nat, end: nat) {
    && open < end <= |s| == |r| && KindAt(s, r, open).Opener?
    && forall k :: open < k < end ==> var kind := KindAt(s, r, k); kind.Text? || kind.Escape? || kind.Interpolation?
  }

  lemma LiteralOn(s: string, r: string, i: nat, sql: bool)
    requires i < |s| == |r| && InLiteral(ScanAt(s, r, i), sql)
    requires var kind := KindAt(s, r, i); kind.Text? || kind.Escape? || kind.Interpolation?
    ensures InLiteral(ScanAt(s, r, i + 1), sql) && (KindAt(s, r, i).Text? ==> KindAt(s, r, i) == Text(sql))
  {
  }

  lemma OpenerMove(s: string, r: string, i: nat, at: Scan, sql: bool)
    requires i < |s| == |r| && Next(s, r, i, at).kind == Opener(sql)
    ensures sql == SqlLiteral(r[..i], s[i]) && InLiteral(Next(s, r, i, at).goes, sql)
  {
  }

  lemma OpenerIs(s: string, r: string, open: nat, sql: bool)
    requires open < |s| == |r| && KindAt(s, r, open) == Opener(sql)
    ensures sql == SqlLiteral(r[..open], s[open]) && InLiteral(ScanAt(s, r, open + 1), sql)
  {
    OpenerMove(s, r, open, ScanAt(s, r, open), sql);
  }

  lemma {:induction false} LiteralStays(s: string, r: string, open: nat, end: nat, sql: bool)
    requires LiteralFrom(s, r, open, end) && KindAt(s, r, open) == Opener(sql)
    ensures InLiteral(ScanAt(s, r, end), sql)
    decreases end
  {
    if open + 1 < end {
      LiteralStays(s, r, open, end - 1, sql);
      LiteralOn(s, r, end - 1, sql);
    } else {
      OpenerIs(s, r, open, sql);
    }
  }

  /**
    The text of a literal is kept exactly when a database executes it: a template tagged `sql`, or any
    literal that is the argument of `sql.raw`, `.execute` or `.unsafe`; escapes in a template and its
    interpolations never are.
   */
  lemma KeptExactlyWhenSql(source: string, w: Sql, open: nat, k: nat)
    requires w == SqlIn(source) && LiteralFrom(source, w.text, open, k + 1) && open < k
    ensures w.text[k] == if KindAt(source, w.text, k).Text? && SqlLiteral(w.text[..open], source[open]) then source[k]
                         else BlankChar(source[k])
  {
    var sql := KindAt(source, w.text, open).sql;
    SqlShowsExactly(source, w);
    ShowsAt(source, w.text, k);
    OpenerIs(source, w.text, open, sql);
    LiteralStays(source, w.text, open, k, sql);
    LiteralOn(source, w.text, k, sql);
  }

  /** Code without literals, comments and regular expressions. */
  predicate PlainCode(code: string) {
    forall i :: 0 <= i < |code| ==> code[i] !in ['/', '"', '\'', '`']
  }

  lemma {:induction false} PlainScanned(code: string, r: string, i: nat)
    requires PlainCode(code) && i <= |code| == |r|
    ensures ScanAt(code, r, i).InCode? && (i < |code| ==> KindAt(code, r, i) == Code)
    ensures SqlOpeners(Kinds(code, r), i) == 0
  {
    if i > 0 { PlainScanned(code, r, i - 1); }
  }

  /** Code reads as itself and holds no SQL literal. */
  lemma CodeReadsAsItself(code: string, w: Sql)
    requires PlainCode(code) && w == SqlIn(code)
    ensures w == Sql(code, 0)
  {
    SqlShowsExactly(code, w);
    PlainScanned(code, w.text, |code|);
    forall k | 0 <= k < |code| ensures w.text[k] == code[k] {
      PlainScanned(code, w.text, k);
      ShowsAt(code, w.text, k);
    }
    assert w.text == code;
  }
}
