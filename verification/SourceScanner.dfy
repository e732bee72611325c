/**
  The static source scanner of scripts/verify-openapi.ts: matching brackets in a source text whose
  strings, templates and comments do not count.
 */
module SourceScanner {
  import opened Orders
  import opened Texts

  /** What the character under the scan belongs to. */
  datatype Mode = Code | Line | Block | Quoted(quote: char)

  /** One step of the scan: the next mode, how many characters it takes, and whether they are code. */
  datatype Move = Move(mode: Mode, width: nat, code: bool)

  function MoveAt(src: string, i: nat, mode: Mode): (m: Move)
    requires i < |src|
    ensures 1 <= m.width <= 2 && (m.code ==> m.width == 1 && m.mode == Code == mode)
  {
    match mode
    case Line => Move(if src[i] == '\n' then Code else Line, 1, false)
    case Block => if Pair(src, i, '*', '/') then Move(Code, 2, false) else Move(Block, 1, false)
    case Quoted(q) =>
      if src[i] == '\\' then Move(mode, 2, false)
      else Move(if src[i] == q then Code else mode, 1, false)
    case Code =>
      if Pair(src, i, '/', '/') then Move(Line, 2, false)
      else if Pair(src, i, '/', '*') then Move(Block, 2, false)
      else if src[i] == '"' || src[i] == '\'' || src[i] == '`' then Move(Quoted(src[i]), 1, false)
      else Move(Code, 1, true)
  }

  /** Where a step ends, within the text. */
  function Next(src: string, i: nat, m: Move): (j: nat)
    requires i < |src| && m.width >= 1
    ensures i < j <= |src|
  {
    if i + m.width <= |src| then i + m.width else |src|
  }

  function Spaces(n: nat): (r: string)
    ensures |r| == n && forall k :: 0 <= k < n ==> r[k] == ' '
  {
    seq(n, _ => ' ')
  }

  /** The text from `i` with everything but code blanked. */
  function Mask(src: string, i: nat, mode: Mode): (r: string)
    requires i <= |src|
    ensures |r| == |src| - i
    ensures forall k :: 0 <= k < |r| ==> r[k] == src[i + k] || r[k] == ' '
    decreases |src| - i
  {
    if i == |src| then ""
    else
      var m := MoveAt(src, i, mode);
      var j := Next(src, i, m);
      (if m.code then [src[i]] else Spaces(j - i)) + Mask(src, j, m.mode)
  }

  // ---------- brackets in a text without strings and comments ----------

  function Step(c: char, open: char, close: char): int {
    if c == open then 1 else if c == close then -1 else 0
  }

  /** The bracket depth after the first `n` characters, from `depth`. */
  function Depth(text: string, n: nat, depth: int, open: char, close: char): int
    requires n <= |text|
    decreases n
  {
    if n == 0 then depth else Depth(text[1..], n - 1, depth + Step(text[0], open, close), open, close)
  }

  /** The depth stays positive over the first `n` characters. */
  ghost predicate Inside(text: string, n: nat, depth: int, open: char, close: char) {
    n <= |text| && forall j :: 0 < j <= n ==> Depth(text, j, depth, open, close) > 0
  }

  /** The bracket at `k` is the first that closes everything: the depth is 0 behind it and positive before. */
  ghost predicate ClosesAt(text: string, k: nat, depth: int, open: char, close: char) {
    && k < |text| && text[k] == close && Depth(text, k + 1, depth, open, close) == 0
    && Inside(text, k, depth, open, close)
  }

  lemma ClosesOnce(text: string, j: nat, k: nat, depth: int, open: char, close: char)
    requires ClosesAt(text, j, depth, open, close) && ClosesAt(text, k, depth, open, close)
    ensures j == k
  {
  }

  lemma InsideCons(c: char, rest: string, n: nat, depth: int, open: char, close: char)
    requires depth + Step(c, open, close) > 0 && Inside(rest, n, depth + Step(c, open, close), open, close)
    ensures Inside([c] + rest, n + 1, depth, open, close)
  {
    var text := [c] + rest;
    assert text[1..] == rest;
    forall j | 0 < j <= n + 1 ensures Depth(text, j, depth, open, close) > 0 {
      assert j > 1 ==> Depth(rest, j - 1, depth + Step(c, open, close), open, close) > 0;
    }
  }

  lemma ClosesCons(c: char, rest: string, k: nat, depth: int, open: char, close: char)
    requires depth + Step(c, open, close) > 0 && ClosesAt(rest, k, depth + Step(c, open, close), open, close)
    ensures ClosesAt([c] + rest, k + 1, depth, open, close)
  {
    assert ([c] + rest)[1..] == rest;
    InsideCons(c, rest, k, depth, open, close);
  }

  // ---------- the scan ----------

  /** The bracket the scan stops at. */
  function Balance(src: string, i: nat, mode: Mode, depth: int, open: char, close: char): (r: Option<nat>)
    requires i <= |src|
    ensures r.Some? ==> i <= r.value < |src|
    decreases |src| - i
  {
    if i == |src| then None
    else
      var m := MoveAt(src, i, mode);
      if !m.code then Balance(src, Next(src, i, m), m.mode, depth, open, close)
      else if src[i] == close && depth == 1 then Some(i)
      else Balance(src, i + 1, Code, depth + Step(src[i], open, close), open, close)
  }

  /** What the scan finds, against the text with everything but code blanked. */
  ghost predicate Found(text: string, offset: nat, r: Option<nat>, depth: int, open: char, close: char) {
    match r
    case Some(k) => offset <= k && ClosesAt(text, k - offset, depth, open, close)
    case None => Inside(text, |text|, depth, open, close)
  }

  lemma FoundCons(c: char, rest: string, offset: nat, r: Option<nat>, depth: int, open: char, close: char)
    requires depth + Step(c, open, close) > 0 && Found(rest, offset + 1, r, depth + Step(c, open, close), open, close)
    ensures Found([c] + rest, offset, r, depth, open, close)
  {
    if r.Some? {
      ClosesCons(c, rest, r.value - offset - 1, depth, open, close);
    } else {
      InsideCons(c, rest, |rest|, depth, open, close);
    }
  }

  lemma {:induction false} FoundBehindSpaces(
    n: nat, rest: string, offset: nat, r: Option<nat>, depth: int, open: char, close: char)
    requires depth > 0 && open != ' ' && close != ' ' && Found(rest, offset + n, r, depth, open, close)
    ensures Found(Spaces(n) + rest, offset, r, depth, open, close)
  {
    if n == 0 {
      assert Spaces(0) + rest == rest;
    } else {
      FoundBehindSpaces(n - 1, rest, offset + 1, r, depth, open, close);
      FoundCons(' ', Spaces(n - 1) + rest, offset, r, depth, open, close);
      assert Spaces(n) + rest == [' '] + (Spaces(n - 1) + rest);
    }
  }

  lemma StopsHere(c: char, rest: string, offset: nat, open: char, close: char)
    requires c == close && open != close
    ensures Found([c] + rest, offset, Some(offset), 1, open, close)
  {
    var text := [c] + rest;
    assert Depth(text, 1, 1, open, close) == Depth(text[1..], 0, 0, open, close) == 0;
  }

  lemma MaskOfCode(src: string, i: nat, mode: Mode)
    requires i < |src| && MoveAt(src, i, mode).code
    ensures Mask(src, i, mode) == [src[i]] + Mask(src, i + 1, Code)
  {
  }

  lemma MaskOfRest(src: string, i: nat, mode: Mode, j: nat)
    requires i < |src| && !MoveAt(src, i, mode).code && j == Next(src, i, MoveAt(src, i, mode))
    ensures Mask(src, i, mode) == Spaces(j - i) + Mask(src, j, MoveAt(src, i, mode).mode)
  {
  }

  /**
    The scan stops at the first bracket that closes everything in the blanked text, and nowhere
    exactly when none does.
   */
  lemma {:induction false} BalanceIs(src: string, i: nat, mode: Mode, depth: int, open: char, close: char)
    requires i <= |src| && open != close && open != ' ' && close != ' '
    requires depth > 0 || (depth == 0 && i < |src| && MoveAt(src, i, mode).code && src[i] == open)
    ensures Found(Mask(src, i, mode), i, Balance(src, i, mode, depth, open, close), depth, open, close)
    decreases |src| - i, 1
  {
    if i < |src| {
      var r := Balance(src, i, mode, depth, open, close);
      var m := MoveAt(src, i, mode);
      if m.code {
        MaskOfCode(src, i, mode);
        BalanceOfCode(src, i, mode, depth, open, close, r);
      } else {
        BalanceOfRest(src, i, mode, depth, open, close, r);
      }
    }
  }

  lemma {:induction false} BalanceOfRest(
    src: string, i: nat, mode: Mode, depth: int, open: char, close: char, r: Option<nat>)
    requires i < |src| && open != close && open != ' ' && close != ' ' && depth > 0
    requires !MoveAt(src, i, mode).code && r == Balance(src, i, mode, depth, open, close)
    ensures Found(Mask(src, i, mode), i, r, depth, open, close)
    decreases |src| - i, 0
  {
    var m := MoveAt(src, i, mode);
    var j := Next(src, i, m);
    MaskOfRest(src, i, mode, j);
    BalanceIs(src, j, m.mode, depth, open, close);
    FoundBehindSpaces(j - i, Mask(src, j, m.mode), i, r, depth, open, close);
  }

  lemma {:induction false} BalanceOfCode(
    src: string, i: nat, mode: Mode, depth: int, open: char, close: char, r: Option<nat>)
    requires i < |src| && open != close && open != ' ' && close != ' '
    requires depth > 0 || (depth == 0 && src[i] == open)
    requires MoveAt(src, i, mode).code && r == Balance(src, i, mode, depth, open, close)
    ensures Found([src[i]] + Mask(src, i + 1, Code), i, r, depth, open, close)
    decreases |src| - i, 0
  {
    var rest, next := Mask(src, i + 1, Code), depth + Step(src[i], open, close);
    if next > 0 {
      BalanceIs(src, i + 1, Code, next, open, close);
      FoundCons(src[i], rest, i, r, depth, open, close);
    } else {
      StopsHere(src[i], rest, i, open, close);
    }
  }

  ghost predicate Closed(src: string, from: nat, r: Option<nat>, depth: int, open: char, close: char) {
    from <= |src| && Found(Mask(src, from, Code), from, r, depth, open, close)
  }

  // ---------- the loop of the source ----------

  /** Where the scan stands, by the flags of the source. */
  function ModeOf(inLine: bool, inBlock: bool, inStr: Option<char>): Mode {
    if inLine then Line else if inBlock then Block else if inStr.Some? then Quoted(inStr.value) else Code
  }

  method FindClose(src: string, start: nat, initial: int, open: char, close: char) returns (closeIdx: Option<nat>)
    requires start <= |src| && open != close
    ensures closeIdx == Balance(src, start, Code, initial, open, close)
  {
    var inStr: Option<char> := None;
    var inLine, inBlock := false, false;
    var depth: int := initial;
    var i := start;
    while i < |src|
      invariant start <= i <= |src|
      invariant !(inLine && inBlock) && (inStr.Some? ==> !inLine && !inBlock)
      invariant Balance(src, i, ModeOf(inLine, inBlock, inStr), depth, open, close)
                == Balance(src, start, Code, initial, open, close)
      decreases |src| - i
    {
      var ch := src[i];
      if inLine {
        if ch == '\n' { inLine := false; }
        i := i + 1;
      } else if inBlock {
        if Pair(src, i, '*', '/') {
          inBlock := false;
          i := i + 1;
        }
        i := i + 1;
      } else if inStr.Some? {
        if ch == '\\' { i := i + 1; }
        else if ch == inStr.value { inStr := None; }
        i := if i + 1 <= |src| then i + 1 else |src|;
      } else if Pair(src, i, '/', '/') {
        inLine := true;
        i := i + 2;
      } else if Pair(src, i, '/', '*') {
        inBlock := true;
        i := i + 2;
      } else if ch == '"' || ch == '\'' || ch == '`' {
        inStr := Some(ch);
        i := i + 1;
      } else {
        if ch == open { depth := depth + 1; }
        else if ch == close {
          depth := depth - 1;
          if depth == 0 { return Some(i); }
        }
        i := i + 1;
      }
    }
    closeIdx := None;
  }

  /** The scan from a bracket, or behind one. */
  method MatchingClose(src: string, start: nat, initial: int, open: char, close: char) returns (closeIdx: Option<nat>)
    requires start <= |src| && open != close && open != ' ' && close != ' '
    requires initial > 0 || (initial == 0 && start < |src| && MoveAt(src, start, Code).code && src[start] == open)
    ensures Closed(src, start, closeIdx, initial, open, close)
    ensures closeIdx.Some? ==> start <= closeIdx.value < |src|
  {
    closeIdx := FindClose(src, start, initial, open, close);
    BalanceIs(src, start, Code, initial, open, close);
  }

  /** The text of a call from its opening parenthesis, both included. */
  method ExtractCallText(src: string, open: nat) returns (text: Option<string>)
    requires open < |src| && src[open] == '('
    ensures text.Some? ==> open + |text.value| <= |src| && text.value == src[open..open + |text.value|] != []
    ensures Closed(src, open, if text.Some? then Some(open + |text.value| - 1) else None, 0, '(', ')')
  {
    var close := MatchingClose(src, open, 0, '(', ')');
    text := if close.None? then None else Some(src[open..close.value + 1]);
  }

  // ---------- function bodies ----------

  predicate Stands(src: string, i: nat, word: string) {
    i + |word| <= |src| && src[i..i + |word|] == word
  }

  const FUNCTION := "function"

  /** Where the parameters of a declaration of `name` at `i` start. */
  function ParametersAt(src: string, i: nat, name: string): (r: Option<nat>)
    ensures r.Some? ==> i < r.value <= |src|
  {
    if !Stands(src, i, FUNCTION) then None
    else
      var n := SkipSpaces(src, i + |FUNCTION|);
      if n == i + |FUNCTION| || !Stands(src, n, name) then None
      else
        var p := SkipSpaces(src, n + |name|);
        if p < |src| && src[p] == '(' then Some(p + 1) else None
  }

  /** The first that `f` finds from `i`. */
  function FirstSome(f: nat -> Option<nat>, i: nat, limit: nat): Option<nat>
    requires i <= limit
    decreases limit - i
  {
    if i == limit then None else if f(i).Some? then f(i) else FirstSome(f, i + 1, limit)
  }

  predicate IsFirst(f: nat -> Option<nat>, i: nat, j: nat, x: nat) {
    i <= j && f(j) == Some(x) && forall k :: i <= k < j ==> f(k).None?
  }

  predicate FoundFirst(f: nat -> Option<nat>, i: nat, limit: nat, x: nat) {
    exists j: nat :: j < limit && IsFirst(f, i, j, x)
  }

  lemma {:induction false} FirstSomeIs(f: nat -> Option<nat>, i: nat, limit: nat, x: nat)
    requires i <= limit && FirstSome(f, i, limit) == Some(x)
    ensures FoundFirst(f, i, limit, x)
    decreases limit - i
  {
    if f(i).Some? {
      assert IsFirst(f, i, i, x);
    } else {
      FirstSomeIs(f, i + 1, limit, x);
      var j: nat :| j < limit && IsFirst(f, i + 1, j, x);
      assert IsFirst(f, i, j, x);
    }
  }

  function Parameters(src: string, name: string): nat -> Option<nat> {
    (i: nat) => ParametersAt(src, i, name)
  }

  /** Where the parameters of the first declaration of `name` start. */
  function FindDeclaration(src: string, name: string): (r: Option<nat>) {
    FirstSome(Parameters(src, name), 0, |src| + 1)
  }

  function FindChar(src: string, i: nat, c: char): (r: Option<nat>)
    requires i <= |src|
    ensures r.Some? ==> i <= r.value < |src| && src[r.value] == c
    decreases |src| - i
  {
    if i == |src| then None else if src[i] == c then Some(i) else FindChar(src, i + 1, c)
  }

  lemma {:induction false} CharIsFirst(src: string, i: nat, c: char)
    requires i <= |src|
    ensures forall j :: i <= j < |src| && (FindChar(src, i, c).None? || j < FindChar(src, i, c).value) ==> src[j] != c
    decreases |src| - i
  {
    if i < |src| && src[i] != c { CharIsFirst(src, i + 1, c); }
  }

  /** The parameters of the first declaration start at `p`, and the first brace from there is at `brace`. */
  predicate OpensBody(src: string, name: string, brace: nat, j: nat, p: nat) {
    IsFirst(Parameters(src, name), 0, j, p) && p <= brace < |src| && src[brace] == '{' && '{' !in src[p..brace]
  }

  /** The brace is the first behind the parenthesis of the first declaration of that name. */
  lemma BodyBraceIsFirst(src: string, name: string, brace: nat)
    requires BodyBrace(src, name) == Some(brace)
    ensures exists j: nat, p: nat :: OpensBody(src, name, brace, j, p)
  {
    var p := FindDeclaration(src, name).value;
    FirstSomeIs(Parameters(src, name), 0, |src| + 1, p);
    CharIsFirst(src, p, '{');
    var j: nat :| j < |src| + 1 && IsFirst(Parameters(src, name), 0, j, p);
    assert OpensBody(src, name, brace, j, p);
  }

  /** Where the brace stands that opens the body of `name`. */
  function BodyBrace(src: string, name: string): (r: Option<nat>)
    ensures r.Some? ==> r.value < |src| && src[r.value] == '{'
  {
    var sig := FindDeclaration(src, name);
    if sig.None? || sig.value > |src| then None else FindChar(src, sig.value, '{')
  }

  /** What stands between the first brace behind the parenthesis of the parameter list and the brace that closes it. */
  method ExtractFunctionBody(src: string, name: string) returns (body: Option<string>)
    ensures BodyBrace(src, name).None? ==> body.None?
    ensures BodyBrace(src, name).Some? ==>
      var from := BodyBrace(src, name).value + 1;
      && (body.Some? ==> from + |body.value| <= |src| && body.value == src[from..from + |body.value|])
      && Closed(src, from, if body.Some? then Some(from + |body.value|) else None, 1, '{', '}')
  {
    var sig := FindDeclaration(src, name);
    if sig.None? || sig.value > |src| { return None; }
    var brace := FindChar(src, sig.value, '{');
    if brace.None? { return None; }
    var close := MatchingClose(src, brace.value + 1, 1, '{', '}');
    body := if close.None? then None else Some(src[brace.value + 1..close.value]);
  }

  // ---------- what is code ----------

  predicate Plain(src: string) {
    forall i :: 0 <= i < |src| ==> src[i] !in ['"', '\'', '`', '/']
  }

  /** A text without quotes and slashes is all code. */
  lemma {:induction false} PlainIsCode(src: string, i: nat)
    requires i <= |src| && Plain(src)
    ensures Mask(src, i, Code) == src[i..]
    decreases |src| - i
  {
    if i < |src| {
      PlainIsCode(src, i + 1);
      assert src[i..] == [src[i]] + src[i + 1..];
    }
  }

  /** The content of a literal: neither its quote nor a backslash. */
  predicate Content(body: string, quote: char) {
    forall i :: 0 <= i < |body| ==> body[i] != quote && body[i] != '\\'
  }

  predicate IsQuote(c: char) { c == '"' || c == '\'' || c == '`' }

  lemma {:induction false} LiteralBlanked(src: string, i: nat, k: nat, quote: char)
    requires i <= k < |src| && Content(src[i..k], quote) && src[k] == quote && quote != '\\'
    ensures Mask(src, i, Quoted(quote)) == Spaces(k + 1 - i) + Mask(src, k + 1, Code)
    decreases k - i
  {
    if i < k {
      assert src[i] == src[i..k][0] && src[i + 1..k] == src[i..k][1..];
      LiteralBlanked(src, i + 1, k, quote);
    }
  }

  /** A literal is blank from quote to quote, whatever it holds: a bracket in it counts for nothing. */
  lemma LiteralIsBlank(src: string, i: nat, k: nat)
    requires i < k < |src| && IsQuote(src[i]) && src[k] == src[i] && Content(src[i + 1..k], src[i])
    ensures Mask(src, i, Code) == Spaces(k + 1 - i) + Mask(src, k + 1, Code)
  {
    LiteralBlanked(src, i + 1, k, src[i]);
  }

  lemma {:induction false} CommentBlanked(src: string, i: nat, k: nat)
    requires i <= k < |src| && src[k] == '\n' && forall j :: i <= j < k ==> src[j] != '\n'
    ensures Mask(src, i, Line) == Spaces(k + 1 - i) + Mask(src, k + 1, Code)
    decreases k - i
  {
    if i < k { CommentBlanked(src, i + 1, k); }
  }

  /** A line comment is blank to the end of its line. */
  lemma LineCommentIsBlank(src: string, i: nat, k: nat)
    requires i + 1 < k < |src| && Pair(src, i, '/', '/') && src[k] == '\n' && forall j :: i <= j < k ==> src[j] != '\n'
    ensures Mask(src, i, Code) == Spaces(k + 1 - i) + Mask(src, k + 1, Code)
  {
    CommentBlanked(src, i + 2, k);
  }

  lemma {:induction false} BlockBlanked(src: string, i: nat, k: nat)
    requires i <= k && Pair(src, k, '*', '/') && forall j :: i <= j < k ==> !Pair(src, j, '*', '/')
    ensures Mask(src, i, Block) == Spaces(k + 2 - i) + Mask(src, k + 2, Code)
    decreases k - i
  {
    if i < k { BlockBlanked(src, i + 1, k); }
  }

  /** A block comment is blank to the first close behind its opener. */
  lemma BlockCommentIsBlank(src: string, i: nat, k: nat)
    requires i + 2 <= k && Pair(src, i, '/', '*') && Pair(src, k, '*', '/')
    requires forall j :: i + 2 <= j < k ==> !Pair(src, j, '*', '/')
    ensures Mask(src, i, Code) == Spaces(k + 2 - i) + Mask(src, k + 2, Code)
  {
    BlockBlanked(src, i + 2, k);
  }
}
