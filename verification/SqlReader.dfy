/** The SQL reader of scripts/verify-no-migration-dml.ts. */
module SqlReader {
  // It keeps offsets. Text is a sequence of characters; an offset is an index into it.

  import opened Orders
  import opened Texts

  /** `Blanked` reads literals as spaces; `Literals` keeps what is between their quotes. */
  datatype Mode = Blanked | Literals

  // ---------- characters ----------

  predicate IsLetter(c: char) { 'a' <= c <= 'z' || 'A' <= c <= 'Z' }

  predicate IsDigit(c: char) { '0' <= c <= '9' }

  /** `\w` */
  predicate IsWord(c: char) { IsLetter(c) || IsDigit(c) || c == '_' }

  function Upper(c: char): char {
    if 'a' <= c <= 'z' then (c as int - 32) as char else c
  }

  function Lower(c: char): char {
    if 'A' <= c <= 'Z' then (c as int + 32) as char else c
  }

  function Uppers(s: string): (r: string)
    ensures |r| == |s|
  {
    seq(|s|, i requires 0 <= i < |s| => Upper(s[i]))
  }

  function Lowers(s: string): (r: string)
    ensures |r| == |s|
  {
    seq(|s|, i requires 0 <= i < |s| => Lower(s[i]))
  }

  function TrimEnd(s: string): string {
    if s != [] && IsSpace(s[|s| - 1]) then TrimEnd(s[..|s| - 1]) else s
  }

  /** `word` (in capitals) stands at `i`, in any case. */
  predicate At(s: string, i: nat, word: string) {
    i + |word| <= |s| && Uppers(s[i..i + |word|]) == word
  }

  /** A word boundary, the two sides being word characters or not. */
  predicate Boundary(s: string, i: nat)
    requires i <= |s|
  {
    (i > 0 && IsWord(s[i - 1])) != (i < |s| && IsWord(s[i]))
  }

  /** `\bword\b` at `i`. */
  predicate WordAt(s: string, i: nat, word: string) {
    At(s, i, word) && Boundary(s, i) && Boundary(s, i + |word|)
  }

  // ---------- does a keyword open a statement ----------

  function LastWord(s: string): string {
    if s != [] && (IsLetter(s[|s| - 1]) || s[|s| - 1] == '_') then LastWord(s[..|s| - 1]) + [s[|s| - 1]] else []
  }

  predicate StartsStatement(s: string, index: nat)
    requires index <= |s|
  {
    var before := TrimEnd(s[..index]);
    || before == []
    || before[|before| - 1] in [';', '$', '(', ')']
    || Uppers(LastWord(before)) in ["BEGIN", "THEN", "ELSE", "LOOP", "EXECUTE"]
  }

  predicate AllSpaces(s: string) {
    forall i :: 0 <= i < |s| ==> IsSpace(s[i])
  }

  function WordRun(s: string, i: nat): (j: nat)
    requires i <= |s|
    ensures i <= j <= |s|
    decreases |s| - i
  {
    if i < |s| && (IsWord(s[i]) || s[i] == '$') then WordRun(s, i + 1) else i
  }

  function FindChar(s: string, i: nat, c: char): (j: nat)
    requires i <= |s|
    ensures i <= j <= |s|
    ensures forall k :: i <= k < j ==> s[k] != c
    ensures j < |s| ==> s[j] == c
    decreases |s| - i
  {
    if i == |s| || s[i] == c then i else FindChar(s, i + 1, c)
  }

  /** What may stand between `DO` and its code: spaces, or `LANGUAGE` and a name. */
  predicate DoTail(s: string) {
    var i := SkipSpaces(s, 0);
    || i == |s|
    || (At(s, i, "LANGUAGE")
        && var j := SkipSpaces(s, i + 8);
           j > i + 8 && j < |s|
           && if s[j] == '"' then
                var k := FindChar(s, j + 1, '"');
                k < |s| && k + 1 < |s| && AllSpaces(s[k + 1..])
              else
                var k := WordRun(s, j);
                (IsLetter(s[j]) || s[j] == '_') && k < |s| && AllSpaces(s[k..]))
  }

  predicate DoAt(s: string, i: nat) {
    At(s, i, "DO") && (i == 0 || !IsWord(s[i - 1])) && DoTail(s[i + 2..])
  }

  /** The leftmost match of the lookback pattern. */
  function FirstDo(s: string, i: nat): Option<nat>
    requires i <= |s|
    decreases |s| - i
  {
    if DoAt(s, i) then Some(i) else if i == |s| then None else FirstDo(s, i + 1)
  }

  const DO_LOOKBACK := 64

  /** Is the literal that opens after `prefix` the code of a `DO` block? */
  predicate OpensDoBody(prefix: string) {
    var from := if |prefix| <= DO_LOOKBACK then 0 else |prefix| - DO_LOOKBACK;
    var head := FirstDo(prefix[from..], 0);
    head.Some? && from + head.value <= |prefix| && StartsStatement(prefix, from + head.value)
  }

  /** The two characters before a quote make it an `E'…'` string. */
  predicate OpensEscapeString(out: string) {
    var n := |out|;
    n >= 1 && Upper(out[n - 1]) == 'E'
    && (n == 1 || !(IsWord(out[n - 2]) || out[n - 2] == '$' || out[n - 2] == '"'))
  }

  // ---------- statement breakpoints ----------

  const BREAKPOINT: string := "--> statement-breakpoint"

  function Separator(): string {
    [';'] + seq(|BREAKPOINT| - 1, _ => ' ')
  }

  function ReplaceBreakpoints(s: string): (r: string)
    ensures |r| == |s|
  {
    if s == [] then []
    else if BREAKPOINT <= s then Separator() + ReplaceBreakpoints(s[|BREAKPOINT|..])
    else [s[0]] + ReplaceBreakpoints(s[1..])
  }

  ghost predicate NoBreakpoint(s: string) {
    forall i :: 0 <= i <= |s| ==> !(BREAKPOINT <= s[i..])
  }

  lemma NoBreakpointSlice(s: string, lo: nat, hi: nat)
    requires NoBreakpoint(s) && lo <= hi <= |s|
    ensures NoBreakpoint(s[lo..hi])
  {
    forall i | 0 <= i <= hi - lo ensures !(BREAKPOINT <= s[lo..hi][i..]) {
      assert s[lo..hi][i..] <= s[lo + i..];
    }
  }

  lemma {:induction false} ReplaceIsIdentity(s: string)
    requires NoBreakpoint(s)
    ensures ReplaceBreakpoints(s) == s
  {
    if s != [] {
      assert s[0..] == s;
      NoBreakpointSlice(s, 1, |s|);
      assert s[1..|s|] == s[1..];
      ReplaceIsIdentity(s[1..]);
    }
  }

  /** Where the result shows no `;`, nothing was replaced. */
  lemma {:induction false} Unreplaced(s: string, k: nat)
    requires k <= |s| && ';' !in ReplaceBreakpoints(s)[..k]
    ensures ReplaceBreakpoints(s)[..k] == s[..k]
  {
    var r := ReplaceBreakpoints(s);
    if k > 0 {
      assert r[0] == r[..k][0];
      if !(BREAKPOINT <= s) {
        assert r[1..] == ReplaceBreakpoints(s[1..]);
        assert forall c :: c in r[1..][..k - 1] ==> c in r[..k];
        Unreplaced(s[1..], k - 1);
        assert r[..k] == [s[0]] + r[1..][..k - 1];
        assert s[..k] == [s[0]] + s[1..][..k - 1];
      }
    }
  }

  lemma {:induction false} ReplaceLeavesNone(s: string)
    ensures NoBreakpoint(ReplaceBreakpoints(s))
  {
    var r := ReplaceBreakpoints(s);
    var n := |BREAKPOINT|;
    forall i | 0 <= i <= |r| ensures !(BREAKPOINT <= r[i..]) {
      if BREAKPOINT <= s {
        if i < n {
          assert r[i] == Separator()[i];
        } else {
          ReplaceLeavesNone(s[n..]);
          assert r[i..] == ReplaceBreakpoints(s[n..])[i - n..];
        }
      } else if s != [] {
        if i == 0 {
          if BREAKPOINT <= r {
            assert r[..n] == BREAKPOINT;
            Unreplaced(s, n);
          }
          assert r[0..] == r;
        } else {
          ReplaceLeavesNone(s[1..]);
          assert r[i..] == ReplaceBreakpoints(s[1..])[i - 1..];
        }
      }
    }
  }

  // ---------- the walker ----------

  function BlankChar(c: char): char {
    if c == '\n' then '\n' else ' '
  }

  function Blank(s: string): (r: string)
    ensures |r| == |s| && forall i :: 0 <= i < |s| ==> r[i] == BlankChar(s[i])
  {
    seq(|s|, i requires 0 <= i < |s| => BlankChar(s[i]))
  }

  function CommentEnd(s: string, i: nat): (j: nat)
    requires i <= |s|
    ensures i <= j <= |s|
    decreases |s| - i
  {
    if i == |s| then i else if Pair(s, i, '*', '/') then i + 2 else CommentEnd(s, i + 1)
  }

  /** Just past the quote that closes a literal whose text starts at `k`, or the end of the text. */
  function LiteralStop(s: string, k: nat, escapes: bool): (stop: nat)
    ensures stop <= |s| && (k <= |s| ==> k <= stop)
    ensures k < |s| ==> stop > k
    decreases |s| - k
  {
    if k >= |s| then |s|
    else if escapes && s[k] == '\\' then LiteralStop(s, k + 2, escapes)
    else if s[k] != '\'' then LiteralStop(s, k + 1, escapes)
    else if k + 1 < |s| && s[k + 1] == '\'' then LiteralStop(s, k + 2, escapes)
    else k + 1
  }

  /** One token: where the next one starts, and what this one reads as. */
  datatype Token = Token(next: nat, piece: string)

  predicate IsToken(s: string, i: nat, t: Token) {
    i < t.next <= |s| && |t.piece| == t.next - i
  }

  /** The end of a literal's body: its closing quote, or its last character when it has none. */
  function BodyEnd(i: nat, stop: nat): (close: nat)
    requires i < stop
    ensures i < close <= stop
  {
    if stop - 1 > i + 1 then stop - 1 else i + 1
  }

  /** A literal with its delimiters blanked. */
  function Frame(s: string, i: nat, stop: nat, body: string): (r: string)
    requires i < stop <= |s| && |body| == BodyEnd(i, stop) - i - 1
    ensures |r| == stop - i
    ensures forall j :: 0 <= j < |r| ==>
      r[j] == if 1 <= j < BodyEnd(i, stop) - i then body[j - 1] else BlankChar(s[i + j])
  {
    Blank(s[i..i + 1]) + body + Blank(s[BodyEnd(i, stop)..stop])
  }

  function Body(s: string, i: nat, stop: nat): string
    requires i < stop <= |s|
  {
    s[i + 1..BodyEnd(i, stop)]
  }

  function NextToken(s: string, i: nat, out: string, mode: Mode): (t: Token)
    requires i < |s|
    ensures IsToken(s, i, t)
    decreases |s|, 0, 0
  {
    if Pair(s, i, '-', '-') then
      var end := FindChar(s, i, '\n');
      Token(end, Blank(s[i..end]))
    else if Pair(s, i, '/', '*') then
      var end := CommentEnd(s, i + 2);
      Token(end, Blank(s[i..end]))
    else if s[i] == '\'' then
      var stop := LiteralStop(s, i + 1, OpensEscapeString(out));
      if mode.Literals? then
        Token(stop, Frame(s, i, stop, Body(s, i, stop)))
      else if OpensDoBody(out) then
        Token(stop, Frame(s, i, stop, Reading(Body(s, i, stop), mode)))
      else
        Token(stop, Blank(s[i..stop]))
    else
      Token(i + 1, [s[i]])
  }

  function Walk(s: string, i: nat, out: string, mode: Mode): (r: string)
    requires i <= |s|
    ensures |r| == |out| + |s| - i
    decreases |s|, 1, |s| - i
  {
    if i == |s| then out
    else
      var t := NextToken(s, i, out, mode);
      Walk(s, t.next, out + t.piece, mode)
  }

  /** The whole reading of a text. */
  function Reading(sql: string, mode: Mode): (r: string)
    ensures |r| == |sql|
    decreases |sql|, 2, 0
  {
    Walk(ReplaceBreakpoints(sql), 0, "", mode)
  }

  // ---------- every character is kept or blanked, where it stood ----------

  ghost predicate Masks(s: string, r: string) {
    |r| == |s| && forall i :: 0 <= i < |s| ==> r[i] == s[i] || r[i] == BlankChar(s[i])
  }

  lemma MasksJoin(s: string, r: string, t: string, q: string)
    requires Masks(s, r) && Masks(t, q)
    ensures Masks(s + t, r + q)
  {
  }

  lemma {:induction false} TokenMasks(s: string, i: nat, out: string, mode: Mode)
    requires i < |s| && NoBreakpoint(s)
    ensures var t := NextToken(s, i, out, mode); Masks(s[i..t.next], t.piece)
    decreases |s|, 0, 0
  {
    var t := NextToken(s, i, out, mode);
    if s[i] == '\'' {
      var stop := LiteralStop(s, i + 1, OpensEscapeString(out));
      if mode.Literals? {
        FrameMasks(s, i, stop, Body(s, i, stop));
      } else if OpensDoBody(out) {
        NoBreakpointSlice(s, i + 1, BodyEnd(i, stop));
        ReadingMasksFrom(Body(s, i, stop), mode);
        FrameMasks(s, i, stop, Reading(Body(s, i, stop), mode));
      } else {
        BlankMasks(s[i..stop]);
      }
    } else if Pair(s, i, '-', '-') || Pair(s, i, '/', '*') {
      BlankMasks(s[i..t.next]);
    }
  }

  lemma BlankMasks(s: string)
    ensures Masks(s, Blank(s))
  {
  }

  lemma FrameMasks(s: string, i: nat, stop: nat, body: string)
    requires i < stop <= |s| && |body| == BodyEnd(i, stop) - i - 1 && Masks(Body(s, i, stop), body)
    ensures Masks(s[i..stop], Frame(s, i, stop, body))
  {
    var r, b, close := Frame(s, i, stop, body), Body(s, i, stop), BodyEnd(i, stop);
    forall j | 0 <= j < stop - i ensures r[j] == s[i..stop][j] || r[j] == BlankChar(s[i..stop][j]) {
      if 1 <= j < close - i { assert body[j - 1] == b[j - 1] || body[j - 1] == BlankChar(b[j - 1]); }
    }
  }

  lemma {:induction false} WalkMasks(s: string, i: nat, out: string, mode: Mode)
    requires i <= |s| && NoBreakpoint(s) && Masks(s[..i], out)
    ensures Masks(s, Walk(s, i, out, mode))
    decreases |s|, 1, |s| - i
  {
    if i == |s| {
      assert s[..i] == s;
    } else {
      var t := NextToken(s, i, out, mode);
      TokenMasks(s, i, out, mode);
      MasksJoin(s[..i], out, s[i..t.next], t.piece);
      assert s[..i] + s[i..t.next] == s[..t.next];
      WalkMasks(s, t.next, out + t.piece, mode);
    }
  }

  lemma {:induction false} ReadingMasksFrom(s: string, mode: Mode)
    requires NoBreakpoint(s)
    ensures Masks(s, Reading(s, mode))
    decreases |s|, 2, 0
  {
    ReplaceIsIdentity(s);
    assert s[..0] == "";
    WalkMasks(s, 0, "", mode);
  }

  lemma SeparatorIsOneLine()
    ensures '\n' !in BREAKPOINT && '\n' !in Separator()
  {
  }

  lemma {:induction false} ReplaceKeepsLines(s: string, k: nat)
    requires k < |s|
    ensures ReplaceBreakpoints(s)[k] == '\n' <==> s[k] == '\n'
  {
    var n, r := |BREAKPOINT|, ReplaceBreakpoints(s);
    if BREAKPOINT <= s {
      assert r == Separator() + ReplaceBreakpoints(s[n..]);
      if k < n {
        SeparatorIsOneLine();
        assert s[k] == BREAKPOINT[k] && r[k] == Separator()[k];
        assert s[k] in BREAKPOINT && r[k] in Separator();
      } else {
        ReplaceKeepsLines(s[n..], k - n);
        assert s[n..][k - n] == s[k] && r[k] == ReplaceBreakpoints(s[n..])[k - n];
      }
    } else if k > 0 {
      ReplaceKeepsLines(s[1..], k - 1);
      assert r == [s[0]] + ReplaceBreakpoints(s[1..]) && s[1..][k - 1] == s[k];
    }
  }

  /** In both modes the reading has the text's length and its line breaks, each where it was. */
  lemma ReadingKeepsOffsets(sql: string, mode: Mode)
    ensures |Reading(sql, mode)| == |sql|
    ensures forall k :: 0 <= k < |sql| ==> (Reading(sql, mode)[k] == '\n' <==> sql[k] == '\n')
  {
    var s := ReplaceBreakpoints(sql);
    ReplaceLeavesNone(sql);
    assert s[..0] == "";
    WalkMasks(s, 0, "", mode);
    forall k | 0 <= k < |sql| ensures Reading(sql, mode)[k] == '\n' <==> sql[k] == '\n' {
      ReplaceKeepsLines(sql, k);
    }
  }

  lemma {:induction false} ReplaceKeepsChars(s: string, k: nat)
    requires k < |s|
    ensures var c := ReplaceBreakpoints(s)[k]; c == s[k] || c == ' ' || c == ';'
  {
    var n := |BREAKPOINT|;
    if BREAKPOINT <= s {
      if k >= n { ReplaceKeepsChars(s[n..], k - n); }
    } else if k > 0 {
      ReplaceKeepsChars(s[1..], k - 1);
    }
  }

  /** Whatever a reading shows, a space, a `;` or a line break apart, stands in the text at that offset. */
  lemma ReadingShowsTheText(sql: string, mode: Mode, k: nat)
    requires k < |sql| && Reading(sql, mode)[k] !in [' ', ';', '\n']
    ensures Reading(sql, mode)[k] == sql[k]
  {
    var s := ReplaceBreakpoints(sql);
    ReplaceLeavesNone(sql);
    assert s[..0] == "";
    WalkMasks(s, 0, "", mode);
    ReplaceKeepsChars(sql, k);
  }

  // ---------- the two readings are aligned ----------

  /** `b` blanks part of `k`. */
  ghost predicate Under(b: string, k: string) {
    |b| == |k| && forall i :: 0 <= i < |k| ==> b[i] == k[i] || b[i] == ' '
  }

  /** The two outputs look the same to the escape-string lookback. */
  ghost predicate SameTail(b: string, k: string) {
    && |b| == |k|
    && (|b| > 0 ==> b[|b| - 1] == k[|k| - 1])
    && (|b| > 1 && Upper(b[|b| - 1]) == 'E' ==> b[|b| - 2] == k[|k| - 2])
  }

  /** Outside literals the two modes read the same token, and only code shows its last character. */
  lemma SameToken(s: string, i: nat, outB: string, outK: string)
    requires i < |s| && s[i] != '\''
    ensures var b := NextToken(s, i, outB, Blanked);
            && b == NextToken(s, i, outK, Literals)
            && (|b.piece| == 1 || b.piece[|b.piece| - 1] == ' ' || b.piece[|b.piece| - 1] == '\n')
  {
  }

  lemma TailAfter(outB: string, outK: string, piece: string)
    requires SameTail(outB, outK) && piece != ""
    requires |piece| == 1 || piece[|piece| - 1] == ' ' || piece[|piece| - 1] == '\n'
    ensures SameTail(outB + piece, outK + piece)
  {
  }

  lemma {:induction false} TokensAlign(s: string, i: nat, outB: string, outK: string)
    requires i < |s| && NoBreakpoint(s) && SameTail(outB, outK)
    ensures var b, k := NextToken(s, i, outB, Blanked), NextToken(s, i, outK, Literals);
            b.next == k.next && Under(b.piece, k.piece) && SameTail(outB + b.piece, outK + k.piece)
  {
    if s[i] == '\'' {
      assert OpensEscapeString(outB) == OpensEscapeString(outK);
      LiteralsAlign(s, i, outB, outK);
    } else {
      SameToken(s, i, outB, outK);
      TailAfter(outB, outK, NextToken(s, i, outB, Blanked).piece);
    }
  }

  lemma FramesAlign(s: string, i: nat, stop: nat, body: string, masked: string)
    requires i < stop <= |s| && |body| == BodyEnd(i, stop) - i - 1 && Masks(body, masked)
    ensures Under(Frame(s, i, stop, masked), Frame(s, i, stop, body))
    ensures Frame(s, i, stop, masked)[stop - i - 1] == Frame(s, i, stop, body)[stop - i - 1] == BlankChar(s[stop - 1])
  {
  }

  lemma BlankAligns(s: string, i: nat, stop: nat)
    requires i < stop <= |s|
    ensures Under(Blank(s[i..stop]), Frame(s, i, stop, Body(s, i, stop)))
    ensures var last := stop - i - 1;
            Blank(s[i..stop])[last] == Frame(s, i, stop, Body(s, i, stop))[last] == BlankChar(s[stop - 1])
  {
    assert forall j :: 0 <= j < stop - i ==> s[i..stop][j] == s[i + j];
  }

  lemma LiteralsAlign(s: string, i: nat, outB: string, outK: string)
    requires i < |s| && s[i] == '\'' && NoBreakpoint(s) && |outB| == |outK|
    requires OpensEscapeString(outB) == OpensEscapeString(outK)
    ensures var b, k := NextToken(s, i, outB, Blanked), NextToken(s, i, outK, Literals);
            b.next == k.next && Under(b.piece, k.piece) && SameTail(outB + b.piece, outK + k.piece)
  {
    var b, k := NextToken(s, i, outB, Blanked), NextToken(s, i, outK, Literals);
    var stop := LiteralStop(s, i + 1, OpensEscapeString(outB));
    if OpensDoBody(outB) {
      NoBreakpointSlice(s, i + 1, BodyEnd(i, stop));
      ReadingMasksFrom(Body(s, i, stop), Blanked);
      FramesAlign(s, i, stop, Body(s, i, stop), Reading(Body(s, i, stop), Blanked));
    } else {
      BlankAligns(s, i, stop);
    }
    EndsBlank(outB, outK, b.piece, k.piece);
  }

  lemma EndsBlank(outB: string, outK: string, b: string, k: string)
    requires |outB| == |outK| && |b| == |k| > 0
    requires b[|b| - 1] == k[|k| - 1] && (b[|b| - 1] == ' ' || b[|b| - 1] == '\n')
    ensures SameTail(outB + b, outK + k)
  {
  }

  lemma UnderJoin(b: string, k: string, b': string, k': string)
    requires Under(b, k) && Under(b', k')
    ensures Under(b + b', k + k')
  {
  }

  lemma {:induction false} WalksAlign(s: string, i: nat, outB: string, outK: string)
    requires i <= |s| && NoBreakpoint(s) && SameTail(outB, outK) && Under(outB, outK)
    ensures Under(Walk(s, i, outB, Blanked), Walk(s, i, outK, Literals))
    decreases |s| - i
  {
    if i < |s| {
      var b, k := NextToken(s, i, outB, Blanked), NextToken(s, i, outK, Literals);
      TokensAlign(s, i, outB, outK);
      UnderJoin(outB, outK, b.piece, k.piece);
      WalkStep(s, i, outB, Blanked);
      WalkStep(s, i, outK, Literals);
      WalksAlign(s, b.next, outB + b.piece, outK + k.piece);
    }
  }

  /** At each offset the blanked reading is a space or the character of the literal-keeping one. */
  lemma ReadingsAligned(sql: string)
    ensures Under(Reading(sql, Blanked), Reading(sql, Literals))
  {
    ReplaceLeavesNone(sql);
    WalksAlign(ReplaceBreakpoints(sql), 0, "", "");
  }

  // ---------- the blanked reading has nothing left to blank ----------

  ghost predicate Clean(s: string) {
    && (forall i :: 0 <= i < |s| ==> s[i] != '\'')
    && (forall i :: 0 <= i < |s| ==> !Pair(s, i, '-', '-') && !Pair(s, i, '/', '*'))
  }

  predicate Joins(a: string, c: char) {
    a == [] || !((a[|a| - 1] == '-' && c == '-') || (a[|a| - 1] == '/' && c == '*'))
  }

  lemma CleanJoin(a: string, b: string)
    requires Clean(a) && Clean(b) && (b != [] ==> Joins(a, b[0]))
    ensures Clean(a + b)
  {
    var r := a + b;
    forall i | 0 <= i < |r| ensures !Pair(r, i, '-', '-') && !Pair(r, i, '/', '*') && r[i] != '\'' {
      if i + 1 < |a| {
        assert !Pair(a, i, '-', '-') && !Pair(a, i, '/', '*');
      } else if i >= |a| {
        assert !Pair(b, i - |a|, '-', '-') && !Pair(b, i - |a|, '/', '*');
      }
    }
  }

  lemma BlankClean(s: string)
    ensures Clean(Blank(s))
  {
  }

  /** What follows `i` cannot complete a comment opener with what was read before it. */
  predicate Ready(s: string, i: nat, out: string) {
    i < |s| ==> Joins(out, s[i])
  }

  lemma {:induction false} TokenClean(s: string, i: nat, out: string)
    requires i < |s| && NoBreakpoint(s)
    ensures var t := NextToken(s, i, out, Blanked);
            Clean(t.piece) && Ready(s, t.next, t.piece) && (t.piece[0] == s[i] || t.piece[0] == ' ')
    decreases |s|, 0, 0
  {
    var t := NextToken(s, i, out, Blanked);
    if s[i] == '\'' {
      var stop := LiteralStop(s, i + 1, OpensEscapeString(out));
      BlankClean(s[i..stop]);
      if OpensDoBody(out) {
        NoBreakpointSlice(s, i + 1, BodyEnd(i, stop));
        CleanFrom(Body(s, i, stop));
        FrameClean(s, i, stop, Reading(Body(s, i, stop), Blanked));
      }
    } else {
      BlankClean(s[i..t.next]);
    }
  }

  lemma FrameClean(s: string, i: nat, stop: nat, body: string)
    requires i < stop <= |s| && |body| == BodyEnd(i, stop) - i - 1 && Clean(body)
    ensures Clean(Frame(s, i, stop, body))
  {
    var close := BodyEnd(i, stop);
    BlankClean(s[i..i + 1]);
    BlankClean(s[close..stop]);
    CleanJoin(Blank(s[i..i + 1]), body);
    CleanJoin(Blank(s[i..i + 1]) + body, Blank(s[close..stop]));
  }

  lemma {:induction false} WalkClean(s: string, i: nat, out: string)
    requires i <= |s| && NoBreakpoint(s) && Clean(out) && Ready(s, i, out)
    ensures Clean(Walk(s, i, out, Blanked))
    decreases |s|, 1, |s| - i
  {
    if i < |s| {
      var t := NextToken(s, i, out, Blanked);
      TokenClean(s, i, out);
      CleanJoin(out, t.piece);
      WalkClean(s, t.next, out + t.piece);
    }
  }

  lemma {:induction false} CleanFrom(s: string)
    requires NoBreakpoint(s)
    ensures Clean(Reading(s, Blanked))
    decreases |s|, 2, 0
  {
    ReplaceIsIdentity(s);
    WalkClean(s, 0, "");
  }

  /** No quote, no `--` and no block-comment opener survives in the blanked reading. */
  lemma BlankedIsClean(sql: string)
    ensures Clean(Reading(sql, Blanked))
  {
    ReplaceLeavesNone(sql);
    WalkClean(ReplaceBreakpoints(sql), 0, "");
  }

  lemma {:induction false} WalkKeepsClean(s: string, i: nat, mode: Mode)
    requires i <= |s| && Clean(s)
    ensures Walk(s, i, s[..i], mode) == s
    decreases |s| - i
  {
    if i < |s| {
      assert s[..i] + [s[i]] == s[..i + 1];
      WalkKeepsClean(s, i + 1, mode);
    } else {
      assert s[..i] == s;
    }
  }

  /** Reading a blanked text again, in either mode, changes nothing. */
  lemma ReadingIdempotent(sql: string, mode: Mode)
    ensures Reading(Reading(sql, Blanked), mode) == Reading(sql, Blanked)
  {
    var r := Reading(sql, Blanked);
    BlankedIsClean(sql);
    forall i | 0 <= i <= |r| ensures !(BREAKPOINT <= r[i..]) {
      assert BREAKPOINT[0] == '-' == BREAKPOINT[1];
      assert i < |r| ==> !Pair(r, i, '-', '-');
    }
    ReplaceIsIdentity(r);
    assert r[..0] == "";
    WalkKeepsClean(r, 0, mode);
  }

  // ---------- code is kept ----------

  lemma CleanHasNoBreakpoint(s: string)
    requires Clean(s)
    ensures NoBreakpoint(s)
  {
    forall i | 0 <= i <= |s| ensures !(BREAKPOINT <= s[i..]) {
      assert BREAKPOINT[0] == '-' == BREAKPOINT[1];
      assert i < |s| ==> !Pair(s, i, '-', '-');
    }
  }

  /** Code without quotes and comments reads as itself. */
  lemma CodeIsKept(sql: string, mode: Mode)
    requires Clean(sql)
    ensures Reading(sql, mode) == sql
  {
    CleanHasNoBreakpoint(sql);
    ReplaceIsIdentity(sql);
    assert sql[..0] == "";
    WalkKeepsClean(sql, 0, mode);
  }

  // ---------- the loop of the source ----------

  lemma WalkStep(s: string, i: nat, out: string, mode: Mode)
    requires i < |s|
    ensures var t := NextToken(s, i, out, mode); Walk(s, i, out, mode) == Walk(s, t.next, out + t.piece, mode)
  {
  }

  /** One token read by the loop; a `DO '…'` body is read by a call to the walker itself. */
  method ReadToken(source: string, i: nat, out: string, keepLiterals: bool) returns (t: Token)
    requires i < |source|
    ensures t == NextToken(source, i, out, if keepLiterals then Literals else Blanked)
    decreases |source|, 0
  {
    if Pair(source, i, '-', '-') {
      var end := FindChar(source, i, '\n');
      return Token(end, Blank(source[i..end]));
    }
    if Pair(source, i, '/', '*') {
      var end := CommentEnd(source, i + 2);
      return Token(end, Blank(source[i..end]));
    }
    if source[i] == '\'' {
      var stop := LiteralStop(source, i + 1, OpensEscapeString(out));
      if keepLiterals { return Token(stop, Frame(source, i, stop, Body(source, i, stop))); }
      if OpensDoBody(out) {
        var body := Sanitize(Body(source, i, stop), false);
        return Token(stop, Frame(source, i, stop, body));
      }
      return Token(stop, Blank(source[i..stop]));
    }
    t := Token(i + 1, [source[i]]);
  }

  /** The walker as a loop over `out` and `i`. */
  method Sanitize(sql: string, keepLiterals: bool) returns (out: string)
    ensures out == Reading(sql, if keepLiterals then Literals else Blanked)
    decreases |sql|, 1
  {
    ghost var mode := if keepLiterals then Literals else Blanked;
    var source := ReplaceBreakpoints(sql);
    out := "";
    var i := 0;
    while i < |source|
      invariant i <= |source|
      invariant Walk(source, i, out, mode) == Walk(source, 0, "", mode)
      decreases |source| - i
    {
      var t := ReadToken(source, i, out, keepLiterals);
      WalkStep(source, i, out, mode);
      out, i := out + t.piece, t.next;
    }
  }
}
