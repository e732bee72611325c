/** What the SQL reader shows, place by place. */
module SqlPlaces {
  import opened Orders
  import opened SqlReader
  import opened Texts

  // ---------- what stands at a place ----------

  /** Between two characters: in code, in a comment, or in the literal that opens at `open`. */
  datatype Scan =
    | InCode
    | InLine
    | BlockStar    // before the `*` that opens a block comment
    | InBlock
    | BlockSlash   // before the `/` that closes one
    | InLiteral(open: nat, escapes: bool)
    | SecondOf(open: nat, escapes: bool)   // after a backslash, or the first quote of two

  /** What a character is: a delimiter of a literal is its quotes, or its last character when it has no closing one. */
  datatype Kind = Code | Comment | Delimiter | Inside(open: nat)

  datatype Move = Move(kind: Kind, goes: Scan)

  /** One character read. Whether a backslash escapes is decided by what `r`, the reading, shows before the literal. */
  function Next(s: string, r: string, i: nat, at: Scan): Move
    requires i < |s| == |r|
  {
    match at
    case InCode =>
      if Pair(s, i, '-', '-') then Move(Comment, InLine)
      else if Pair(s, i, '/', '*') then Move(Comment, BlockStar)
      else if s[i] == '\'' then Move(Delimiter, InLiteral(i, OpensEscapeString(r[..i])))
      else Move(Code, InCode)
    case InLine => if s[i] == '\n' then Move(Code, InCode) else Move(Comment, InLine)
    case BlockStar => Move(Comment, InBlock)
    case InBlock => Move(Comment, if Pair(s, i, '*', '/') then BlockSlash else InBlock)
    case BlockSlash => Move(Comment, InCode)
    case InLiteral(open, escapes) =>
      if i == |s| - 1 then Move(Delimiter, InCode)
      else if (escapes && s[i] == '\\') || Pair(s, i, '\'', '\'') then Move(Inside(open), SecondOf(open, escapes))
      else if s[i] == '\'' then Move(Delimiter, InCode)
      else Move(Inside(open), at)
    case SecondOf(open, escapes) =>
      if i == |s| - 1 then Move(Delimiter, InCode) else Move(Inside(open), InLiteral(open, escapes))
  }

  function ScanAt(s: string, r: string, i: nat): Scan
    requires i <= |s| == |r|
  {
    if i == 0 then InCode else Next(s, r, i - 1, ScanAt(s, r, i - 1)).goes
  }

  function KindAt(s: string, r: string, i: nat): Kind
    requires i < |s| == |r|
  {
    Next(s, r, i, ScanAt(s, r, i)).kind
  }

  /** The literal that opens at `open` ends with the delimiter at `close`. */
  ghost predicate Closes(s: string, r: string, open: nat, close: nat) {
    && open < close < |s| == |r|
    && (forall k :: open < k < close ==> KindAt(s, r, k) == Inside(open))
    && KindAt(s, r, close) == Delimiter
  }

  // ---------- what the reading shows there ----------

  /** Code shows, comments and delimiters are blank, and a literal is what the mode makes of it. */
  ghost predicate Shows(s: string, r: string, mode: Mode, k: nat)
    requires k < |s| == |r|
  {
    ShowsAs(s, r, mode, k, KindAt(s, r, k))
  }

  ghost predicate ShowsAs(s: string, r: string, mode: Mode, k: nat, kind: Kind)
    requires k < |s| == |r|
  {
    match kind
    case Code => r[k] == s[k]
    case Comment => r[k] == BlankChar(s[k])
    case Delimiter => r[k] == BlankChar(s[k])
    case Inside(open) =>
      open < k &&
      if mode.Literals? then r[k] == s[k]
      else if !OpensDoBody(r[..open]) then r[k] == BlankChar(s[k])
      else ShowsBody(s, r, open, k)
  }

  /** Behind `open` the blanked reading of the code of a `DO` block is shown. */
  ghost predicate ShowsBody(s: string, r: string, open: nat, k: nat) {
    exists close :: k < close && ReadsBody(s, r, open, close)
  }

  ghost predicate ReadsBody(s: string, r: string, open: nat, close: nat) {
    Closes(s, r, open, close) && r[open + 1..close] == Reading(s[open + 1..close], Blanked)
  }

  ghost predicate ShowsAll(s: string, r: string, mode: Mode) {
    |s| == |r| && forall k :: 0 <= k < |s| ==> Shows(s, r, mode, k)
  }

  /** A token of code can start here: a line comment ends before its line break. */
  predicate CodeAt(s: string, r: string, i: nat)
    requires i <= |s| == |r|
  {
    i < |s| ==> ScanAt(s, r, i) == InCode || (ScanAt(s, r, i) == InLine && s[i] == '\n')
  }

  ghost predicate ShowsFrom(s: string, r: string, mode: Mode, i: nat, j: nat)
    requires i <= j <= |s| == |r|
  {
    (forall k :: i <= k < j ==> Shows(s, r, mode, k)) && CodeAt(s, r, j)
  }

  lemma {:induction false} LineScanned(s: string, r: string, i: nat, j: nat)
    requires i <= j <= |s| == |r| && ScanAt(s, r, i) == InLine && forall k :: i <= k < j ==> s[k] != '\n'
    ensures ScanAt(s, r, j) == InLine && forall k :: i <= k < j ==> KindAt(s, r, k) == Comment
  {
    if i < j { LineScanned(s, r, i, j - 1); }
  }

  lemma {:induction false} BlockScanned(s: string, r: string, i: nat)
    requires i <= |s| == |r| && ScanAt(s, r, i) == InBlock
    ensures var end := CommentEnd(s, i);
            && (forall k :: i <= k < end ==> KindAt(s, r, k) == Comment)
            && (end < |s| ==> ScanAt(s, r, end) == InCode)
    decreases |s| - i
  {
    if i < |s| {
      if Pair(s, i, '*', '/') {
        assert ScanAt(s, r, i + 1) == BlockSlash;
        assert ScanAt(s, r, i + 2) == InCode;
      } else {
        BlockScanned(s, r, i + 1);
      }
    }
  }

  /** An escaped pair inside a literal, more than a character before the end of the text. */
  lemma PairScanned(s: string, r: string, i: nat, open: nat, escapes: bool)
    requires i + 1 < |s| == |r| && ScanAt(s, r, i) == InLiteral(open, escapes)
    requires (escapes && s[i] == '\\') || Pair(s, i, '\'', '\'')
    ensures KindAt(s, r, i) == Inside(open)
    ensures if i + 2 < |s| then KindAt(s, r, i + 1) == Inside(open) && ScanAt(s, r, i + 2) == InLiteral(open, escapes)
            else KindAt(s, r, i + 1) == Delimiter
  {
    assert ScanAt(s, r, i + 1) == SecondOf(open, escapes);
  }

  ghost predicate ClosesAt(s: string, r: string, i: nat, open: nat, stop: nat)
    requires i <= stop <= |s| == |r|
  {
    && (forall k :: i <= k < stop - 1 ==> KindAt(s, r, k) == Inside(open))
    && (i < stop ==> KindAt(s, r, stop - 1) == Delimiter && (stop < |s| ==> ScanAt(s, r, stop) == InCode))
  }

  /** A literal read on by one character that is no part of a pair. */
  lemma LiteralOn(s: string, r: string, i: nat, open: nat, escapes: bool)
    requires i < |s| == |r| && ScanAt(s, r, i) == InLiteral(open, escapes)
    requires !(escapes && s[i] == '\\') && !Pair(s, i, '\'', '\'')
    ensures if i == |s| - 1 || s[i] == '\'' then KindAt(s, r, i) == Delimiter && ScanAt(s, r, i + 1) == InCode
            else KindAt(s, r, i) == Inside(open) && ScanAt(s, r, i + 1) == InLiteral(open, escapes)
  {
  }

  lemma LastScanned(s: string, r: string, open: nat, escapes: bool)
    requires |s| == |r| > 0 && ScanAt(s, r, |s| - 1) == InLiteral(open, escapes)
    ensures KindAt(s, r, |s| - 1) == Delimiter && LiteralStop(s, |s| - 1, escapes) == |s|
  {
  }

  /** Two characters of a pair, then the rest. */
  lemma PairThen(s: string, r: string, i: nat, open: nat, escapes: bool)
    requires i + 1 < |s| == |r| && ScanAt(s, r, i) == InLiteral(open, escapes)
    requires (escapes && s[i] == '\\') || Pair(s, i, '\'', '\'')
    requires i + 2 < |s| ==> ClosesAt(s, r, i + 2, open, LiteralStop(s, i + 2, escapes))
    ensures ClosesAt(s, r, i, open, LiteralStop(s, i, escapes))
  {
    PairScanned(s, r, i, open, escapes);
    assert LiteralStop(s, i, escapes) == LiteralStop(s, i + 2, escapes);
  }

  /** One other character, then the rest. */
  lemma OneThen(s: string, r: string, i: nat, open: nat, escapes: bool)
    requires i + 1 < |s| == |r| && ScanAt(s, r, i) == InLiteral(open, escapes)
    requires !(escapes && s[i] == '\\') && !Pair(s, i, '\'', '\'')
    requires s[i] != '\'' ==> ClosesAt(s, r, i + 1, open, LiteralStop(s, i + 1, escapes))
    ensures ClosesAt(s, r, i, open, LiteralStop(s, i, escapes))
  {
    LiteralOn(s, r, i, open, escapes);
  }

  lemma {:induction false} LiteralScanned(s: string, r: string, i: nat, open: nat, escapes: bool)
    requires i <= |s| == |r| && ScanAt(s, r, i) == InLiteral(open, escapes)
    ensures ClosesAt(s, r, i, open, LiteralStop(s, i, escapes))
    decreases |s| - i
  {
    if i == |s| - 1 {
      LastScanned(s, r, open, escapes);
    } else if i < |s| && ((escapes && s[i] == '\\') || Pair(s, i, '\'', '\'')) {
      PairScanned(s, r, i, open, escapes);
      if i + 2 < |s| { LiteralScanned(s, r, i + 2, open, escapes); }
      PairThen(s, r, i, open, escapes);
    } else if i < |s| {
      LiteralOn(s, r, i, open, escapes);
      if s[i] != '\'' { LiteralScanned(s, r, i + 1, open, escapes); }
      OneThen(s, r, i, open, escapes);
    }
  }

  lemma CommentScanned(s: string, i: nat, out: string, mode: Mode, r: string)
    requires i < |s| == |r| && CodeAt(s, r, i)
    requires Pair(s, i, '-', '-') || Pair(s, i, '/', '*')
    ensures var end := NextToken(s, i, out, mode).next;
            CodeAt(s, r, end) && forall k :: i <= k < end ==> KindAt(s, r, k) == Comment
  {
    if Pair(s, i, '-', '-') {
      assert ScanAt(s, r, i + 1) == InLine;
      LineScanned(s, r, i + 1, FindChar(s, i, '\n'));
    } else {
      assert ScanAt(s, r, i + 1) == BlockStar && ScanAt(s, r, i + 2) == InBlock;
      BlockScanned(s, r, i + 2);
    }
  }

  lemma CommentShows(s: string, i: nat, out: string, mode: Mode, r: string)
    requires i < |s| == |r| && CodeAt(s, r, i)
    requires Pair(s, i, '-', '-') || Pair(s, i, '/', '*')
    requires var t := NextToken(s, i, out, mode); r[i..t.next] == t.piece
    ensures ShowsFrom(s, r, mode, i, NextToken(s, i, out, mode).next)
  {
    var t := NextToken(s, i, out, mode);
    CommentScanned(s, i, out, mode, r);
    assert forall k :: i <= k < t.next ==> r[k] == t.piece[k - i] == BlankChar(s[k]);
  }

  lemma LiteralIs(s: string, i: nat, stop: nat, r: string)
    requires i < |s| == |r| && CodeAt(s, r, i) && s[i] == '\''
    requires stop == LiteralStop(s, i + 1, OpensEscapeString(r[..i]))
    ensures i < stop && KindAt(s, r, i) == KindAt(s, r, stop - 1) == Delimiter && CodeAt(s, r, stop)
    ensures stop > i + 1 ==> Closes(s, r, i, stop - 1)
  {
    assert ScanAt(s, r, i + 1) == InLiteral(i, OpensEscapeString(r[..i]));
    LiteralScanned(s, r, i + 1, i, OpensEscapeString(r[..i]));
  }

  /** What a literal reads as. */
  function LiteralPiece(s: string, i: nat, stop: nat, out: string, mode: Mode): (piece: string)
    requires i < stop <= |s|
    ensures |piece| == stop - i
  {
    if mode.Literals? then Frame(s, i, stop, Body(s, i, stop))
    else if OpensDoBody(out) then Frame(s, i, stop, Reading(Body(s, i, stop), mode))
    else Blank(s[i..stop])
  }

  lemma LiteralToken(s: string, i: nat, out: string, mode: Mode)
    requires i < |s| && s[i] == '\''
    ensures var stop := LiteralStop(s, i + 1, OpensEscapeString(out));
            i < stop && NextToken(s, i, out, mode) == Token(stop, LiteralPiece(s, i, stop, out, mode))
  {
  }

  lemma InsideShows(s: string, i: nat, k: nat, close: nat, mode: Mode, r: string)
    requires i < k < close < |s| == |r| && Closes(s, r, i, close)
    requires r[i..close + 1] == LiteralPiece(s, i, close + 1, r[..i], mode)
    ensures Shows(s, r, mode, k)
  {
    var piece := LiteralPiece(s, i, close + 1, r[..i], mode);
    assert BodyEnd(i, close + 1) == close && KindAt(s, r, k) == Inside(i);
    assert forall j :: i <= j <= close ==> r[j] == piece[j - i];
    if mode.Blanked? && OpensDoBody(r[..i]) {
      assert r[i + 1..close] == Reading(Body(s, i, close + 1), mode);
      assert ReadsBody(s, r, i, close);
    }
  }

  lemma DelimitersShow(s: string, i: nat, stop: nat, mode: Mode, r: string)
    requires i < stop <= |s| == |r| && r[i..stop] == LiteralPiece(s, i, stop, r[..i], mode)
    ensures r[i] == BlankChar(s[i]) && r[stop - 1] == BlankChar(s[stop - 1])
  {
    var piece := LiteralPiece(s, i, stop, r[..i], mode);
    assert r[i] == piece[0] && r[stop - 1] == piece[stop - 1 - i];
  }

  /** The token a literal is, and what the reading makes of it. */
  lemma LiteralShows(s: string, i: nat, stop: nat, mode: Mode, r: string)
    requires i < stop <= |s| == |r| && r[i..stop] == LiteralPiece(s, i, stop, r[..i], mode)
    requires KindAt(s, r, i) == KindAt(s, r, stop - 1) == Delimiter && (stop > i + 1 ==> Closes(s, r, i, stop - 1))
    ensures forall k :: i <= k < stop ==> Shows(s, r, mode, k)
  {
    DelimitersShow(s, i, stop, mode, r);
    forall k | i <= k < stop ensures Shows(s, r, mode, k) {
      if k == i || k == stop - 1 { DelimiterShows(s, r, mode, k); } else { InsideShows(s, i, k, stop - 1, mode, r); }
    }
  }

  lemma DelimiterShows(s: string, r: string, mode: Mode, k: nat)
    requires k < |s| == |r| && KindAt(s, r, k) == Delimiter && r[k] == BlankChar(s[k])
    ensures Shows(s, r, mode, k)
  {
  }

  lemma TokenShows(s: string, i: nat, out: string, mode: Mode, r: string)
    requires i < |s| == |r| && CodeAt(s, r, i) && out == r[..i]
    requires var t := NextToken(s, i, out, mode); r[i..t.next] == t.piece
    ensures ShowsFrom(s, r, mode, i, NextToken(s, i, out, mode).next)
  {
    if Pair(s, i, '-', '-') || Pair(s, i, '/', '*') {
      CommentShows(s, i, out, mode, r);
    } else if s[i] == '\'' {
      var stop := LiteralStop(s, i + 1, OpensEscapeString(out));
      LiteralToken(s, i, out, mode);
      LiteralIs(s, i, stop, r);
      LiteralShows(s, i, stop, mode, r);
    } else {
      assert r[i] == r[i..i + 1][0];
      assert ScanAt(s, r, i + 1) == InCode;
    }
  }

  lemma {:induction false} WalkBegins(s: string, i: nat, out: string, mode: Mode)
    requires i <= |s| && |out| == i
    ensures Walk(s, i, out, mode)[..i] == out
    decreases |s| - i
  {
    if i < |s| {
      var t := NextToken(s, i, out, mode);
      WalkStep(s, i, out, mode);
      WalkBegins(s, t.next, out + t.piece, mode);
      assert Walk(s, i, out, mode)[..i] == Walk(s, i, out, mode)[..t.next][..i];
    }
  }

  lemma {:induction false} WalkShows(s: string, i: nat, out: string, mode: Mode, r: string)
    requires i <= |s| == |r| && r == Walk(s, i, out, mode) && |out| == i && CodeAt(s, r, i)
    ensures ShowsFrom(s, r, mode, i, |s|)
    decreases |s| - i
  {
    if i < |s| {
      var t := NextToken(s, i, out, mode);
      WalkStep(s, i, out, mode);
      WalkBegins(s, i, out, mode);
      WalkBegins(s, t.next, out + t.piece, mode);
      assert r[i..t.next] == r[..t.next][i..] == t.piece;
      TokenShows(s, i, out, mode, r);
      WalkShows(s, t.next, out + t.piece, mode, r);
    }
  }

  /**
    At every place of every text, breakpoints replaced: code shows as it stands, comments and the quotes
    of literals are blank, and the inside of a literal is shown in the one mode; in the other it is the
    reading of the code of a `DO` block, and blank otherwise.
   */
  lemma ReadingShowsExactly(sql: string, mode: Mode, k: nat)
    requires k < |sql|
    ensures Shows(ReplaceBreakpoints(sql), Reading(sql, mode), mode, k)
  {
    WalkShows(ReplaceBreakpoints(sql), 0, "", mode, Reading(sql, mode));
  }

  // ---------- and nothing else is such a reading ----------

  lemma {:induction false} ScanDepends(s: string, r: string, q: string, i: nat)
    requires i <= |s| == |r| == |q| && forall k :: 0 <= k < i ==> r[k] == q[k]
    ensures ScanAt(s, r, i) == ScanAt(s, q, i)
  {
    if i > 0 {
      ScanDepends(s, r, q, i - 1);
      assert r[..i - 1] == q[..i - 1];
    }
  }

  /** Inside a literal the scan goes by the text alone. */
  lemma {:induction false} LiteralDepends(s: string, r: string, q: string, i: nat, j: nat, open: nat)
    requires i <= j < |s| == |r| == |q| && ScanAt(s, r, i) == ScanAt(s, q, i)
    requires forall k :: i <= k < j ==> KindAt(s, r, k) == Inside(open)
    ensures ScanAt(s, r, j) == ScanAt(s, q, j) && KindAt(s, r, j) == KindAt(s, q, j)
  {
    if i < j { LiteralDepends(s, r, q, i, j - 1, open); }
  }

  lemma SameClose(s: string, r: string, q: string, open: nat, k: nat, c: nat, d: nat)
    requires |s| == |r| == |q| && k < |s| && ScanAt(s, r, k) == ScanAt(s, q, k)
    requires Closes(s, r, open, c) && Closes(s, q, open, d) && open < k < c && k < d
    ensures c == d
  {
    LiteralDepends(s, r, q, k, if c < d then c else d, open);
  }

  lemma SameBody(s: string, r: string, q: string, open: nat, k: nat)
    requires |s| == |r| == |q| && open < k < |s| && ScanAt(s, r, k) == ScanAt(s, q, k)
    requires ShowsBody(s, r, open, k) && ShowsBody(s, q, open, k)
    ensures r[k] == q[k]
  {
    var c :| k < c && ReadsBody(s, r, open, c);
    var d :| k < d && ReadsBody(s, q, open, d);
    SameClose(s, r, q, open, k, c, d);
    SameInSlice(r, q, open + 1, c, k, Reading(s[open + 1..c], Blanked));
  }

  lemma SameInSlice(r: string, q: string, i: nat, j: nat, k: nat, body: string)
    requires i <= k < j <= |r| == |q| && r[i..j] == body == q[i..j]
    ensures r[k] == q[k]
  {
    assert r[k] == body[k - i] == q[k];
  }

  lemma InsideOnce(s: string, r: string, q: string, mode: Mode, k: nat, open: nat)
    requires k < |s| == |r| == |q| && (forall j :: 0 <= j < k ==> r[j] == q[j]) && ScanAt(s, r, k) == ScanAt(s, q, k)
    requires ShowsAs(s, r, mode, k, Inside(open)) && ShowsAs(s, q, mode, k, Inside(open))
    ensures r[k] == q[k]
  {
    if mode.Blanked? {
      assert open < k && r[..open] == q[..open];
      if OpensDoBody(r[..open]) { SameBody(s, r, q, open, k); }
    }
  }

  lemma ShowsOnce(s: string, r: string, q: string, mode: Mode, k: nat, kind: Kind)
    requires k < |s| == |r| == |q| && (forall j :: 0 <= j < k ==> r[j] == q[j]) && ScanAt(s, r, k) == ScanAt(s, q, k)
    requires ShowsAs(s, r, mode, k, kind) && ShowsAs(s, q, mode, k, kind)
    ensures r[k] == q[k]
  {
    match kind {
      case Inside(open) => InsideOnce(s, r, q, mode, k, open);
      case _ =>
    }
  }

  /** What shows the text as a reading has to, up to a place, shows the same there. */
  lemma ShownOnce(s: string, r: string, q: string, mode: Mode, k: nat)
    requires k < |s| == |r| == |q| && forall j :: 0 <= j < k ==> r[j] == q[j]
    requires Shows(s, r, mode, k) && Shows(s, q, mode, k)
    ensures r[k] == q[k]
  {
    ScanDepends(s, r, q, k);
    KindDepends(s, r, q, k);
    ShowsOnce(s, r, q, mode, k, KindAt(s, r, k));
  }

  lemma KindDepends(s: string, r: string, q: string, k: nat)
    requires k < |s| == |r| == |q| && ScanAt(s, r, k) == ScanAt(s, q, k)
    ensures KindAt(s, r, k) == KindAt(s, q, k)
  {
  }

  lemma {:induction false} ShownAlike(s: string, r: string, q: string, mode: Mode, n: nat)
    requires ShowsAll(s, r, mode) && ShowsAll(s, q, mode) && n <= |s|
    ensures forall k :: 0 <= k < n ==> r[k] == q[k]
  {
    if n > 0 {
      ShownAlike(s, r, q, mode, n - 1);
      ShownOnce(s, r, q, mode, n - 1);
    }
  }

  /** So the reading of a text is the one text of its length that shows exactly that. */
  lemma OnlyReadingShows(sql: string, mode: Mode, r: string)
    ensures ShowsAll(ReplaceBreakpoints(sql), r, mode) <==> r == Reading(sql, mode)
  {
    var s, reading := ReplaceBreakpoints(sql), Reading(sql, mode);
    forall k | 0 <= k < |s| ensures Shows(s, reading, mode, k) { ReadingShowsExactly(sql, mode, k); }
    assert ShowsAll(s, reading, mode);
    if ShowsAll(s, r, mode) {
      ShownAlike(s, r, reading, mode, |s|);
      assert r == reading;
    }
  }

  /** A literal anywhere in a text, from quote to quote. */
  lemma LiteralReading(sql: string, mode: Mode, open: nat, close: nat)
    requires Closes(ReplaceBreakpoints(sql), Reading(sql, mode), open, close)
    ensures var body := ReplaceBreakpoints(sql)[open + 1..close]; var r := Reading(sql, mode);
            r[open + 1..close]
            == if mode.Literals? then body else if OpensDoBody(r[..open]) then Reading(body, Blanked) else Blank(body)
  {
    var s, r := ReplaceBreakpoints(sql), Reading(sql, mode);
    forall k | open < k < close
      ensures Shows(s, r, mode, k)
      ensures mode.Literals? ==> r[k] == s[k]
      ensures mode.Blanked? && !OpensDoBody(r[..open]) ==> r[k] == BlankChar(s[k])
    {
      ReadingShowsExactly(sql, mode, k);
      assert KindAt(s, r, k) == Inside(open);
    }
    var body := s[open + 1..close];
    if mode.Literals? {
      assert r[open + 1..close] == body;
    } else if !OpensDoBody(r[..open]) {
      assert r[open + 1..close] == Blank(body);
    } else if open + 1 < close {
      assert KindAt(s, r, open + 1) == Inside(open) && Shows(s, r, mode, open + 1);
      var c :| open + 1 < c && ReadsBody(s, r, open, c);
      SameClose(s, r, r, open, open + 1, c, close);
    } else {
      assert body == "" == r[open + 1..close];
      assert |Reading(body, Blanked)| == 0;
    }
  }
}
