/** The tokenizer of `sql_lexer.rs`: one scanning method a kind of token, and the loop
    that calls them. Octets are indexed, texts are slices of the source. */
module SqlLexer {
  import opened Utf8
  import opened LexSpec
  import opened LexPosition
  import opened Keywords

  // ---- loops that stay on one line or run to a terminator ------------------------

  method ScanNewline(s: seq<Byte>, start: nat, line: nat, col: nat) returns (pos: nat, line': nat, col': nat)
    requires start < |s| && IsLineEnd(s[start])
    ensures start < pos <= |s| && NewlineLex(s, start, pos) && s[pos - 1] < 0x80
    ensures Walk(Plain, s, start, pos, Position(line, col)) == Position(line', col')
  {
    pos := if s[start] == CR && start + 1 < |s| && s[start + 1] == LF then start + 2 else start + 1;
    assert Walk(Plain, s, start, start + 1, Position(line, col)) == Step(Plain, s, start, Position(line, col));
    line' := line + 1;
    col' := 1;
  }

  method ScanBlanks(s: seq<Byte>, start: nat, line: nat, col: nat) returns (pos: nat, col': nat)
    requires start < |s| && IsBlank(s[start])
    ensures start < pos && MaximalRun(s, start, pos, IsBlank)
    ensures Walk(Plain, s, start, pos, Position(line, col)) == Position(line, col')
  {
    pos, col' := start, col;
    while pos < |s| && IsBlank(s[pos])
      invariant start <= pos <= |s|
      invariant forall k :: start <= k < pos ==> IsBlank(s[k])
      invariant Walk(Plain, s, start, pos, Position(line, col)) == Position(line, col')
    {
      pos := pos + 1;
      col' := col' + 1;
    }
  }

  method ScanLineComment(s: seq<Byte>, start: nat, line: nat, col: nat) returns (pos: nat, col': nat)
    requires PairAt(s, start, MINUS, MINUS)
    ensures start < pos && MaximalRun(s, start, pos, InLine)
    ensures Walk(Plain, s, start, pos, Position(line, col)) == Position(line, col')
  {
    pos := start;
    while pos < |s| && s[pos] != LF && s[pos] != CR
      invariant start <= pos <= |s|
      invariant forall k :: start <= k < pos ==> InLine(s[k])
    {
      pos := pos + 1;
    }
    col' := col + (pos - start);
    WalkInLine(Plain, s, start, pos, Position(line, col));
  }

  /** One octet inside a comment, string or Jinja block, or a CR LF pair taken as one. */
  method PassOctet(s: seq<Byte>, start: nat, pos: nat, line: nat, col: nat, ghost p0: Position) returns (pos': nat, line': nat, col': nat)
    requires start <= pos < |s|
    requires Walk(Plain, s, start, pos, p0) == Position(line, col)
    ensures pos' == (if PairAt(s, pos, CR, LF) then pos + 2 else pos + 1)
    ensures Walk(Plain, s, start, pos', p0) == Position(line', col')
  {
    line', col' := line, col;
    if s[pos] == LF {
      line' := line' + 1;
      col' := 1;
      pos' := pos + 1;
    } else if s[pos] == CR {
      pos' := pos + 1;
      if pos' < |s| && s[pos'] == LF {
        assert Walk(Plain, s, start, pos', p0) == Position(line, col + 1);
        pos' := pos' + 1;
      }
      line' := line' + 1;
      col' := 1;
    } else {
      pos' := pos + 1;
      col' := col' + 1;
    }
  }

  /** One round of the comment loop: an opener, a closer, or anything else. */
  method PassPiece(s: seq<Byte>, start: nat, pos: nat, line: nat, col: nat, ghost p0: Position, depth: nat, ghost n: nat)
    returns (pos': nat, line': nat, col': nat, depth': nat, ghost n': nat)
    requires start + 2 <= pos < |s| && OpenThrough(s, start + 2, pos, n) && depth == DepthAfter(s, start + 2, n) > 0
    requires Walk(Plain, s, start, pos, p0) == Position(line, col)
    ensures pos < pos' <= |s| && OpenThrough(s, start + 2, pos', n') && depth' == DepthAfter(s, start + 2, n')
    ensures depth' == 0 ==> s[pos' - 1] < 0x80
    ensures Walk(Plain, s, start, pos', p0) == Position(line', col')
  {
    line', col', depth', n' := line, col, depth, n + 1;
    OneMorePiece(s, start + 2, pos, n);
    if PairAt(s, pos, SLASH, STAR) {
      WalkPair(s, start, pos, p0);
      depth' := depth + 1;
      pos' := pos + 2;
      col' := col + 2;
    } else if PairAt(s, pos, STAR, SLASH) {
      WalkPair(s, start, pos, p0);
      depth' := depth - 1;
      pos' := pos + 2;
      col' := col + 2;
    } else {
      if PairAt(s, pos, CR, LF) {
        OneMorePiece(s, start + 2, pos + 1, n + 1);
        n' := n + 2;
      }
      pos', line', col' := PassOctet(s, start, pos, line, col, p0);
    }
  }

  /** Nested block comments: openers and closers move the depth, line ends the position. */
  method ScanBlockComment(s: seq<Byte>, start: nat, line: nat, col: nat) returns (pos: nat, line': nat, col': nat)
    requires PairAt(s, start, SLASH, STAR)
    ensures start < pos <= |s| && CommentBody(s, start + 2, pos)
    ensures pos < |s| ==> s[pos - 1] < 0x80
    ensures Walk(Plain, s, start, pos, Position(line, col)) == Position(line', col')
  {
    pos, line', col' := start + 2, line, col + 2;
    WalkPair(s, start, start, Position(line, col));
    var depth: nat := 1;
    ghost var n: nat := 0;
    while pos < |s| && depth > 0
      invariant start + 2 <= pos <= |s|
      invariant OpenThrough(s, start + 2, pos, n)
      invariant depth == DepthAfter(s, start + 2, n)
      invariant depth == 0 ==> s[pos - 1] < 0x80
      invariant Walk(Plain, s, start, pos, Position(line, col)) == Position(line', col')
      decreases |s| - pos
    {
      pos, line', col', depth, n := PassPiece(s, start, pos, line', col', Position(line, col), depth, n);
    }
    assert BlockCommentEnds(s, start + 2, pos, n);
  }

  /** `{% ... %}` and `{# ... #}`: the mark says which closer is looked for. */
  method ScanJinjaBlock(s: seq<Byte>, start: nat, line: nat, col: nat, mark: Byte) returns (pos: nat, line': nat, col': nat)
    requires PairAt(s, start, LBRACE, mark) && (mark == PERCENT || mark == HASH)
    ensures start < pos <= |s| && ThroughPair(s, start + 2, pos, mark, RBRACE)
    ensures pos < |s| ==> s[pos - 1] < 0x80
    ensures Walk(Plain, s, start, pos, Position(line, col)) == Position(line', col')
  {
    pos, line', col' := start + 2, line, col + 2;
    WalkPair(s, start, start, Position(line, col));
    while pos < |s|
      invariant start + 2 <= pos <= |s|
      invariant forall k :: start + 2 <= k < pos ==> !PairAt(s, k, mark, RBRACE)
      invariant Walk(Plain, s, start, pos, Position(line, col)) == Position(line', col')
    {
      if s[pos] == mark && pos + 1 < |s| && s[pos + 1] == RBRACE {
        WalkPair(s, start, pos, Position(line, col));
        pos := pos + 2;
        col' := col' + 2;
        break;
      }
      pos, line', col' := PassOctet(s, start, pos, line', col', Position(line, col));
    }
  }

  /** Single-quoted strings, a doubled quote standing for one. */
  method ScanString(s: seq<Byte>, start: nat, line: nat, col: nat) returns (pos: nat, line': nat, col': nat)
    requires start < |s| && s[start] == QUOTE
    ensures start < pos <= |s| && StringLex(s, start, pos)
    ensures pos < |s| ==> s[pos - 1] < 0x80
    ensures Walk(Plain, s, start, pos, Position(line, col)) == Position(line', col')
  {
    pos, line', col' := start + 1, line, col + 1;
    while pos < |s|
      invariant start + 1 <= pos <= |s|
      invariant QuotesPaired(s, start + 1, pos)
      invariant Walk(Plain, s, start, pos, Position(line, col)) == Position(line', col')
    {
      if s[pos] == QUOTE {
        pos := pos + 1;
        col' := col' + 1;
        if pos < |s| && s[pos] == QUOTE {
          pos := pos + 1;
          col' := col' + 1;
          continue;
        }
        break;
      }
      assert QuotesPaired(s, start + 1, pos + 1);
      pos, line', col' := PassOctet(s, start, pos, line', col', Position(line, col));
    }
  }

  /** Back-quoted and double-quoted identifiers; only LF breaks the line here. */
  method ScanQuotedIdent(s: seq<Byte>, start: nat, line: nat, col: nat) returns (pos: nat, line': nat, col': nat)
    requires start < |s| && (s[start] == BACKTICK || s[start] == DOUBLE_QUOTE)
    ensures start < pos <= |s| && ThroughByte(s, start + 1, pos, s[start])
    ensures pos < |s| ==> s[pos - 1] < 0x80
    ensures Walk(Quoted, s, start, pos, Position(line, col)) == Position(line', col')
  {
    pos, line', col' := start + 1, line, col + 1;
    while pos < |s| && s[pos] != s[start]
      invariant start + 1 <= pos <= |s|
      invariant forall k :: start + 1 <= k < pos ==> s[k] != s[start]
      invariant Walk(Quoted, s, start, pos, Position(line, col)) == Position(line', col')
    {
      if s[pos] == LF {
        line' := line' + 1;
        col' := 1;
      } else {
        col' := col' + 1;
      }
      pos := pos + 1;
    }
    if pos < |s| {
      pos := pos + 1;
      col' := col' + 1;
    }
  }

  method ScanDigits(s: seq<Byte>, start: nat, line: nat, col: nat) returns (pos: nat, col': nat)
    requires start <= |s|
    ensures MaximalRun(s, start, pos, IsDigit)
    ensures Walk(Plain, s, start, pos, Position(line, col)) == Position(line, col')
  {
    pos, col' := start, col;
    while pos < |s| && IsDigit(s[pos])
      invariant start <= pos <= |s|
      invariant forall k :: start <= k < pos ==> IsDigit(s[k])
      invariant Walk(Plain, s, start, pos, Position(line, col)) == Position(line, col')
    {
      pos := pos + 1;
      col' := col' + 1;
    }
  }

  /** The decimal part, taken only when a digit follows the dot. */
  method ScanFraction(s: seq<Byte>, start: nat, line: nat, col: nat) returns (pos: nat, col': nat)
    requires start <= |s|
    ensures start <= pos <= |s| && FractionLex(s, start, pos)
    ensures start < pos ==> s[pos - 1] < 0x80
    ensures Walk(Plain, s, start, pos, Position(line, col)) == Position(line, col')
  {
    pos, col' := start, col;
    if pos < |s| && s[pos] == DOT && pos + 1 < |s| && IsDigit(s[pos + 1]) {
      pos, col' := ScanDigits(s, start + 1, line, col + 1);
      WalkJoin(Plain, s, start, start + 1, pos, Position(line, col));
    }
  }

  /** The exponent: its mark, a sign if there is one, and whatever digits follow. */
  method ScanExponent(s: seq<Byte>, start: nat, line: nat, col: nat) returns (pos: nat, col': nat)
    requires start <= |s|
    ensures start <= pos <= |s| && ExponentLex(s, start, pos)
    ensures start < pos ==> s[pos - 1] < 0x80
    ensures Walk(Plain, s, start, pos, Position(line, col)) == Position(line, col')
  {
    pos, col' := start, col;
    if pos < |s| && IsExponentMark(s[pos]) {
      pos, col' := pos + 1, col' + 1;
      if pos < |s| && IsSign(s[pos]) {
        WalkPair(s, start, start, Position(line, col));
        pos, col' := pos + 1, col' + 1;
      }
      var mark := pos;
      pos, col' := ScanDigits(s, mark, line, col');
      WalkJoin(Plain, s, start, mark, pos, Position(line, col));
    }
  }

  method ScanNumber(s: seq<Byte>, start: nat, line: nat, col: nat) returns (pos: nat, col': nat)
    requires start < |s| && IsDigit(s[start])
    ensures start < pos <= |s| && NumberLex(s, start, pos)
    ensures s[pos - 1] < 0x80
    ensures Walk(Plain, s, start, pos, Position(line, col)) == Position(line, col')
  {
    var a, colA := ScanDigits(s, start, line, col);
    var b, colB := ScanFraction(s, a, line, colA);
    pos, col' := ScanExponent(s, b, line, colB);
    WalkJoin(Plain, s, start, a, b, Position(line, col));
    WalkJoin(Plain, s, start, b, pos, Position(line, col));
    assert NumberParts(s, start, a, b, pos);
  }

  /** One character of a word: its whole width, one column. */
  method ScanChar(s: seq<Byte>, start: nat, pos: nat, line: nat, col: nat, ghost line1: nat, col1: nat) returns (pos': nat, col': nat)
    requires WellFormed(s) && start <= pos < |s| && IsBoundary(s, pos) && !IsLineEnd(s[pos])
    requires Walk(Word, s, start, pos, Position(line, col)) == Position(line1, col1)
    ensures pos < pos' && IsBoundary(s, pos') && forall k :: pos < k < pos' ==> IsContinuation(s[k])
    ensures Walk(Word, s, start, pos', Position(line, col)) == Position(line1, col')
  {
    NextBoundary(s, pos);
    WalkChar(s, start, pos, Position(line, col));
    pos' := pos + Width(s[pos]);
    col' := col1 + 1;
  }

  /** Identifiers and keywords, one character at a time. The first character is taken
      whatever it is, as long as its lead octet may start a word. */
  method ScanWord(s: seq<Byte>, start: nat, line: nat, col: nat, alnum: UnicodeTable) returns (pos: nat, col': nat)
    requires start < |s| && WellFormed(s) && StartsWord(s[start]) && IsBoundary(s, start)
    ensures WordLex(s, start, pos, alnum)
    ensures Walk(Word, s, start, pos, Position(line, col)) == Position(line, col')
  {
    pos, col' := ScanChar(s, start, start, line, col, line, col);
    while pos < |s| && ContinuesWord(s, pos, alnum)
      invariant start < pos <= |s| && IsBoundary(s, pos)
      invariant forall p :: start < p < pos && !IsContinuation(s[p]) ==> ContinuesWord(s, p, alnum)
      invariant Walk(Word, s, start, pos, Position(line, col)) == Position(line, col')
    {
      pos, col' := ScanChar(s, start, pos, line, col, line, col');
    }
  }

  // ---- one token --------------------------------------------------------------------

  /** The branch table of the main loop: which token starts at `start`, where it ends and
      where that leaves the position. */
  method ScanToken(s: seq<Byte>, start: nat, line: nat, col: nat, table: seq<string>, alnum: UnicodeTable)
    returns (kind: TokenKind, pos: nat, line': nat, col': nat)
    requires WellFormed(s) && start < |s| && IsBoundary(s, start) && Ascending(table)
    ensures Lexeme(s, start, kind, pos, KeywordSet(table), alnum)
    ensures IsBoundary(s, pos)
    ensures Walk(CountingOf(kind), s, start, pos, Position(line, col)) == Position(line', col')
  {
    var ch := s[start];
    line', col' := line, col;
    if ch == LF || ch == CR || ch == SPACE || ch == TAB || PairAt(s, start, MINUS, MINUS) || PairAt(s, start, SLASH, STAR) {
      kind, pos, line', col' := ScanTrivia(s, start, line, col);
    } else if StartsJinja(s, start) || ch == QUOTE || ch == BACKTICK || ch == DOUBLE_QUOTE {
      kind, pos, line', col' := ScanDelimited(s, start, line, col);
    } else if IsDigit(ch) {
      kind := NumberLiteral;
      pos, col' := ScanNumber(s, start, line, col);
      AfterAscii(s, pos - 1);
    } else if StartsWord(ch) {
      pos, col' := ScanWord(s, start, line, col, alnum);
      var isKeyword := IsKeyword(table, s[start..pos]);
      kind := if isKeyword then Keyword else Identifier;
    } else {
      kind, pos, col' := ScanSymbol(s, start, line, col);
    }
  }

  function KeywordSet(table: seq<string>): set<string> {
    set w | w in table
  }

  /** Newlines, blanks and comments. */
  method ScanTrivia(s: seq<Byte>, start: nat, line: nat, col: nat) returns (kind: TokenKind, pos: nat, line': nat, col': nat)
    requires WellFormed(s) && start < |s|
    requires IsLineEnd(s[start]) || IsBlank(s[start]) || StartsComment(s, start)
    ensures forall words, alnum :: Lexeme(s, start, kind, pos, words, alnum)
    ensures CountingOf(kind) == Plain && IsBoundary(s, pos)
    ensures Walk(Plain, s, start, pos, Position(line, col)) == Position(line', col')
  {
    var ch := s[start];
    line', col' := line, col;
    if ch == LF || ch == CR {
      kind := Newline;
      pos, line', col' := ScanNewline(s, start, line, col);
    } else if IsBlank(ch) {
      kind := Whitespace;
      pos, col' := ScanBlanks(s, start, line, col);
    } else if PairAt(s, start, MINUS, MINUS) {
      kind := LineComment;
      pos, col' := ScanLineComment(s, start, line, col);
    } else {
      kind := BlockComment;
      pos, line', col' := ScanBlockComment(s, start, line, col);
    }
    if pos < |s| && kind != LineComment { AfterAscii(s, pos - 1); }
  }

  /** Jinja marks and blocks, strings and quoted identifiers. */
  method ScanDelimited(s: seq<Byte>, start: nat, line: nat, col: nat) returns (kind: TokenKind, pos: nat, line': nat, col': nat)
    requires WellFormed(s) && start < |s|
    requires StartsJinja(s, start) || s[start] == QUOTE || s[start] == BACKTICK || s[start] == DOUBLE_QUOTE
    ensures forall words, alnum :: Lexeme(s, start, kind, pos, words, alnum)
    ensures IsBoundary(s, pos)
    ensures Walk(CountingOf(kind), s, start, pos, Position(line, col)) == Position(line', col')
  {
    var ch := s[start];
    line', col' := line, col;
    if PairAt(s, start, LBRACE, LBRACE) || PairAt(s, start, RBRACE, RBRACE) {
      kind := if ch == LBRACE then JinjaOpen else JinjaClose;
      pos := start + 2;
      col' := col + 2;
      WalkInLine(Plain, s, start, pos, Position(line, col));
    } else if PairAt(s, start, LBRACE, PERCENT) || PairAt(s, start, LBRACE, HASH) {
      kind := JinjaBlock;
      pos, line', col' := ScanJinjaBlock(s, start, line, col, s[start + 1]);
    } else if ch == QUOTE {
      kind := StringLiteral;
      pos, line', col' := ScanString(s, start, line, col);
    } else {
      kind := QuotedIdent;
      pos, line', col' := ScanQuotedIdent(s, start, line, col);
    }
    if pos < |s| { AfterAscii(s, pos - 1); }
  }

  /** Punctuation, operators, and the octets that are nothing else. */
  method ScanSymbol(s: seq<Byte>, start: nat, line: nat, col: nat) returns (kind: TokenKind, pos: nat, col': nat)
    requires WellFormed(s) && start < |s|
    requires !IsLineEnd(s[start]) && !IsBlank(s[start]) && !StartsComment(s, start) && !StartsJinja(s, start)
    requires s[start] != QUOTE && s[start] != BACKTICK && s[start] != DOUBLE_QUOTE
    requires !IsDigit(s[start]) && !StartsWord(s[start])
    ensures forall words, alnum :: Lexeme(s, start, kind, pos, words, alnum)
    ensures CountingOf(kind) == Plain && IsBoundary(s, pos)
    ensures Walk(Plain, s, start, pos, Position(line, col)) == Position(line, col')
  {
    var ch := s[start];
    pos, col' := start + 1, col + 1;
    if ch == LPAREN {
      kind := LeftParen;
    } else if ch == RPAREN {
      kind := RightParen;
    } else if ch == COMMA {
      kind := Comma;
    } else if ch == SEMICOLON {
      kind := Semicolon;
    } else if ch == DOT {
      kind := Dot;
    } else if ch == LESS {
      kind := Operator;
      if pos < |s| && (s[pos] == GREATER || s[pos] == EQUALS) {
        pos, col' := pos + 1, col' + 1;
      }
    } else if ch == GREATER {
      kind := Operator;
      if pos < |s| && s[pos] == EQUALS {
        pos, col' := pos + 1, col' + 1;
      }
    } else if PairAt(s, start, BANG, EQUALS) {
      kind := Operator;
      pos, col' := pos + 1, col' + 1;
    } else if ch == EQUALS || ch == PLUS || ch == MINUS || ch == STAR || ch == SLASH || ch == PERCENT {
      kind := Operator;
    } else {
      kind := Unknown;
    }
    AfterAscii(s, pos - 1);
    WalkInLine(Plain, s, start, pos, Position(line, col));
  }

  // ---- the whole source ----------------------------------------------------------------

  datatype Token = Token(kind: TokenKind, text: seq<Byte>, offset: nat, line: nat, column: nat)

  function EndOf(t: Token): nat {
    t.offset + |t.text|
  }

  /** t is the token the lexical rules put at its offset, and its text is a safe slice. */
  ghost predicate TokenOf(s: seq<Byte>, t: Token, words: set<string>, alnum: UnicodeTable) {
    && Lexeme(s, t.offset, t.kind, EndOf(t), words, alnum)
    && IsBoundary(s, t.offset) && IsBoundary(s, EndOf(t))
    && t.text == s[t.offset..EndOf(t)]
  }

  /** The position after t, by t's own way of counting. */
  ghost function PositionAfter(s: seq<Byte>, t: Token): Position
    requires EndOf(t) <= |s|
  {
    Walk(CountingOf(t.kind), s, t.offset, EndOf(t), Position(t.line, t.column))
  }

  /** Token n starts where token n - 1 ends, in offset and in position. */
  ghost predicate Follows(s: seq<Byte>, ts: seq<Token>, n: nat)
    requires 0 < n < |ts|
  {
    var t, u := ts[n - 1], ts[n];
    u.offset == EndOf(t) <= |s| && Position(u.line, u.column) == PositionAfter(s, t)
  }

  /** The tokens cover s from the start up to `end`, each in its place. */
  ghost predicate TokensUpTo(s: seq<Byte>, ts: seq<Token>, end: nat, words: set<string>, alnum: UnicodeTable) {
    && (forall n {:trigger TokenOf(s, ts[n], words, alnum)} :: 0 <= n < |ts| ==> TokenOf(s, ts[n], words, alnum))
    && (forall n {:trigger Follows(s, ts, n)} :: 0 < n < |ts| ==> Follows(s, ts, n))
    && (ts == [] ==> end == 0)
    && (ts != [] ==> ts[0].offset == 0 && ts[0].line == 1 && ts[0].column == 1 && end == EndOf(ts[|ts| - 1]))
  }

  ghost predicate Tokenization(s: seq<Byte>, ts: seq<Token>, words: set<string>, alnum: UnicodeTable) {
    TokensUpTo(s, ts, |s|, words, alnum)
  }

  /** The state of the main loop: the tokens so far, and where the next one starts. */
  ghost predicate Progress(s: seq<Byte>, ts: seq<Token>, pos: nat, here: Position, words: set<string>, alnum: UnicodeTable) {
    && IsBoundary(s, pos)
    && TokensUpTo(s, ts, pos, words, alnum)
    && (ts == [] ==> here == Position(1, 1))
    && (ts != [] ==> EndOf(ts[|ts| - 1]) <= |s| && here == PositionAfter(s, ts[|ts| - 1]))
  }

  lemma OneMoreToken(s: seq<Byte>, ts: seq<Token>, t: Token, words: set<string>, alnum: UnicodeTable)
    requires Progress(s, ts, t.offset, Position(t.line, t.column), words, alnum)
    requires Lexeme(s, t.offset, t.kind, EndOf(t), words, alnum) && IsBoundary(s, EndOf(t)) && t.text == s[t.offset..EndOf(t)]
    ensures Progress(s, ts + [t], EndOf(t), PositionAfter(s, t), words, alnum)
  {
    var us := ts + [t];
    assert TokenOf(s, t, words, alnum);
    forall n | 0 <= n < |us| ensures TokenOf(s, us[n], words, alnum) {
      if n < |ts| { assert us[n] == ts[n] && TokenOf(s, ts[n], words, alnum); }
    }
    forall n | 0 < n < |us| ensures Follows(s, us, n) {
      if n < |ts| { assert us[n] == ts[n] && us[n - 1] == ts[n - 1] && Follows(s, ts, n); }
    }
  }

  method Tokenize(s: seq<Byte>, table: seq<string>, alnum: UnicodeTable) returns (tokens: seq<Token>)
    requires ValidUtf8(s) && Ascending(table)
    ensures Tokenization(s, tokens, KeywordSet(table), alnum)
  {
    ValidIffWellFormed(s);
    tokens := [];
    var pos, line, col := 0, 1, 1;
    while pos < |s|
      invariant Progress(s, tokens, pos, Position(line, col), KeywordSet(table), alnum)
      decreases |s| - pos
    {
      var kind, pos', line', col' := ScanToken(s, pos, line, col, table, alnum);
      var token := Token(kind, s[pos..pos'], pos, line, col);
      OneMoreToken(s, tokens, token, KeywordSet(table), alnum);
      tokens := tokens + [token];
      pos, line, col := pos', line', col';
    }
  }
}
