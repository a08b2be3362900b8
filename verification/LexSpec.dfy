/** What the SQL lexer's tokens are, said without scanning: for each kind, a predicate
    on the source and the two ends of the token. */
module LexSpec {
  import opened Utf8

  datatype TokenKind =
    | Keyword | Identifier | QuotedIdent | StringLiteral | NumberLiteral | Operator
    | LeftParen | RightParen | Comma | Semicolon | Dot | LineComment | BlockComment
    | JinjaOpen | JinjaClose | JinjaBlock | Whitespace | Newline | Unknown

  const TAB: Byte := 9
  const LF: Byte := 10
  const CR: Byte := 13
  const SPACE: Byte := 32
  const BANG: Byte := 33
  const DOUBLE_QUOTE: Byte := 34
  const HASH: Byte := 35
  const DOLLAR: Byte := 36
  const PERCENT: Byte := 37
  const QUOTE: Byte := 39
  const LPAREN: Byte := 40
  const RPAREN: Byte := 41
  const STAR: Byte := 42
  const PLUS: Byte := 43
  const COMMA: Byte := 44
  const MINUS: Byte := 45
  const DOT: Byte := 46
  const SLASH: Byte := 47
  const SEMICOLON: Byte := 59
  const LESS: Byte := 60
  const EQUALS: Byte := 61
  const GREATER: Byte := 62
  const UPPER_E: Byte := 69
  const UNDERSCORE: Byte := 95
  const BACKTICK: Byte := 96
  const LOWER_E: Byte := 101
  const LBRACE: Byte := 123
  const RBRACE: Byte := 125

  predicate IsBlank(b: Byte) { b == SPACE || b == TAB }
  predicate IsLineEnd(b: Byte) { b == LF || b == CR }
  predicate InLine(b: Byte) { !IsLineEnd(b) }
  predicate IsDigit(b: Byte) { 48 <= b <= 57 }
  predicate IsLetter(b: Byte) { 65 <= b <= 90 || 97 <= b <= 122 }
  predicate IsSign(b: Byte) { b == PLUS || b == MINUS }
  predicate IsExponentMark(b: Byte) { b == LOWER_E || b == UPPER_E }

  /** Rust's `char::is_alphanumeric` on characters outside ASCII: a Unicode table, left open. */
  type UnicodeTable = Scalar -> bool

  /** The octets a, b stand at q and q + 1. */
  predicate PairAt(s: seq<Byte>, q: nat, a: Byte, b: Byte) {
    q + 1 < |s| && s[q] == a && s[q + 1] == b
  }

  /** From i on, exactly the octets up to j satisfy p before the first that does not. */
  ghost predicate MaximalRun(s: seq<Byte>, i: nat, j: nat, p: Byte -> bool) {
    && i <= j <= |s|
    && (forall k :: i <= k < j ==> p(s[k]))
    && (j < |s| ==> !p(s[j]))
  }

  /** j is just past the first q at or after i, or the end of input when there is none. */
  ghost predicate ThroughByte(s: seq<Byte>, i: nat, j: nat, q: Byte) {
    || (i < j <= |s| && s[j - 1] == q && forall k :: i <= k < j - 1 ==> s[k] != q)
    || (i <= j == |s| && forall k :: i <= k < j ==> s[k] != q)
  }

  /** j is just past the first pair a, b at or after i, or the end of input when there is none. */
  ghost predicate ThroughPair(s: seq<Byte>, i: nat, j: nat, a: Byte, b: Byte) {
    || (i + 2 <= j <= |s| && PairAt(s, j - 2, a, b) && forall k :: i <= k < j - 2 ==> !PairAt(s, k, a, b))
    || (i <= j == |s| && forall k :: i <= k < j ==> !PairAt(s, k, a, b))
  }

  // ---- newline, line comment -----------------------------------------------

  ghost predicate NewlineLex(s: seq<Byte>, i: nat, j: nat)
    requires i < |s|
  {
    || (s[i] == LF && j == i + 1)
    || (PairAt(s, i, CR, LF) && j == i + 2)
    || (s[i] == CR && !PairAt(s, i, CR, LF) && j == i + 1)
  }

  // ---- block comments: nesting depth ----------------------------------------

  /** The comment is read in pieces: an opener, a closer, or a single octet. */
  function PieceWidth(s: seq<Byte>, p: nat): nat {
    if PairAt(s, p, SLASH, STAR) || PairAt(s, p, STAR, SLASH) then 2 else 1
  }

  /** How a piece changes the nesting depth. */
  function PieceDepth(s: seq<Byte>, p: nat): int {
    if PairAt(s, p, SLASH, STAR) then 1 else if PairAt(s, p, STAR, SLASH) then -1 else 0
  }

  /** Where n pieces read from p end (not past the end of input). */
  ghost function PieceEnd(s: seq<Byte>, p: nat, n: nat): nat {
    if n == 0 then p
    else
      var q := PieceEnd(s, p, n - 1);
      if q < |s| then q + PieceWidth(s, q) else q
  }

  /** The nesting depth after n pieces read from p, one opener having come before p. */
  ghost function DepthAfter(s: seq<Byte>, p: nat, n: nat): int {
    if n == 0 then 1
    else DepthAfter(s, p, n - 1) + PieceDepth(s, PieceEnd(s, p, n - 1))
  }

  /** After n pieces the comment is still open and there is input left. */
  ghost predicate StillOpen(s: seq<Byte>, p: nat, n: nat) {
    DepthAfter(s, p, n) > 0 && PieceEnd(s, p, n) < |s|
  }

  /** n pieces lead from p to q, and the comment was open before each of them. */
  ghost predicate OpenThrough(s: seq<Byte>, p: nat, q: nat, n: nat) {
    && q == PieceEnd(s, p, n) <= |s|
    && forall m :: 0 <= m < n ==> StillOpen(s, p, m)
  }

  lemma OneMorePiece(s: seq<Byte>, p: nat, q: nat, n: nat)
    requires OpenThrough(s, p, q, n) && q < |s| && DepthAfter(s, p, n) > 0
    ensures OpenThrough(s, p, q + PieceWidth(s, q), n + 1)
    ensures DepthAfter(s, p, n + 1) == DepthAfter(s, p, n) + PieceDepth(s, q)
  {
    assert StillOpen(s, p, n);
  }

  /** The comment ends at the first point where its depth is back to 0, or at end of input. */
  ghost predicate BlockCommentEnds(s: seq<Byte>, p: nat, j: nat, n: nat) {
    && OpenThrough(s, p, j, n)
    && (DepthAfter(s, p, n) == 0 || j == |s|)
  }

  ghost predicate CommentBody(s: seq<Byte>, p: nat, j: nat) {
    exists n: nat :: BlockCommentEnds(s, p, j, n)
  }

  // ---- string literals: paired quotes ---------------------------------------

  /** Every quote in s[a..b] belongs to an adjacent pair. */
  ghost predicate QuotesPaired(s: seq<Byte>, a: nat, b: nat)
    requires a <= b <= |s|
  {
    || a == b
    || (s[b - 1] != QUOTE && QuotesPaired(s, a, b - 1))
    || (a + 2 <= b && s[b - 1] == QUOTE && s[b - 2] == QUOTE && QuotesPaired(s, a, b - 2))
  }

  /** The literal ends at the first unpaired quote, or at end of input. */
  ghost predicate StringLex(s: seq<Byte>, i: nat, j: nat)
    requires i < |s|
  {
    && s[i] == QUOTE
    && i + 1 <= j <= |s|
    && (|| (i + 2 <= j && s[j - 1] == QUOTE && QuotesPaired(s, i + 1, j - 1) && (j < |s| ==> s[j] != QUOTE))
        || (j == |s| && QuotesPaired(s, i + 1, j)))
  }

  // ---- numbers ---------------------------------------------------------------

  /** A decimal part is taken only when a digit follows the dot. */
  ghost predicate FractionLex(s: seq<Byte>, a: nat, b: nat) {
    if a + 1 < |s| && s[a] == DOT && IsDigit(s[a + 1])
    then MaximalRun(s, a + 1, b, IsDigit)
    else b == a
  }

  /** An exponent mark is always taken, with its sign, even when no digit follows. */
  ghost predicate ExponentLex(s: seq<Byte>, b: nat, j: nat) {
    if b < |s| && IsExponentMark(s[b])
    then
      if b + 1 < |s| && IsSign(s[b + 1])
      then MaximalRun(s, b + 2, j, IsDigit)
      else MaximalRun(s, b + 1, j, IsDigit)
    else j == b
  }

  ghost predicate NumberParts(s: seq<Byte>, i: nat, a: nat, b: nat, j: nat) {
    MaximalRun(s, i, a, IsDigit) && FractionLex(s, a, b) && ExponentLex(s, b, j)
  }

  ghost predicate NumberLex(s: seq<Byte>, i: nat, j: nat)
    requires i < |s|
  {
    IsDigit(s[i]) && exists a: nat, b: nat :: NumberParts(s, i, a, b, j)
  }

  // ---- words -------------------------------------------------------------------

  /** Any character outside ASCII may start a word, alphanumeric or not. */
  predicate StartsWord(b: Byte) {
    IsLetter(b) || b == UNDERSCORE || b == DOLLAR || b > 127
  }

  predicate ContinuesWord(s: seq<Byte>, p: nat, alnum: UnicodeTable)
    requires p < |s|
  {
    if s[p] > 127 then CharAt(s, p) && alnum(DecodeAt(s, p))
    else IsLetter(s[p]) || IsDigit(s[p]) || s[p] == UNDERSCORE || s[p] == DOLLAR
  }

  /** A word runs, character by character, to the first one that cannot continue it. */
  ghost predicate WordLex(s: seq<Byte>, i: nat, j: nat, alnum: UnicodeTable)
    requires i < |s|
  {
    && StartsWord(s[i])
    && i < j && IsBoundary(s, j)
    && (forall p :: i < p < j && !IsContinuation(s[p]) ==> ContinuesWord(s, p, alnum))
    && (j < |s| ==> !ContinuesWord(s, j, alnum))
  }

  // ---- operators and leftovers -----------------------------------------------

  predicate IsOneOperator(b: Byte) {
    b == LESS || b == GREATER || b == EQUALS || b == PLUS || b == MINUS || b == STAR || b == SLASH || b == PERCENT
  }

  predicate IsTwoOperator(s: seq<Byte>, i: nat) {
    PairAt(s, i, LESS, GREATER) || PairAt(s, i, LESS, EQUALS) || PairAt(s, i, GREATER, EQUALS) || PairAt(s, i, BANG, EQUALS)
  }

  predicate StartsComment(s: seq<Byte>, i: nat) {
    PairAt(s, i, MINUS, MINUS) || PairAt(s, i, SLASH, STAR)
  }

  /** The longest operator that fits, where no comment starts. */
  ghost predicate OperatorLex(s: seq<Byte>, i: nat, j: nat)
    requires i < |s|
  {
    && !StartsComment(s, i)
    && if IsTwoOperator(s, i) then j == i + 2 else IsOneOperator(s[i]) && j == i + 1
  }

  predicate StartsJinja(s: seq<Byte>, i: nat) {
    || PairAt(s, i, LBRACE, LBRACE) || PairAt(s, i, LBRACE, PERCENT) || PairAt(s, i, LBRACE, HASH)
    || PairAt(s, i, RBRACE, RBRACE)
  }

  predicate IsPunctuation(b: Byte) {
    b == LPAREN || b == RPAREN || b == COMMA || b == SEMICOLON || b == DOT
  }

  /** A single octet that starts no other token. */
  ghost predicate UnknownLex(s: seq<Byte>, i: nat, j: nat)
    requires i < |s|
  {
    && j == i + 1
    && !IsLineEnd(s[i]) && !IsBlank(s[i]) && !StartsJinja(s, i) && !StartsWord(s[i]) && !IsDigit(s[i])
    && s[i] != QUOTE && s[i] != BACKTICK && s[i] != DOUBLE_QUOTE
    && !IsPunctuation(s[i]) && !IsOneOperator(s[i]) && !IsTwoOperator(s, i)
  }

  // ---- the lexeme relation -----------------------------------------------------

  /** ASCII upper case, other octets unchanged, one character an octet. */
  function UpperText(w: seq<Byte>): string {
    seq(|w|, k requires 0 <= k < |w| => if 97 <= w[k] <= 122 then (w[k] - 32) as char else w[k] as char)
  }

  /** s[i..j] is a token of kind k. `words` holds the keywords, in upper case. */
  ghost predicate Lexeme(s: seq<Byte>, i: nat, k: TokenKind, j: nat, words: set<string>, alnum: UnicodeTable) {
    && i < j <= |s|
    && match k
       case Newline => NewlineLex(s, i, j)
       case Whitespace => IsBlank(s[i]) && MaximalRun(s, i, j, IsBlank)
       case LineComment => PairAt(s, i, MINUS, MINUS) && MaximalRun(s, i, j, InLine)
       case BlockComment => PairAt(s, i, SLASH, STAR) && CommentBody(s, i + 2, j)
       case JinjaOpen => PairAt(s, i, LBRACE, LBRACE) && j == i + 2
       case JinjaClose => PairAt(s, i, RBRACE, RBRACE) && j == i + 2
       case JinjaBlock =>
         || (PairAt(s, i, LBRACE, PERCENT) && ThroughPair(s, i + 2, j, PERCENT, RBRACE))
         || (PairAt(s, i, LBRACE, HASH) && ThroughPair(s, i + 2, j, HASH, RBRACE))
       case StringLiteral => StringLex(s, i, j)
       case QuotedIdent => (s[i] == BACKTICK || s[i] == DOUBLE_QUOTE) && ThroughByte(s, i + 1, j, s[i])
       case NumberLiteral => NumberLex(s, i, j)
       case Keyword => WordLex(s, i, j, alnum) && UpperText(s[i..j]) in words
       case Identifier => WordLex(s, i, j, alnum) && UpperText(s[i..j]) !in words
       case LeftParen => s[i] == LPAREN && j == i + 1
       case RightParen => s[i] == RPAREN && j == i + 1
       case Comma => s[i] == COMMA && j == i + 1
       case Semicolon => s[i] == SEMICOLON && j == i + 1
       case Dot => s[i] == DOT && j == i + 1
       case Operator => OperatorLex(s, i, j)
       case Unknown => UnknownLex(s, i, j)
  }

  // ---- the relation determines the token ----------------------------------------

  lemma BlockCommentUnique(s: seq<Byte>, p: nat, j: nat, n: nat, j': nat, n': nat)
    requires BlockCommentEnds(s, p, j, n) && BlockCommentEnds(s, p, j', n')
    ensures j == j'
  {
    // the shorter of two readings would have ended inside the longer one
    assert n < n' ==> StillOpen(s, p, n);
    assert n' < n ==> StillOpen(s, p, n');
  }

  /** A reading of the quotes cannot be paired both with and without one more quote. */
  lemma {:induction false} NoHalfPair(s: seq<Byte>, a: nat, p: nat)
    requires a <= p < |s| && s[p] == QUOTE
    ensures !(QuotesPaired(s, a, p) && QuotesPaired(s, a, p + 1))
    decreases p
  {
    if QuotesPaired(s, a, p) && QuotesPaired(s, a, p + 1) {
      NoHalfPair(s, a, p - 1);
    }
  }

  /** Past an unpaired quote no reading is paired again. */
  lemma {:induction false} UnpairedStays(s: seq<Byte>, a: nat, p: nat, m: nat)
    requires a <= p < m <= |s| && QuotesPaired(s, a, p) && s[p] == QUOTE
    requires p + 1 < |s| ==> s[p + 1] != QUOTE
    ensures !QuotesPaired(s, a, m)
    decreases m
  {
    if m == p + 1 {
      NoHalfPair(s, a, p);
    } else if s[m - 1] != QUOTE {
      UnpairedStays(s, a, p, m - 1);
    } else if p < m - 2 {
      UnpairedStays(s, a, p, m - 2);
    }
  }

  lemma StringUnique(s: seq<Byte>, i: nat, j: nat, j': nat)
    requires i < |s| && StringLex(s, i, j) && StringLex(s, i, j')
    ensures j' <= j
  {
    if j < j' {
      UnpairedStays(s, i + 1, j - 1, j');
      if s[j' - 1] == QUOTE && QuotesPaired(s, i + 1, j' - 1) {
        UnpairedStays(s, i + 1, j - 1, j' - 1);
      }
    }
  }

  lemma NumberUnique(s: seq<Byte>, i: nat, j: nat, j': nat)
    requires i < |s| && NumberLex(s, i, j) && NumberLex(s, i, j')
    ensures j == j'
  {
    var a: nat, b: nat :| NumberParts(s, i, a, b, j);
    var a': nat, b': nat :| NumberParts(s, i, a', b', j');
    assert a == a';
    assert b == b';
  }

  lemma SameKindUnique(s: seq<Byte>, i: nat, k: TokenKind, j: nat, j': nat, words: set<string>, alnum: UnicodeTable)
    requires Lexeme(s, i, k, j, words, alnum) && Lexeme(s, i, k, j', words, alnum)
    ensures j == j'
  {
    match k
    case BlockComment =>
      var n: nat :| BlockCommentEnds(s, i + 2, j, n);
      var n': nat :| BlockCommentEnds(s, i + 2, j', n');
      BlockCommentUnique(s, i + 2, j, n, j', n');
    case StringLiteral =>
      StringUnique(s, i, j, j');
      StringUnique(s, i, j', j);
    case NumberLiteral => NumberUnique(s, i, j, j');
    case _ =>
  }

  /** At most one token starts at any offset: the relation leaves the lexer no choice
      of kind or of end. */
  lemma LexemeUnique(s: seq<Byte>, i: nat, k: TokenKind, j: nat, k': TokenKind, j': nat, words: set<string>, alnum: UnicodeTable)
    requires Lexeme(s, i, k, j, words, alnum) && Lexeme(s, i, k', j', words, alnum)
    ensures k == k' && j == j'
  {
    if (k == Keyword || k == Identifier) && (k' == Keyword || k' == Identifier) {
      assert j == j';
    }
    if k == k' {
      SameKindUnique(s, i, k, j, j', words, alnum);
    }
  }
}
