/** Line and column bookkeeping: one step function for the plain scan, and the two
    places where the lexer counts differently. */
module LexPosition {
  import opened Utf8
  import opened LexSpec

  datatype Position = Position(line: nat, column: nat)

  /** Plain: every newline breaks the line, every octet is a column. Quoted: a carriage
      return that stands alone does not break the line. Word: columns are characters. */
  datatype Counting = Plain | Quoted | Word

  function CountingOf(k: TokenKind): Counting {
    if k == QuotedIdent then Quoted
    else if k == Keyword || k == Identifier then Word
    else Plain
  }

  predicate IsBareCr(s: seq<Byte>, q: nat)
    requires q < |s|
  {
    s[q] == CR && !PairAt(s, q, CR, LF)
  }

  /** The position after the octet at q. A CR LF pair breaks the line at its LF. */
  function Step(c: Counting, s: seq<Byte>, q: nat, p: Position): Position
    requires q < |s|
  {
    if s[q] == LF || (IsBareCr(s, q) && c != Quoted) then Position(p.line + 1, 1)
    else if c == Word && IsContinuation(s[q]) then p
    else Position(p.line, p.column + 1)
  }

  /** The position at j, having been p at i. */
  function Walk(c: Counting, s: seq<Byte>, i: nat, j: nat, p: Position): Position
    requires i <= j <= |s|
  {
    if i == j then p else Step(c, s, j - 1, Walk(c, s, i, j - 1, p))
  }

  /** The position of offset i by a scan of the source that knows nothing of tokens. */
  function NaivePosition(s: seq<Byte>, i: nat): Position
    requires i <= |s|
  {
    Walk(Plain, s, 0, i, Position(1, 1))
  }

  lemma {:induction false} WalkJoin(c: Counting, s: seq<Byte>, i: nat, m: nat, j: nat, p: Position)
    requires i <= m <= j <= |s|
    ensures Walk(c, s, m, j, Walk(c, s, i, m, p)) == Walk(c, s, i, j, p)
  {
    if m < j { WalkJoin(c, s, i, m, j - 1, p); }
  }

  /** Columns grow one an octet where no line ends. */
  lemma {:induction false} WalkInLine(c: Counting, s: seq<Byte>, i: nat, j: nat, p: Position)
    requires i <= j <= |s| && c != Word
    requires forall k :: i <= k < j ==> !IsLineEnd(s[k])
    ensures Walk(c, s, i, j, p) == Position(p.line, p.column + (j - i))
  {
    if i < j { WalkInLine(c, s, i, j - 1, p); }
  }

  /** Two octets that end no line are two columns. */
  lemma WalkPair(s: seq<Byte>, i: nat, q: nat, p: Position)
    requires i <= q && q + 2 <= |s| && !IsLineEnd(s[q]) && !IsLineEnd(s[q + 1])
    ensures Walk(Plain, s, i, q + 2, p) == Position(Walk(Plain, s, i, q, p).line, Walk(Plain, s, i, q, p).column + 2)
  {
    assert Walk(Plain, s, i, q + 1, p) == Step(Plain, s, q, Walk(Plain, s, i, q, p));
  }

  /** A whole character in a word is one column. */
  lemma WalkChar(s: seq<Byte>, i: nat, q: nat, p: Position)
    requires i <= q < |s| && CharAt(s, q) && !IsLineEnd(s[q])
    ensures Walk(Word, s, i, q + Width(s[q]), p) == Position(Walk(Word, s, i, q, p).line, Walk(Word, s, i, q, p).column + 1)
  {
    var w := Width(s[q]);
    var r := Walk(Word, s, i, q + 1, p);
    if w >= 2 { assert Walk(Word, s, i, q + 2, p) == r; }
    if w >= 3 { assert Walk(Word, s, i, q + 3, p) == r; }
    if w >= 4 { assert Walk(Word, s, i, q + 4, p) == r; }
  }
}
